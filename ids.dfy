/** Id generation for both collections: scan the ids, keep the largest numeric
    value seen (starting from 0), add one, and format it in the collection's
    convention: `"<n>"` for books, `"review-<n>"` for reviews. */
module Ids {
  import opened Wrappers
  import opened NumericText
  import opened Records

  /** One step of the `reduce`: `id > max ? id : max`. A `NaN` id compares false
      and leaves the maximum as it was. */
  function MaxStep(max: int, id: Option<int>): (m: int)
    ensures m >= max && (id.Some? ==> m >= id.value)
    ensures m == max || id == Some(m)
  {
    match id
    case Some(v) => if v > max then v else max
    case None => max
  }

  /** The `reduce` over the parsed ids with initial value 0, left to right. */
  function MaxId(ids: seq<Option<int>>): (m: int)
    ensures m >= 0
    ensures forall i :: 0 <= i < |ids| && ids[i].Some? ==> ids[i].value <= m
  {
    if ids == [] then 0 else MaxStep(MaxId(ids[..|ids| - 1]), ids[|ids| - 1])
  }

  /** The maximum is 0 or one of the ids: the reduce only ever keeps a value it
      has seen. */
  lemma {:induction false} MaxIdAttained(ids: seq<Option<int>>)
    ensures MaxId(ids) == 0 || exists i :: 0 <= i < |ids| && ids[i] == Some(MaxId(ids))
  {
    if ids != [] {
      var init := ids[..|ids| - 1];
      MaxIdAttained(init);
      if MaxId(ids) != MaxId(init) {
        assert ids[|ids| - 1] == Some(MaxId(ids));
      } else if MaxId(init) != 0 {
        var i :| 0 <= i < |init| && init[i] == Some(MaxId(init));
        assert ids[i] == init[i];
      }
    }
  }

  /** Extending the scanned prefix by one id is one more `reduce` step. */
  lemma MaxIdStep(ids: seq<Option<int>>, i: nat)
    requires i < |ids|
    ensures MaxId(ids[..i + 1]) == MaxStep(MaxId(ids[..i]), ids[i])
  {
    assert ids[..i + 1][..i] == ids[..i];
  }

  /** `parseInt(book.id)` for every book. */
  function BookIdNumbers(books: seq<Book>): (ids: seq<Option<int>>)
    ensures |ids| == |books|
    ensures forall i :: 0 <= i < |books| ==> ids[i] == ParseInt(books[i].id)
  {
    seq(|books|, i requires 0 <= i < |books| => ParseInt(books[i].id))
  }

  const ReviewPrefix := "review-"

  /** `` `review-${n}` `` */
  function ReviewId(n: nat): string {
    ReviewPrefix + NatToString(n)
  }

  /** `parseInt(review.id.replace('review-', ''))` */
  function ReviewIdNumber(id: string): Option<int> {
    ParseInt(ReplaceFirst(id, ReviewPrefix, ""))
  }

  /** A review id written by the generator reads back as its number. */
  lemma ReviewIdNumberRoundTrip(n: nat)
    ensures ReviewIdNumber(ReviewId(n)) == Some(n)
  {
    ReplaceFirstOfPrefixed(ReviewPrefix, NatToString(n));
    ParseIntOfNatToString(n);
  }

  function ReviewIdNumbers(reviews: seq<Review>): (ids: seq<Option<int>>)
    ensures |ids| == |reviews|
    ensures forall i :: 0 <= i < |reviews| ==> ids[i] == ReviewIdNumber(reviews[i].id)
  {
    seq(|reviews|, i requires 0 <= i < |reviews| => ReviewIdNumber(reviews[i].id))
  }

  /** The id the next book is given: `(maxId + 1).toString()`. */
  function NextBookId(books: seq<Book>): string {
    NatToString(MaxId(BookIdNumbers(books)) + 1)
  }

  /** The id the next review is given: `` `review-${maxId + 1}` ``. */
  function NextReviewId(reviews: seq<Review>): string {
    ReviewId(MaxId(ReviewIdNumbers(reviews)) + 1)
  }

  /** Every existing numeric book id is at most the largest one. */
  lemma BookIdsBelowMax(books: seq<Book>)
    ensures forall i :: 0 <= i < |books| && ParseInt(books[i].id).Some? ==>
              ParseInt(books[i].id).value <= MaxId(BookIdNumbers(books))
  {
    var ids := BookIdNumbers(books);
    forall i | 0 <= i < |books| && ParseInt(books[i].id).Some?
      ensures ParseInt(books[i].id).value <= MaxId(ids)
    {
      assert ids[i] == ParseInt(books[i].id);
    }
  }

  /** Ids whose numbers differ are different ids. */
  lemma DifferentBookNumbers(a: string, b: string)
    requires ParseInt(a) != ParseInt(b)
    ensures a != b
  {
  }

  /** The numeral of a number above every existing numeric book id is not the id
      of any book. */
  lemma {:induction false} FreshBookNumeral(books: seq<Book>, m: nat)
    requires forall i :: 0 <= i < |books| && ParseInt(books[i].id).Some? ==>
               ParseInt(books[i].id).value <= m
    ensures forall i :: 0 <= i < |books| ==> books[i].id != NatToString(m + 1)
  {
    ParseIntOfNatToString(m + 1);
    forall i | 0 <= i < |books|
      ensures books[i].id != NatToString(m + 1)
    {
      DifferentBookNumbers(books[i].id, NatToString(m + 1));
    }
  }

  /** No existing book has the next book id, since its number is above theirs. */
  lemma NextBookIdUnused(books: seq<Book>)
    ensures forall i :: 0 <= i < |books| ==> books[i].id != NextBookId(books)
  {
    BookIdsBelowMax(books);
    FreshBookNumeral(books, MaxId(BookIdNumbers(books)));
  }

  /** Every existing numeric review suffix is at most the largest one. */
  lemma ReviewIdsBelowMax(reviews: seq<Review>)
    ensures forall i :: 0 <= i < |reviews| && ReviewIdNumber(reviews[i].id).Some? ==>
              ReviewIdNumber(reviews[i].id).value <= MaxId(ReviewIdNumbers(reviews))
  {
    var ids := ReviewIdNumbers(reviews);
    forall i | 0 <= i < |reviews| && ReviewIdNumber(reviews[i].id).Some?
      ensures ReviewIdNumber(reviews[i].id).value <= MaxId(ids)
    {
      assert ids[i] == ReviewIdNumber(reviews[i].id);
    }
  }

  /** Ids whose numbers differ are different ids. */
  lemma DifferentReviewNumbers(a: string, b: string)
    requires ReviewIdNumber(a) != ReviewIdNumber(b)
    ensures a != b
  {
  }

  /** The review id numbered above every existing numeric suffix is not the id of
      any review. */
  lemma {:induction false} FreshReviewNumber(reviews: seq<Review>, m: nat)
    requires forall i :: 0 <= i < |reviews| && ReviewIdNumber(reviews[i].id).Some? ==>
               ReviewIdNumber(reviews[i].id).value <= m
    ensures forall i :: 0 <= i < |reviews| ==> reviews[i].id != ReviewId(m + 1)
  {
    ReviewIdNumberRoundTrip(m + 1);
    forall i | 0 <= i < |reviews|
      ensures reviews[i].id != ReviewId(m + 1)
    {
      DifferentReviewNumbers(reviews[i].id, ReviewId(m + 1));
    }
  }

  /** No existing review has the next review id. */
  lemma NextReviewIdUnused(reviews: seq<Review>)
    ensures forall i :: 0 <= i < |reviews| ==> reviews[i].id != NextReviewId(reviews)
  {
    ReviewIdsBelowMax(reviews);
    FreshReviewNumber(reviews, MaxId(ReviewIdNumbers(reviews)));
  }

  /** The `reduce` both routes run over the parsed ids, as the loop it is:
      start from 0 and keep any id above the maximum so far. */
  method LargestId(ids: seq<Option<int>>) returns (max: int)
    ensures max == MaxId(ids)
  {
    max := 0;
    for i := 0 to |ids|
      invariant max == MaxId(ids[..i])
    {
      MaxIdStep(ids, i);
      var n := ids[i];
      if n.Some? && n.value > max {
        max := n.value;
      }
    }
    assert ids[..|ids|] == ids;
  }

  /** The id the books route gives a new book, unused by every existing book. */
  method GenerateBookId(books: seq<Book>) returns (id: string)
    ensures id == NextBookId(books)
    ensures forall i :: 0 <= i < |books| ==> books[i].id != id
  {
    var max := LargestId(BookIdNumbers(books));
    id := NatToString(max + 1);
    NextBookIdUnused(books);
  }

  /** The id the reviews route gives a new review, unused by every existing review. */
  method GenerateReviewId(reviews: seq<Review>) returns (id: string)
    ensures id == NextReviewId(reviews)
    ensures forall i :: 0 <= i < |reviews| ==> reviews[i].id != id
  {
    var max := LargestId(ReviewIdNumbers(reviews));
    id := ReviewId(max + 1);
    NextReviewIdUnused(reviews);
  }

  /** An empty catalogue numbers its first book "1" and its first review "review-1". */
  lemma FirstIds()
    ensures NextBookId([]) == "1"
    ensures NextReviewId([]) == "review-1"
  {
  }
}
