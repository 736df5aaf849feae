/** The catalogue's two collections and the two operations that change them,
    POST /api/books and POST /api/reviews, together with the listings
    GET /api/books and GET /api/reviews. Each POST is specified by a step
    function from the old collections to the response and the new collections. */
module Store {
  import opened Wrappers
  import opened Json
  import opened Records
  import opened Seqs
  import opened Validation
  import opened Ids
  import opened Books
  import opened Reviews

  /** The contents of `books.json` and `reviews.json`. */
  datatype Catalogue = Catalogue(books: seq<Book>, reviews: seq<Review>)

  /** POST /api/books: report every missing required field, or append the new
      book under the next numeric id. */
  function AddBookStep(c: Catalogue, body: Body, price: Option<real>, pages: Option<int>)
    : (r: (Result<Book>, Catalogue))
    requires NumericCountersWhenComplete(body)
    ensures r.0.Err? ==> r.0.error.MissingFields? && r.1 == c
    ensures r.0.Ok? ==> && r.1.books == c.books + [r.0.value]
                        && r.1.reviews == c.reviews
                        && forall i :: 0 <= i < |c.books| ==> c.books[i].id != r.0.value.id
  {
    var missing := MissingRequired(RequiredBookFields, body);
    if missing != [] then (Err(MissingFields(missing)), c)
    else
      NoneMissing(RequiredBookFields, body);
      NextBookIdUnused(c.books);
      var book := NewBook(NextBookId(c.books), body, price, pages);
      (Ok(book), c.(books := c.books + [book]))
  }

  /** The book at position `k` with one more review counted. */
  function CountReview(books: seq<Book>, k: nat): (r: seq<Book>)
    requires k < |books|
    ensures |r| == |books|
    ensures r[k] == books[k].(reviewCount := books[k].reviewCount + 1.0)
    ensures forall j :: 0 <= j < |books| && j != k ==> r[j] == books[j]
  {
    books[k := books[k].(reviewCount := books[k].reviewCount + 1.0)]
  }

  /** POST /api/reviews: missing fields first, then the rating, then the book; on
      success append the review under the next `review-<n>` id and count it on the
      first book whose id is the body's `bookId`. */
  function AddReviewStep(c: Catalogue, body: Body, rating: Option<real>, timestamp: string)
    : (r: (Result<Review>, Catalogue))
    ensures r.0.Err? ==> r.1 == c
    ensures r.0.Ok? ==> && r.1.reviews == c.reviews + [r.0.value]
                        && |r.1.books| == |c.books|
                        && forall i :: 0 <= i < |c.reviews| ==> c.reviews[i].id != r.0.value.id
  {
    var missing := MissingRequired(RequiredReviewFields, body);
    if missing != [] then (Err(MissingFields(missing)), c)
    else if !ValidRating(rating) then (Err(InvalidRating), c)
    else
      NoneMissing(RequiredReviewFields, body);
      ReviewFieldsPresent(body);
      match FindBook(c.books, body["bookId"])
      case None => (Err(NotFound), c)
      case Some(k) =>
        NextReviewIdUnused(c.reviews);
        var review := NewReview(NextReviewId(c.reviews), body, rating.value, timestamp);
        (Ok(review), Catalogue(CountReview(c.books, k), c.reviews + [review]))
  }

  /** Every review names a book of the catalogue. */
  ghost predicate ReviewsReferToBooks(c: Catalogue) {
    forall i :: 0 <= i < |c.reviews| ==> FindBook(c.books, c.reviews[i].bookId).Some?
  }

  /** `review.bookId === id` */
  function About(id: string): Review -> bool {
    (r: Review) => r.bookId == JStr(id)
  }

  /** The number of reviews of the book with id `id`. */
  function ReviewsOf(reviews: seq<Review>, id: string): nat {
    |Filter(reviews, About(id))|
  }

  /** The books and reviews files, held in memory. A POST reads both collections,
      decides, and writes back the ones it changed; an error writes nothing. */
  class Store {
    var books: seq<Book>
    var reviews: seq<Review>

    constructor (books: seq<Book>, reviews: seq<Review>)
      ensures this.books == books && this.reviews == reviews
    {
      this.books := books;
      this.reviews := reviews;
    }

    function State(): Catalogue
      reads this
    {
      Catalogue(books, reviews)
    }

    /** GET /api/books: every stored book, unchanged, and their number. */
    method ListBooks() returns (r: BookList)
      ensures r.books == books && r.total == |books|
    {
      r := BookList(books, |books|);
    }

    /** GET /api/reviews: every stored review, unchanged, and their number. */
    method ListReviews() returns (r: ReviewList)
      ensures r.reviews == reviews && r.total == |reviews|
    {
      r := ReviewList(reviews, |reviews|);
    }

    /** POST /api/books */
    method AddBook(body: Body, price: Option<real>, pages: Option<int>) returns (r: Result<Book>)
      requires NumericCountersWhenComplete(body)
      modifies this
      ensures (r, State()) == AddBookStep(old(State()), body, price, pages)
    {
      var missing := MissingRequired(RequiredBookFields, body);
      if missing != [] {
        return Err(MissingFields(missing));
      }
      NoneMissing(RequiredBookFields, body);
      var id := GenerateBookId(books);
      var book := NewBook(id, body, price, pages);
      books := books + [book];
      r := Ok(book);
    }

    /** POST /api/reviews: the two writes (reviews, then the counted book) happen as
        one step. */
    method AddReview(body: Body, rating: Option<real>, timestamp: string) returns (r: Result<Review>)
      modifies this
      ensures (r, State()) == AddReviewStep(old(State()), body, rating, timestamp)
    {
      var missing := MissingRequired(RequiredReviewFields, body);
      if missing != [] {
        return Err(MissingFields(missing));
      }
      if !ValidRating(rating) {
        return Err(InvalidRating);
      }
      NoneMissing(RequiredReviewFields, body);
      ReviewFieldsPresent(body);
      var found := FindBook(books, body["bookId"]);
      if found.None? {
        return Err(NotFound);
      }
      var id := GenerateReviewId(reviews);
      var review := NewReview(id, body, rating.value, timestamp);
      ghost var before := State();
      assert AddReviewStep(before, body, rating, timestamp)
          == (Ok(review), Catalogue(CountReview(before.books, found.value), before.reviews + [review]));
      reviews := reviews + [review];
      books := CountReview(books, found.value);
      r := Ok(review);
    }
  }

  // ---------------------------------------------------------------------------
  // POST /api/books

  /** The request fails exactly when a required field is missing; the error names
      exactly the missing ones, in the order of the required list, and nothing is
      written. */
  lemma AddBookRejects(c: Catalogue, body: Body, price: Option<real>, pages: Option<int>)
    requires NumericCountersWhenComplete(body)
    ensures var (r, c') := AddBookStep(c, body, price, pages);
            && (r.Err? <==> exists i :: 0 <= i < |RequiredBookFields| && !Given(body, RequiredBookFields[i]))
            && (r.Err? ==> r.error.MissingFields?
                           && IsSubsequence(r.error.fields, RequiredBookFields)
                           && (forall i :: 0 <= i < |RequiredBookFields| ==>
                                 (RequiredBookFields[i] in r.error.fields <==> !Given(body, RequiredBookFields[i])))
                           && c' == c)
  {
    NoneMissing(RequiredBookFields, body);
    MissingFieldsExact(RequiredBookFields, body);
    MissingFieldsInOrder(RequiredBookFields, body);
  }

  /** On success the book list is the old one plus the new book at the end, the
      reviews are untouched, and the new book has the next book id, which no
      other book has. */
  lemma AddBookAppends(c: Catalogue, body: Body, price: Option<real>, pages: Option<int>)
    requires NumericCountersWhenComplete(body)
    ensures var (r, c') := AddBookStep(c, body, price, pages);
            r.Ok? ==>
              && c'.books == c.books + [r.value]
              && c'.reviews == c.reviews
              && r.value.id == NextBookId(c.books)
              && (forall i :: 0 <= i < |c.books| ==> c.books[i].id != r.value.id)
  {
    NextBookIdUnused(c.books);
  }

  /** The new book copies the body's fields, keeps an array `genre` and wraps any
      other, and fills in the defaults: the placeholder image and `[]` tags for
      falsy values, 0 for a falsy rating or review count, `inStock` true and
      `featured` false when undefined. */
  lemma AddBookRecord(c: Catalogue, body: Body, price: Option<real>, pages: Option<int>)
    requires NumericCountersWhenComplete(body)
    ensures var (r, _) := AddBookStep(c, body, price, pages);
            r.Ok? ==>
              var b := r.value;
              && "title" in body && b.title == body["title"]
              && "author" in body && b.author == body["author"]
              && "description" in body && b.description == body["description"]
              && "isbn" in body && b.isbn == body["isbn"]
              && "datePublished" in body && b.datePublished == body["datePublished"]
              && "language" in body && b.language == body["language"]
              && "publisher" in body && b.publisher == body["publisher"]
              && b.price == price && b.pages == pages
              && "genre" in body
              && (body["genre"].JArr? ==> b.genre == body["genre"].elems)
              && (!body["genre"].JArr? ==> b.genre == [body["genre"]])
              && (Given(body, "image") ==> b.image == body["image"])
              && (!Given(body, "image") ==> b.image == JStr(DefaultImage))
              && (Given(body, "tags") ==> b.tags == body["tags"])
              && (!Given(body, "tags") ==> b.tags == JArr([]))
              && (Given(body, "rating") ==> b.rating == body["rating"].n)
              && (!Given(body, "rating") ==> b.rating == 0.0)
              && (Given(body, "reviewCount") ==> b.reviewCount == body["reviewCount"].n)
              && (!Given(body, "reviewCount") ==> b.reviewCount == 0.0)
              && ("inStock" in body ==> b.inStock == body["inStock"])
              && ("inStock" !in body ==> b.inStock == JBool(true))
              && ("featured" in body ==> b.featured == body["featured"])
              && ("featured" !in body ==> b.featured == JBool(false))
  {
    NoneMissing(RequiredBookFields, body);
    if GivesAll(body, RequiredBookFields) {
      BookFieldsPresent(body);
    }
  }

  /** Ids stay unique, and the new book is the one a lookup by its id finds. */
  lemma AddBookThenFind(c: Catalogue, body: Body, price: Option<real>, pages: Option<int>)
    requires NumericCountersWhenComplete(body)
    ensures var (r, c') := AddBookStep(c, body, price, pages);
            && (UniqueBookIds(c.books) ==> UniqueBookIds(c'.books))
            && (r.Ok? ==> FindBook(c'.books, JStr(r.value.id)) == Some(|c.books|))
  {
    var (r, c') := AddBookStep(c, body, price, pages);
    if r.Ok? {
      AddBookAppends(c, body, price, pages);
      FindAfterAppend(c.books, r.value);
    }
  }

  /** A book appended under an id no other book has is found at the end. */
  lemma {:induction false} FindAfterAppend(books: seq<Book>, b: Book)
    requires forall i :: 0 <= i < |books| ==> books[i].id != b.id
    ensures FindBook(books + [b], JStr(b.id)) == Some(|books|)
  {
    if books != [] {
      assert (books + [b])[1..] == books[1..] + [b];
      FindAfterAppend(books[1..], b);
    }
  }

  /** Appending a book keeps every earlier lookup's answer. */
  lemma {:induction false} FindInPrefix(books: seq<Book>, b: Book, id: Value)
    requires FindBook(books, id).Some?
    ensures FindBook(books + [b], id) == FindBook(books, id)
  {
    if !HasId(books[0], id) {
      assert (books + [b])[1..] == books[1..] + [b];
      FindInPrefix(books[1..], b, id);
    }
  }

  /** A review written before the book was added cannot be about it. */
  lemma AddBookHasNoReviews(c: Catalogue, body: Body, price: Option<real>, pages: Option<int>)
    requires NumericCountersWhenComplete(body)
    requires ReviewsReferToBooks(c)
    ensures var (r, c') := AddBookStep(c, body, price, pages);
            && ReviewsReferToBooks(c')
            && (r.Ok? ==> ReviewsOf(c'.reviews, r.value.id) == 0)
  {
    var (r, c') := AddBookStep(c, body, price, pages);
    if r.Ok? {
      AddBookAppends(c, body, price, pages);
      forall i | 0 <= i < |c.reviews|
        ensures FindBook(c'.books, c.reviews[i].bookId).Some?
        ensures !About(r.value.id)(c.reviews[i])
      {
        var j := FindBook(c.books, c.reviews[i].bookId).value;
        FindInPrefix(c.books, r.value, c.reviews[i].bookId);
        assert c.books[j].id != r.value.id;
      }
      FilterDropsAll(c.reviews, About(r.value.id));
    }
  }

  // ---------------------------------------------------------------------------
  // POST /api/reviews

  /** The three checks and their order: missing fields (all of them, in the
      order of the required list), then the rating, then the book; every failure
      leaves both collections as they were. */
  lemma AddReviewRejects(c: Catalogue, body: Body, rating: Option<real>, timestamp: string)
    ensures var (r, c') := AddReviewStep(c, body, rating, timestamp);
            && (r.Err? ==> c' == c)
            && (r.Err? && r.error.MissingFields? <==>
                  exists i :: 0 <= i < |RequiredReviewFields| && !Given(body, RequiredReviewFields[i]))
            && (r.Err? && r.error.MissingFields? ==>
                  && IsSubsequence(r.error.fields, RequiredReviewFields)
                  && (forall i :: 0 <= i < |RequiredReviewFields| ==>
                        (RequiredReviewFields[i] in r.error.fields <==> !Given(body, RequiredReviewFields[i]))))
            && (r == Err(InvalidRating) <==> GivesAll(body, RequiredReviewFields) && !ValidRating(rating))
            && (r == Err(NotFound) <==>
                  && GivesAll(body, RequiredReviewFields) && ValidRating(rating)
                  && "bookId" in body
                  && forall i :: 0 <= i < |c.books| ==> !HasId(c.books[i], body["bookId"]))
            && (r.Err? ==> r.error.MissingFields? || r.error == InvalidRating || r.error == NotFound)
  {
    MissingReviewFields(c, body, rating, timestamp);
    LaterReviewChecks(c, body, rating, timestamp);
  }

  /** The first check: the fields reported missing. */
  lemma MissingReviewFields(c: Catalogue, body: Body, rating: Option<real>, timestamp: string)
    ensures var (r, _) := AddReviewStep(c, body, rating, timestamp);
            && (r.Err? && r.error.MissingFields? <==>
                  exists i :: 0 <= i < |RequiredReviewFields| && !Given(body, RequiredReviewFields[i]))
            && (r.Err? && r.error.MissingFields? ==>
                  && IsSubsequence(r.error.fields, RequiredReviewFields)
                  && (forall i :: 0 <= i < |RequiredReviewFields| ==>
                        (RequiredReviewFields[i] in r.error.fields <==> !Given(body, RequiredReviewFields[i]))))
  {
    var missing := MissingRequired(RequiredReviewFields, body);
    var r := AddReviewStep(c, body, rating, timestamp).0;
    assert r.Err? && r.error.MissingFields? <==> missing != [];
    assert missing != [] ==> r.error.fields == missing;
    NoneMissing(RequiredReviewFields, body);
    MissingFieldsExact(RequiredReviewFields, body);
    MissingFieldsInOrder(RequiredReviewFields, body);
  }

  /** The two later checks, each reached only when the earlier ones pass. */
  lemma LaterReviewChecks(c: Catalogue, body: Body, rating: Option<real>, timestamp: string)
    ensures var (r, _) := AddReviewStep(c, body, rating, timestamp);
            && (r == Err(InvalidRating) <==> GivesAll(body, RequiredReviewFields) && !ValidRating(rating))
            && (r == Err(NotFound) <==>
                  && GivesAll(body, RequiredReviewFields) && ValidRating(rating)
                  && "bookId" in body
                  && forall i :: 0 <= i < |c.books| ==> !HasId(c.books[i], body["bookId"]))
            && (r.Err? ==> r.error.MissingFields? || r.error == InvalidRating || r.error == NotFound)
  {
    NoneMissing(RequiredReviewFields, body);
    if GivesAll(body, RequiredReviewFields) {
      ReviewFieldsPresent(body);
    }
  }

  /** On success the review list is the old one plus the new review at the end,
      under the next review id, which no other review has; the new review carries
      the body's fields, the parsed rating and the timestamp, and `verified` is
      `false` only when the body leaves it undefined. */
  lemma AddReviewAppends(c: Catalogue, body: Body, rating: Option<real>, timestamp: string)
    ensures var (r, c') := AddReviewStep(c, body, rating, timestamp);
            r.Ok? ==>
              var v := r.value;
              && c'.reviews == c.reviews + [v]
              && v.id == NextReviewId(c.reviews)
              && (forall i :: 0 <= i < |c.reviews| ==> c.reviews[i].id != v.id)
              && "bookId" in body && v.bookId == body["bookId"]
              && "author" in body && v.author == body["author"]
              && "title" in body && v.title == body["title"]
              && "comment" in body && v.comment == body["comment"]
              && rating.Some? && v.rating == rating.value && 1.0 <= v.rating <= 5.0
              && v.timestamp == timestamp
              && ("verified" in body ==> v.verified == body["verified"])
              && ("verified" !in body ==> v.verified == JBool(false))
  {
    NextReviewIdUnused(c.reviews);
    NoneMissing(RequiredReviewFields, body);
    if GivesAll(body, RequiredReviewFields) {
      ReviewFieldsPresent(body);
    }
  }

  /** The shape of a successful step: the body named a book, the review names
      it too, and the new collections are the counted books and the extended
      reviews. */
  lemma AddReviewShape(c: Catalogue, body: Body, rating: Option<real>, timestamp: string)
    ensures var (r, c') := AddReviewStep(c, body, rating, timestamp);
            r.Ok? ==>
              && "bookId" in body && r.value.bookId == body["bookId"]
              && FindBook(c.books, body["bookId"]).Some?
              && c' == Catalogue(CountReview(c.books, FindBook(c.books, body["bookId"]).value),
                                 c.reviews + [r.value])
              && r.value.id == NextReviewId(c.reviews)
    ensures var (r, c') := AddReviewStep(c, body, rating, timestamp);
            r.Err? ==> c' == c
  {
    NoneMissing(RequiredReviewFields, body);
    if GivesAll(body, RequiredReviewFields) {
      ReviewFieldsPresent(body);
    }
  }

  /** On success exactly one book changes: the first whose id is the review's
      `bookId` gets one more review counted, and nothing else about it or any
      other book changes. */
  lemma AddReviewCountsOnTarget(c: Catalogue, body: Body, rating: Option<real>, timestamp: string)
    ensures var (r, c') := AddReviewStep(c, body, rating, timestamp);
            r.Ok? ==>
              var k := FindBook(c.books, r.value.bookId);
              && k.Some?
              && |c'.books| == |c.books|
              && c'.books[k.value] == c.books[k.value].(reviewCount := c.books[k.value].reviewCount + 1.0)
              && c'.books[k.value].id == c.books[k.value].id
              && forall j :: 0 <= j < |c.books| && j != k.value ==> c'.books[j] == c.books[j]
  {
    AddReviewShape(c, body, rating, timestamp);
  }

  /** Counting a review keeps every book's id in its place, so every lookup
      answers as before. */
  lemma {:induction false} FindAfterCount(books: seq<Book>, k: nat, id: Value)
    requires k < |books|
    ensures FindBook(CountReview(books, k), id) == FindBook(books, id)
  {
    if k > 0 && !HasId(books[0], id) {
      assert CountReview(books, k)[1..] == CountReview(books[1..], k - 1);
      FindAfterCount(books[1..], k - 1, id);
    }
  }

  /** Ids stay unique in both collections, and every review still names a book:
      the new one names the book just found, and no book id changed. */
  lemma AddReviewKeepsInvariants(c: Catalogue, body: Body, rating: Option<real>, timestamp: string)
    requires UniqueBookIds(c.books) && UniqueReviewIds(c.reviews)
    requires ReviewsReferToBooks(c)
    ensures var (_, c') := AddReviewStep(c, body, rating, timestamp);
            UniqueBookIds(c'.books) && UniqueReviewIds(c'.reviews) && ReviewsReferToBooks(c')
  {
    var (r, c') := AddReviewStep(c, body, rating, timestamp);
    AddReviewShape(c, body, rating, timestamp);
    if r.Ok? {
      var k := FindBook(c.books, body["bookId"]).value;
      var books', v := CountReview(c.books, k), r.value;
      assert c'.books == books' && c'.reviews == c.reviews + [v];
      forall i | 0 <= i < |books'|
        ensures books'[i].id == c.books[i].id
      {
      }
      NextReviewIdUnused(c.reviews);
      AppendFreshReview(c.reviews, v);
      forall i | 0 <= i < |c'.reviews|
        ensures FindBook(books', c'.reviews[i].bookId).Some?
      {
        FindAfterCount(c.books, k, c'.reviews[i].bookId);
        if i < |c.reviews| {
          assert c'.reviews[i] == c.reviews[i];
        }
      }
    }
  }

  /** Appending a review under an unused id keeps the ids unique. */
  lemma AppendFreshReview(reviews: seq<Review>, v: Review)
    requires UniqueReviewIds(reviews)
    requires forall i :: 0 <= i < |reviews| ==> reviews[i].id != v.id
    ensures UniqueReviewIds(reviews + [v])
  {
    var all := reviews + [v];
    forall i, j | 0 <= i < j < |all|
      ensures all[i].id != all[j].id
    {
      assert all[i] == reviews[i];
    }
  }

  /** With unique book ids, every book's review count and its number of reviews
      move together: their difference is the same before and after. */
  lemma AddReviewKeepsBalance(c: Catalogue, body: Body, rating: Option<real>, timestamp: string)
    requires UniqueBookIds(c.books)
    ensures var (r, c') := AddReviewStep(c, body, rating, timestamp);
            r.Ok? ==>
              forall i :: 0 <= i < |c.books| ==>
                c'.books[i].reviewCount - ReviewsOf(c'.reviews, c'.books[i].id) as real
                == c.books[i].reviewCount - ReviewsOf(c.reviews, c.books[i].id) as real
  {
    var (r, c') := AddReviewStep(c, body, rating, timestamp);
    if r.Ok? {
      AddReviewShape(c, body, rating, timestamp);
      AddReviewCountsOnTarget(c, body, rating, timestamp);
      var k := FindBook(c.books, r.value.bookId).value;
      forall i | 0 <= i < |c.books|
        ensures c'.books[i].reviewCount - ReviewsOf(c'.reviews, c'.books[i].id) as real
                == c.books[i].reviewCount - ReviewsOf(c.reviews, c.books[i].id) as real
      {
        var id := c.books[i].id;
        assert c'.books[i].id == id;
        FilterAppend(c.reviews, [r.value], About(id));
        FilterSingleton(r.value, About(id));
        if i != k {
          assert c.books[i].id != c.books[k].id;
        }
      }
    }
  }
}
