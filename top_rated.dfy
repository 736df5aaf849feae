/** GET /api/books/top-rated: every book gets a weighted rating
    `rating × reviewCount`; the list is sorted by it, highest first, with a
    stable sort, and the first ten are returned. */
module TopRated {
  import opened Records
  import opened Seqs

  /** A book as the response lists it: the stored record plus `weightedRating`. */
  datatype RankedBook = RankedBook(book: Book, weightedRating: real)

  datatype RankedList = RankedList(books: seq<RankedBook>, total: nat)

  const TopCount: nat := 10

  function WithWeight(b: Book): RankedBook {
    RankedBook(b, b.rating * b.reviewCount)
  }

  /** `books.map(book => ({...book, weightedRating: ...}))` */
  function Rank(books: seq<Book>): (r: seq<RankedBook>)
    ensures |r| == |books|
    ensures forall i :: 0 <= i < |books| ==> r[i] == WithWeight(books[i])
  {
    seq(|books|, i requires 0 <= i < |books| => WithWeight(books[i]))
  }

  /** Non-increasing by weighted rating. */
  ghost predicate SortedDesc(s: seq<RankedBook>) {
    forall i, j :: 0 <= i < j < |s| ==> s[i].weightedRating >= s[j].weightedRating
  }

  function HasWeight(k: real): RankedBook -> bool {
    (e: RankedBook) => e.weightedRating == k
  }

  /** Stability: for every weight, the entries carrying it keep their relative order. */
  ghost predicate SameTies(r: seq<RankedBook>, s: seq<RankedBook>) {
    forall k :: Filter(r, HasWeight(k)) == Filter(s, HasWeight(k))
  }

  /** Inserts `x` into a list sorted highest first, after every entry whose weight is
      at least that of `x`: `x` came later in the input, so it goes after its ties. */
  function Insert(sorted: seq<RankedBook>, x: RankedBook): (r: seq<RankedBook>)
    ensures multiset(r) == multiset(sorted) + multiset{x}
  {
    if sorted == [] then [x]
    else if sorted[0].weightedRating < x.weightedRating then [x] + sorted
    else
      assert sorted == [sorted[0]] + sorted[1..];
      [sorted[0]] + Insert(sorted[1..], x)
  }

  /** `sort((a, b) => b.weightedRating - a.weightedRating)`, as a stable insertion
      sort. */
  function SortByWeight(s: seq<RankedBook>): (r: seq<RankedBook>)
    ensures multiset(r) == multiset(s)
  {
    if s == [] then []
    else
      assert s == s[..|s| - 1] + [s[|s| - 1]];
      Insert(SortByWeight(s[..|s| - 1]), s[|s| - 1])
  }

  lemma {:induction false} InsertSorted(sorted: seq<RankedBook>, x: RankedBook)
    requires SortedDesc(sorted)
    ensures SortedDesc(Insert(sorted, x))
  {
    if sorted != [] && sorted[0].weightedRating >= x.weightedRating {
      var rest := sorted[1..];
      InsertSorted(rest, x);
      var r := Insert(rest, x);
      forall j | 0 <= j < |r|
        ensures sorted[0].weightedRating >= r[j].weightedRating
      {
        assert r[j] in multiset(r);
        assert r[j] in multiset(rest) || r[j] == x;
      }
    }
  }

  /** An entry heavier than every entry of a sorted list ties with none of them, so
      putting it first or last gives the same ties. */
  lemma TiesOfHeavierFirst(sorted: seq<RankedBook>, x: RankedBook, k: real)
    requires SortedDesc(sorted) && sorted != []
    requires sorted[0].weightedRating < x.weightedRating
    ensures Filter([x] + sorted, HasWeight(k)) == Filter(sorted, HasWeight(k)) + Filter([x], HasWeight(k))
  {
    var p := HasWeight(k);
    FilterAppend([x], sorted, p);
    FilterSingleton(x, p);
    if p(x) {
      forall i | 0 <= i < |sorted|
        ensures !p(sorted[i])
      {
        assert sorted[i].weightedRating <= sorted[0].weightedRating;
      }
      FilterDropsAll(sorted, p);
    }
  }

  /** When `x` goes behind the first entry, the ties of the insertion into the
      rest carry over to the whole list. */
  lemma TiesBehindHead(sorted: seq<RankedBook>, x: RankedBook, k: real)
    requires sorted != [] && sorted[0].weightedRating >= x.weightedRating
    requires Filter(Insert(sorted[1..], x), HasWeight(k))
             == Filter(sorted[1..], HasWeight(k)) + Filter([x], HasWeight(k))
    ensures Filter(Insert(sorted, x), HasWeight(k))
            == Filter(sorted, HasWeight(k)) + Filter([x], HasWeight(k))
  {
    var p := HasWeight(k);
    var rest := sorted[1..];
    assert sorted == [sorted[0]] + rest;
    assert Insert(sorted, x) == [sorted[0]] + Insert(rest, x);
    FilterAppend([sorted[0]], Insert(rest, x), p);
    FilterAppend([sorted[0]], rest, p);
    var h, t, e := Filter([sorted[0]], p), Filter(rest, p), Filter([x], p);
    assert h + (t + e) == (h + t) + e;
  }

  lemma {:induction false} InsertTies(sorted: seq<RankedBook>, x: RankedBook, k: real)
    requires SortedDesc(sorted)
    ensures Filter(Insert(sorted, x), HasWeight(k)) == Filter(sorted, HasWeight(k)) + Filter([x], HasWeight(k))
  {
    var p := HasWeight(k);
    if sorted == [] {
      assert Insert(sorted, x) == [x];
      assert Filter(sorted, p) == [];
    } else if sorted[0].weightedRating < x.weightedRating {
      assert Insert(sorted, x) == [x] + sorted;
      TiesOfHeavierFirst(sorted, x, k);
    } else {
      InsertTies(sorted[1..], x, k);
      TiesBehindHead(sorted, x, k);
    }
  }

  /** The sort orders by weight, highest first, keeps ties in input order, and
      loses or adds nothing. */
  lemma {:induction false} SortIsStable(s: seq<RankedBook>)
    ensures SortedDesc(SortByWeight(s))
    ensures SameTies(SortByWeight(s), s)
    ensures multiset(SortByWeight(s)) == multiset(s)
  {
    if s != [] {
      var init, last := s[..|s| - 1], s[|s| - 1];
      assert s == init + [last];
      SortIsStable(init);
      InsertSorted(SortByWeight(init), last);
      forall k
        ensures Filter(SortByWeight(s), HasWeight(k)) == Filter(s, HasWeight(k))
      {
        InsertTies(SortByWeight(init), last, k);
        FilterAppend(init, [last], HasWeight(k));
      }
    }
  }

  /** A list with the same ties as the empty list is empty. */
  lemma TiesOfEmpty(r: seq<RankedBook>, q: seq<RankedBook>)
    requires r == [] && SameTies(r, q)
    ensures q == []
  {
    if q != [] {
      FilterMembers(q, HasWeight(q[0].weightedRating));
      assert false;
    }
  }

  /** The entries of a non-empty list that carry its first entry's weight start
      with that entry. */
  lemma FirstTie(r: seq<RankedBook>)
    requires r != []
    ensures var ties := Filter(r, HasWeight(r[0].weightedRating));
            ties != [] && ties[0] == r[0]
  {
    var p := HasWeight(r[0].weightedRating);
    assert r == [r[0]] + r[1..];
    FilterAppend([r[0]], r[1..], p);
    FilterSingleton(r[0], p);
  }

  /** Two non-empty lists sorted highest first with the same ties start with the
      same weight, the largest one. */
  lemma LeadingWeightsAgree(r: seq<RankedBook>, q: seq<RankedBook>)
    requires r != [] && q != []
    requires SortedDesc(r) && SortedDesc(q)
    requires SameTies(r, q)
    ensures r[0].weightedRating == q[0].weightedRating
  {
    var kr, kq := r[0].weightedRating, q[0].weightedRating;
    FirstTie(r);
    FirstTie(q);
    FilterMembers(q, HasWeight(kr));
    FilterMembers(r, HasWeight(kq));
    assert Filter(r, HasWeight(kr)) == Filter(q, HasWeight(kr));
    assert Filter(r, HasWeight(kq)) == Filter(q, HasWeight(kq));
    assert Filter(q, HasWeight(kr))[0] in q;
    assert Filter(r, HasWeight(kq))[0] in r;
  }

  /** ... and hence with the same entry: the first tie of that weight. */
  lemma HeadsAgree(r: seq<RankedBook>, q: seq<RankedBook>)
    requires r != [] && q != []
    requires SortedDesc(r) && SortedDesc(q)
    requires SameTies(r, q)
    ensures r[0] == q[0]
  {
    LeadingWeightsAgree(r, q);
    FirstTie(r);
    FirstTie(q);
    assert Filter(r, HasWeight(r[0].weightedRating)) == Filter(q, HasWeight(q[0].weightedRating));
  }

  /** Removing the same first entry from both lists keeps their ties equal. */
  lemma TailTies(r: seq<RankedBook>, q: seq<RankedBook>)
    requires r != [] && q != [] && r[0] == q[0]
    requires SameTies(r, q)
    ensures SameTies(r[1..], q[1..])
  {
    assert r == [r[0]] + r[1..] && q == [q[0]] + q[1..];
    forall k
      ensures Filter(r[1..], HasWeight(k)) == Filter(q[1..], HasWeight(k))
    {
      var p := HasWeight(k);
      FilterAppend([r[0]], r[1..], p);
      FilterAppend([q[0]], q[1..], p);
      var head := Filter([r[0]], p);
      assert Filter(r, p) == Filter(q, p);
      assert head + Filter(r[1..], p) == head + Filter(q[1..], p);
      assert Filter(r[1..], p) == (head + Filter(r[1..], p))[|head|..];
      assert Filter(q[1..], p) == (head + Filter(q[1..], p))[|head|..];
    }
  }

  /** Two lists sorted highest first with the same ties in the same order are equal:
      every stable sort under this comparator gives the same result, which is why
      one insertion sort stands for the engine's `Array.prototype.sort` (stable
      since the 2019 edition of ECMA-262). */
  lemma {:induction false} StableSortUnique(r: seq<RankedBook>, q: seq<RankedBook>)
    requires SortedDesc(r) && SortedDesc(q)
    requires SameTies(r, q)
    ensures r == q
    decreases |r| + |q|
  {
    if r == [] {
      TiesOfEmpty(r, q);
    } else if q == [] {
      TiesOfEmpty(q, r);
    } else {
      HeadsAgree(r, q);
      TailTies(r, q);
      StableSortUnique(r[1..], q[1..]);
      assert r == [r[0]] + r[1..] && q == [q[0]] + q[1..];
    }
  }

  /** A rearrangement of the weighted books holds only weighted books. */
  lemma RankedEntries(s: seq<RankedBook>, books: seq<Book>)
    requires multiset(s) == multiset(Rank(books))
    ensures forall i :: 0 <= i < |s| ==> s[i].book in books && s[i] == WithWeight(s[i].book)
  {
    forall i | 0 <= i < |s|
      ensures s[i].book in books && s[i] == WithWeight(s[i].book)
    {
      assert s[i] in multiset(Rank(books));
      var j :| 0 <= j < |books| && Rank(books)[j] == s[i];
    }
  }

  function TopRatedBooks(books: seq<Book>): (r: RankedList)
    ensures r.total == |r.books|
    ensures |r.books| == if |books| < TopCount then |books| else TopCount
    ensures forall i :: 0 <= i < |r.books| ==>
              r.books[i].book in books && r.books[i] == WithWeight(r.books[i].book)
    ensures SortedDesc(r.books)
  {
    var sorted := SortByWeight(Rank(books));
    SortIsStable(Rank(books));
    RankedEntries(sorted, books);
    var top := Take(sorted, TopCount);
    RankedList(top, |top|)
  }

  /** Top-k: the result is the first ten of the stable sort of all weighted books,
      and every weighted book left out ranks no higher than any returned one. */
  lemma TopRatedIsTopK(books: seq<Book>)
    ensures var all := SortByWeight(Rank(books));
            var r := TopRatedBooks(books).books;
            && r == Take(all, TopCount)
            && multiset(all) == multiset(Rank(books))
            && SameTies(all, Rank(books))
            && forall i, j :: 0 <= i < |r| <= j < |all| ==>
                 all[j].weightedRating <= r[i].weightedRating
  {
    SortIsStable(Rank(books));
  }

  /** Any stable descending sort of the weighted books yields the same ten. */
  lemma AnyStableSortAgrees(books: seq<Book>, sorted: seq<RankedBook>)
    requires SortedDesc(sorted) && SameTies(sorted, Rank(books))
    ensures TopRatedBooks(books).books == Take(sorted, TopCount)
  {
    SortIsStable(Rank(books));
    StableSortUnique(SortByWeight(Rank(books)), sorted);
  }
}
