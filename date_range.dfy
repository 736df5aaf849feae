/** GET /api/books/date-range?start=..&end=..: the books published between two
    dates, both inclusive, after three checks made in a fixed order. */
module DateRange {
  import opened Wrappers
  import opened Json
  import opened Records
  import opened Seqs

  /** `new Date(x).getTime()`: milliseconds since the epoch, `None` for an invalid
      date (`NaN`). Date parsing itself is not part of this model; the operation
      takes it as a parameter. */
  type DateParser = Value -> Option<int>

  /** `!!searchParams.get(name)`: the parameter occurs and is not empty. */
  predicate Present(param: Option<string>) {
    param.Some? && param.value != ""
  }

  /** `bookDate >= start && bookDate <= end`: an invalid publication date makes
      both comparisons false. */
  predicate PublishedWithin(parse: DateParser, start: int, end: int, b: Book) {
    match parse(b.datePublished)
    case Some(d) => start <= d <= end
    case None => false
  }

  function Within(parse: DateParser, start: int, end: int): Book -> bool {
    b => PublishedWithin(parse, start, end, b)
  }

  function BooksInDateRange(books: seq<Book>, start: Option<string>, end: Option<string>,
                            parse: DateParser): (r: Result<BookList>)
    ensures r == Err(MissingParam) <==> !Present(start) || !Present(end)
    ensures r == Err(InvalidDate) <==>
              Present(start) && Present(end)
              && (parse(JStr(start.value)).None? || parse(JStr(end.value)).None?)
    ensures r == Err(InvalidRange) <==>
              Present(start) && Present(end)
              && parse(JStr(start.value)).Some? && parse(JStr(end.value)).Some?
              && parse(JStr(start.value)).value > parse(JStr(end.value)).value
    ensures r.Err? ==> r.error.MissingParam? || r.error.InvalidDate? || r.error.InvalidRange?
    ensures r.Ok? ==> r.value.total == |r.value.books|
    ensures r.Ok? ==> forall i :: 0 <= i < |r.value.books| ==>
              r.value.books[i] in books
              && PublishedWithin(parse, parse(JStr(start.value)).value, parse(JStr(end.value)).value,
                                 r.value.books[i])
    ensures r.Ok? ==> forall i :: 0 <= i < |books| ==>
              PublishedWithin(parse, parse(JStr(start.value)).value, parse(JStr(end.value)).value, books[i])
              ==> books[i] in r.value.books
  {
    if !Present(start) || !Present(end) then Err(MissingParam)
    else
      var s := parse(JStr(start.value));
      var e := parse(JStr(end.value));
      if s.None? || e.None? then Err(InvalidDate)
      else if s.value > e.value then Err(InvalidRange)
      else
        var inRange := Filter(books, Within(parse, s.value, e.value));
        FilterMembers(books, Within(parse, s.value, e.value));
        Ok(BookList(inRange, |inRange|))
  }

  /** For valid bounds the result is the subsequence of the books, in their order,
      at exactly the positions whose publication date lies in `[start, end]`;
      `start == end` is a valid range, and a book with an invalid date is never
      selected. */
  lemma DateRangeSelects(books: seq<Book>, start: string, end: string, parse: DateParser)
    requires start != "" && end != ""
    requires parse(JStr(start)).Some? && parse(JStr(end)).Some?
    requires parse(JStr(start)).value <= parse(JStr(end)).value
    ensures BooksInDateRange(books, Some(start), Some(end), parse).Ok?
    ensures var r := BooksInDateRange(books, Some(start), Some(end), parse).value.books;
            var idx := FilterIndices(books, Within(parse, parse(JStr(start)).value, parse(JStr(end)).value));
            && SubsequenceAt(r, books, idx)
            && forall i :: 0 <= i < |books| ==>
                 (i in idx <==> (parse(books[i].datePublished).Some?
                                 && parse(JStr(start)).value <= parse(books[i].datePublished).value
                                 <= parse(JStr(end)).value))
  {
    FilterSelects(books, Within(parse, parse(JStr(start)).value, parse(JStr(end)).value));
  }
}
