/** GET /api/books/featured: the books whose `featured` is exactly `true`. */
module Featured {
  import opened Json
  import opened Records
  import opened Seqs

  /** `book.featured === true`: strict equality, so a truthy non-boolean such as
      `1` or `"yes"` does not count. */
  predicate IsFeatured(b: Book) {
    b.featured == JBool(true)
  }

  function FeaturedBooks(books: seq<Book>): (r: BookList)
    ensures r.total == |r.books|
    ensures forall i :: 0 <= i < |r.books| ==> r.books[i] in books && r.books[i].featured == JBool(true)
    ensures forall i :: 0 <= i < |books| && books[i].featured == JBool(true) ==> books[i] in r.books
  {
    var featured := Filter(books, IsFeatured);
    FilterMembers(books, IsFeatured);
    BookList(featured, |featured|)
  }

  /** The featured books are the input's featured entries, unmodified, in their
      original order, at exactly the positions whose `featured` is `true`. */
  lemma FeaturedInOrder(books: seq<Book>)
    ensures IsSubsequence(FeaturedBooks(books).books, books)
    ensures SubsequenceAt(FeaturedBooks(books).books, books, FilterIndices(books, IsFeatured))
    ensures forall i :: 0 <= i < |books| ==>
              (i in FilterIndices(books, IsFeatured) <==> books[i].featured == JBool(true))
  {
    FilterSelects(books, IsFeatured);
  }

  /** Asking for the featured books of the featured books changes nothing. */
  lemma FeaturedIdempotent(books: seq<Book>)
    ensures FeaturedBooks(FeaturedBooks(books).books) == FeaturedBooks(books)
  {
    FilterIdempotent(books, IsFeatured);
  }
}
