/** The two record kinds of the catalogue and the outcomes of its operations. */
module Records {
  import opened Wrappers
  import opened Json

  /** A catalogue entry. Fields the service copies from the request body are kept
      as the JSON values they were; `price` and `pages` hold what `parseFloat` and
      `parseInt` made of the body's values (`None` is `NaN`); `rating` and
      `reviewCount` are JavaScript numbers. */
  datatype Book = Book(
    id: string,
    title: Value,
    author: Value,
    description: Value,
    price: Option<real>,
    image: Value,
    isbn: Value,
    genre: seq<Value>,
    tags: Value,
    datePublished: Value,
    pages: Option<int>,
    language: Value,
    publisher: Value,
    rating: real,
    reviewCount: real,
    inStock: Value,
    featured: Value)

  /** A review of one book, referenced by `bookId`. `rating` is the parsed rating,
      `timestamp` the ISO text of the creation instant. */
  datatype Review = Review(
    id: string,
    bookId: Value,
    author: Value,
    rating: real,
    title: Value,
    comment: Value,
    timestamp: string,
    verified: Value)

  /** A listing response: the records and their count (`total`). */
  datatype BookList = BookList(books: seq<Book>, total: nat)

  datatype ReviewList = ReviewList(reviews: seq<Review>, total: nat)

  /** Input errors the operations report; each becomes a 4xx response. */
  datatype Error =
    | MissingFields(fields: seq<string>)
    | InvalidRating
    | NotFound
    | MissingParam
    | InvalidDate
    | InvalidRange

  datatype Result<T> = Ok(value: T) | Err(error: Error)

  /** The HTTP status each error is answered with: 404 for a missing book,
      400 for every malformed request. */
  function StatusCode(e: Error): (code: int)
    ensures code == 404 <==> e.NotFound?
    ensures code == 400 <==> !e.NotFound?
  {
    match e
    case NotFound => 404
    case _ => 400
  }

  /** Every record's id occurs once in the collection. */
  predicate UniqueBookIds(books: seq<Book>) {
    forall i, j :: 0 <= i < j < |books| ==> books[i].id != books[j].id
  }

  predicate UniqueReviewIds(reviews: seq<Review>) {
    forall i, j :: 0 <= i < j < |reviews| ==> reviews[i].id != reviews[j].id
  }

  /** `book.id === bookId`: strict equality, so only a JSON string can match. */
  predicate HasId(b: Book, bookId: Value) {
    bookId == JStr(b.id)
  }

  /** `books.find(book => book.id === bookId)`, as the position of the first match. */
  function FindBook(books: seq<Book>, bookId: Value): (r: Option<nat>)
    ensures r.Some? ==> r.value < |books| && HasId(books[r.value], bookId)
    ensures r.Some? ==> forall i :: 0 <= i < r.value ==> !HasId(books[i], bookId)
    ensures r.None? ==> forall i :: 0 <= i < |books| ==> !HasId(books[i], bookId)
  {
    if books == [] then None
    else if HasId(books[0], bookId) then Some(0)
    else match FindBook(books[1..], bookId)
      case None => None
      case Some(k) => Some(k + 1)
  }
}
