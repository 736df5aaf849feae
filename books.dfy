/** The record POST /api/books builds from a validated request body. */
module Books {
  import opened Wrappers
  import opened Json
  import opened Records
  import opened Validation

  /** The fields a new book must give, in the order they are reported. */
  const RequiredBookFields: seq<string> :=
    ["title", "author", "description", "price", "isbn", "genre", "datePublished",
     "pages", "language", "publisher"]

  /** A body that passed validation defines every required field. */
  lemma BookFieldsPresent(body: Body)
    requires GivesAll(body, RequiredBookFields)
    ensures "title" in body && "author" in body && "description" in body
    ensures "price" in body && "isbn" in body && "genre" in body
    ensures "datePublished" in body && "pages" in body && "language" in body
    ensures "publisher" in body
  {
    assert Given(body, RequiredBookFields[0]) && Given(body, RequiredBookFields[1])
        && Given(body, RequiredBookFields[2]) && Given(body, RequiredBookFields[3])
        && Given(body, RequiredBookFields[4]) && Given(body, RequiredBookFields[5])
        && Given(body, RequiredBookFields[6]) && Given(body, RequiredBookFields[7])
        && Given(body, RequiredBookFields[8]) && Given(body, RequiredBookFields[9]);
  }

  const DefaultImage: string := "/images/default-book.jpg"

  /** `Array.isArray(genre) ? genre : [genre]` */
  function Genre(v: Value): seq<Value> {
    if v.JArr? then v.elems else [v]
  }

  /** `rating` and `reviewCount` are stored as numbers: a value the client gives for
      them (one that is truthy) must be a JSON number. */
  predicate NumericCounters(body: Body) {
    && (Given(body, "rating") ==> body["rating"].JNum?)
    && (Given(body, "reviewCount") ==> body["reviewCount"].JNum?)
  }

  /** The counters need to be numbers only for a body that passes validation: a
      body with a missing field is rejected before any book is built. */
  predicate NumericCountersWhenComplete(body: Body) {
    MissingRequired(RequiredBookFields, body) == [] ==> NumericCounters(body)
  }

  /** `body[field] || 0` for a numeric field. */
  function NumberOrZero(body: Body, field: string): real
    requires Given(body, field) ==> body[field].JNum?
  {
    if Given(body, field) then body[field].n else 0.0
  }

  /** The new book: the body's fields, `price` and `pages` as the caller parsed
      them, and the defaults for the optional fields. */
  function NewBook(id: string, body: Body, price: Option<real>, pages: Option<int>): (b: Book)
    requires GivesAll(body, RequiredBookFields)
    requires NumericCounters(body)
    ensures b.id == id && b.price == price && b.pages == pages
    ensures "title" in body && b.title == body["title"]
    ensures "author" in body && b.author == body["author"]
    ensures "description" in body && b.description == body["description"]
    ensures "isbn" in body && b.isbn == body["isbn"]
    ensures "datePublished" in body && b.datePublished == body["datePublished"]
    ensures "language" in body && b.language == body["language"]
    ensures "publisher" in body && b.publisher == body["publisher"]
    ensures "genre" in body
    ensures body["genre"].JArr? ==> b.genre == body["genre"].elems
    ensures !body["genre"].JArr? ==> b.genre == [body["genre"]]
    ensures Given(body, "image") ==> b.image == body["image"]
    ensures !Given(body, "image") ==> b.image == JStr(DefaultImage)
    ensures Given(body, "tags") ==> b.tags == body["tags"]
    ensures !Given(body, "tags") ==> b.tags == JArr([])
    ensures Given(body, "rating") ==> b.rating == body["rating"].n
    ensures !Given(body, "rating") ==> b.rating == 0.0
    ensures Given(body, "reviewCount") ==> b.reviewCount == body["reviewCount"].n
    ensures !Given(body, "reviewCount") ==> b.reviewCount == 0.0
    ensures "inStock" in body ==> b.inStock == body["inStock"]
    ensures "inStock" !in body ==> b.inStock == JBool(true)
    ensures "featured" in body ==> b.featured == body["featured"]
    ensures "featured" !in body ==> b.featured == JBool(false)
  {
    BookFieldsPresent(body);
    Book(
      id := id,
      title := body["title"],
      author := body["author"],
      description := body["description"],
      price := price,
      image := OrElse(body, "image", JStr(DefaultImage)),
      isbn := body["isbn"],
      genre := Genre(body["genre"]),
      tags := OrElse(body, "tags", JArr([])),
      datePublished := body["datePublished"],
      pages := pages,
      language := body["language"],
      publisher := body["publisher"],
      rating := NumberOrZero(body, "rating"),
      reviewCount := NumberOrZero(body, "reviewCount"),
      inStock := DefinedOr(body, "inStock", JBool(true)),
      featured := DefinedOr(body, "featured", JBool(false)))
  }
}
