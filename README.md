# Catalogue store of the bookstore service

A Dafny model of the route handlers of a small Next.js bookstore API. The books
and the reviews live in two JSON collections. The handlers list them, add to
them, and answer three queries over the books:

- `GET`/`POST /api/books` (list all books, add a book);
- `GET`/`POST /api/reviews` (list all reviews, add a review and count it on its book);
- `GET /api/books/featured`, `GET /api/books/date-range`, `GET /api/books/top-rated`.

The two collections are the fields of the class `Store.Store`. `AddBook` and
`AddReview` are methods that change those fields. Each is specified by a pure step
function (`Store.AddBookStep`, `Store.AddReviewStep`) from the old collections and
the request to the response and the new collections. The properties are lemmas
about the step functions. The queries are pure functions over the book list.

The JavaScript the handlers depend on is modelled as written:

- request bodies are maps from field names to JSON values with JavaScript
  truthiness (`!body[field]`, `x || default`, `x !== undefined ? x : d`);
- strict equality `===` (`book.id === bookId`, `featured === true`);
- `parseInt` with no radix (white space, sign, `0x` prefix, longest digit prefix);
- `Number.prototype.toString` on non-negative integers;
- `String.prototype.replace` with a string pattern, which replaces only the
  first occurrence;
- the `reduce` that finds the largest id, as a loop;
- the stable `Array.prototype.sort` followed by `slice(0, 10)`.

Modules, one per file: `Wrappers`/`Json` (json.dfy), `Seqs` (filter and
subsequences), `NumericText` (parseInt, toString, replace), `Records`, `Ids`
(id generation), `Validation`, `Books`, `Reviews`, `Store`, `Featured`,
`DateRange`, `TopRated`.

## Model

| member | source | states |
|---|---|---|
| Store.Store.ListBooks | app/api/books/route.ts:14-17 | the listing is the stored books, unchanged, and `total` is their number |
| Store.Store.ListReviews | app/api/reviews/route.ts:13-16 | the listing is the stored reviews, unchanged, and `total` is their number |
| Store.Store.AddBook | app/api/books/route.ts:33-78 | the response and the new collections are those of `AddBookStep` on the old collections |
| Store.Store.AddReview | app/api/reviews/route.ts:33-97 | the response and the new collections are those of `AddReviewStep` on the old collections; the two writes happen as one step |
| Store.AddBookStep | app/api/books/route.ts:33-78 | a rejected body reports missing fields and leaves the catalogue as it was; an accepted one appends the new book at the end of the books, under an id no existing book has, and leaves the reviews alone |
| Store.AddReviewStep | app/api/reviews/route.ts:33-97 | a rejected request leaves the catalogue as it was; an accepted one appends the new review at the end, under an id no existing review has, and keeps the number of books |
| Store.CountReview | app/api/reviews/route.ts:96 | only the counted book changes, and only its `reviewCount`, by exactly 1 |
| Books.NewBook | app/api/books/route.ts:57-75 | the book has the given id, the parsed price and pages, the body's fields verbatim, `genre` kept when an array and wrapped otherwise, and each default exactly when the source applies it (`||` for falsy, `!== undefined` for undefined) |
| Reviews.NewReview | app/api/reviews/route.ts:77-86 | the review has the given id, the parsed rating, the timestamp, the body's fields verbatim, and `verified` false only when undefined |
| Reviews.RatingBoundsInclusive | app/api/reviews/route.ts:44-45 | a rating passes exactly when it parses and lies in the closed interval [1, 5]; 1 and 5 both pass and `NaN` does not |
| Validation.MissingRequired | app/api/books/route.ts:35 | every field reported is a required field that the body leaves undefined or falsy (the converse and the order are in the lemmas below) |
| Store.AddBookRejects | app/api/books/route.ts:34-42 | the request fails exactly when some required field is absent or falsy; the error lists exactly those fields, in the order of the required list, and the collections are unchanged |
| Store.AddBookAppends | app/api/books/route.ts:50-78 | on success the books become the old books plus the new book at the end, the reviews are unchanged, and the new id is the next book id, which no existing book has |
| Store.AddBookRecord | app/api/books/route.ts:57-75 | the new book copies the body's fields verbatim, keeps an array `genre` and wraps any other value, takes the placeholder image and `[]` tags for falsy values, 0 for a falsy rating or review count, and `inStock` true / `featured` false only when undefined |
| Store.AddBookThenFind | app/api/books/route.ts:50-78 | unique book ids stay unique, and a lookup by the new id finds the new book at the end |
| Store.AddBookHasNoReviews | app/api/books/route.ts:78 | every review still names an existing book, and the new book has no reviews |
| Store.AddReviewRejects | app/api/reviews/route.ts:33-63 | the checks come in order: missing fields (all of them, in list order), then a rating that is NaN or outside [1, 5], then no book whose id is strictly equal to `bookId`; each check fails exactly under its condition and leaves both collections unchanged |
| Store.MissingReviewFields | app/api/reviews/route.ts:33-41 | the missing-fields error occurs exactly when a required field is absent or falsy, and lists exactly those fields in list order |
| Store.LaterReviewChecks | app/api/reviews/route.ts:43-63 | the rating error occurs exactly when all fields are given and the rating is invalid, and the not-found error exactly when the rating is valid too and no book's id is strictly equal to `bookId` |
| Store.AddReviewAppends | app/api/reviews/route.ts:70-89 | on success the reviews become the old reviews plus the new review at the end, under the next review id, which no existing review has; the review holds the body's fields, the parsed rating (in [1, 5]) and the timestamp, and `verified` is false only when undefined |
| Store.AddReviewShape | app/api/reviews/route.ts:57-96 | on success the body named an existing book, the review names it too, and the new collections are the counted books and the extended reviews; on failure nothing changes |
| Store.AddReviewCountsOnTarget | app/api/reviews/route.ts:57-96 | on success only the first book whose id equals the review's `bookId` changes, and only its `reviewCount`, by exactly 1 |
| Store.AddReviewKeepsInvariants | app/api/reviews/route.ts:57-97 | unique book ids, unique review ids and "every review names a book" are preserved |
| Store.AddReviewKeepsBalance | app/api/reviews/route.ts:89-96 | with unique book ids, every book's `reviewCount` minus its number of reviews is unchanged |
| Store.FindAfterAppend | app/api/reviews/route.ts:57 | a book appended under an unused id is found at the end |
| Store.FindInPrefix | app/api/reviews/route.ts:57 | appending a book does not change any lookup that already succeeded |
| Store.FindAfterCount | app/api/reviews/route.ts:57-96 | counting a review changes no lookup |
| Store.AppendFreshReview | app/api/reviews/route.ts:74-89 | appending a review under an unused id keeps the review ids unique |
| Records.FindBook | app/api/reviews/route.ts:57 | `find` with `===`: the result is the first position whose id is strictly equal to `bookId`, and `None` means no book has that id |
| Records.StatusCode | app/api/reviews/route.ts:46-62 | a missing book is answered with 404 and every other input error with 400 |
| Validation.MissingFieldsExact | app/api/books/route.ts:35 | a required field is reported exactly when the body leaves it undefined or falsy, and only required fields are reported |
| Validation.MissingFieldsInOrder | app/api/reviews/route.ts:34 | the reported fields keep the order of the required list |
| Validation.NoneMissing | app/api/books/route.ts:35-37 | nothing is reported exactly when every required field is given |
| Ids.MaxId | app/api/books/route.ts:50-53 | the `reduce` result is at least 0 and at least every id that parses |
| Ids.MaxIdAttained | app/api/reviews/route.ts:70-73 | the `reduce` result is 0 or one of the parsed ids |
| Ids.MaxStep | app/api/books/route.ts:51-52 | one step keeps the larger of the maximum so far and the parsed id, and an id that is `NaN` leaves the maximum unchanged |
| Ids.NextBookId | app/api/books/route.ts:54 | `(maxId + 1).toString()`; that it reads back and is unused is stated by `NextBookIdUnused` and `ParseIntOfNatToString` |
| Ids.NextReviewId | app/api/reviews/route.ts:74 | `` `review-${maxId + 1}` ``; that it is unused is stated by `NextReviewIdUnused` and `ReviewIdNumberRoundTrip` |
| Ids.MaxIdStep | app/api/books/route.ts:52 | one more id is one more step `id > max ? id : max`, with NaN leaving the maximum as it was |
| Ids.LargestId | app/api/reviews/route.ts:70-73 | the accumulator loop computes the `reduce` |
| Ids.GenerateBookId | app/api/books/route.ts:50-54 | the new book id is the numeral of the largest parsed id plus one, and no existing book has it |
| Ids.GenerateReviewId | app/api/reviews/route.ts:70-74 | the new review id is `review-` and the largest parsed suffix plus one, and no existing review has it |
| Ids.ReviewIdNumberRoundTrip | app/api/reviews/route.ts:71-74 | the suffix of a generated review id parses back to its number |
| Ids.BookIdsBelowMax | app/api/books/route.ts:50-53 | every numeric book id is at most the `reduce` result |
| Ids.ReviewIdsBelowMax | app/api/reviews/route.ts:70-73 | every numeric review suffix is at most the `reduce` result |
| Ids.FreshBookNumeral | app/api/books/route.ts:54 | the numeral of a number above every numeric book id is no book's id |
| Ids.FreshReviewNumber | app/api/reviews/route.ts:74 | the review id numbered above every numeric suffix is no review's id |
| Ids.NextBookIdUnused | app/api/books/route.ts:50-54 | no existing book has the next book id |
| Ids.NextReviewIdUnused | app/api/reviews/route.ts:70-74 | no existing review has the next review id |
| Ids.FirstIds | app/api/books/route.ts:50-54 | an empty collection gives the book id `"1"` and the review id `"review-1"` |
| NumericText.TrimStart | app/api/books/route.ts:51 | `parseInt` first drops the leading white space: every character dropped is white space, the rest is a suffix of the input, and it does not start with white space |
| NumericText.DigitPrefix | app/api/books/route.ts:51 | `parseInt` reads the longest prefix of digits: every character is a digit and the next one is not |
| NumericText.NatToString | app/api/books/route.ts:54 | `toString` writes at least one decimal digit and no leading zero |
| NumericText.NatToStringValue | app/api/books/route.ts:54 | the digits `toString` writes have the value of the number |
| NumericText.ParseIntOfDecimal | app/api/books/route.ts:51 | `parseInt` of any decimal numeral, leading zeros included, is its value |
| NumericText.ParseIntOfNatToString | app/api/books/route.ts:51-54 | `parseInt` reads back what `toString` wrote |
| NumericText.ParseInt | app/api/books/route.ts:51 | `parseInt` with no radix: drop leading white space (`TrimStart`), read an optional sign, choose radix 16 after `0x`/`0X` and 10 otherwise, and read the longest digit prefix (`DigitPrefix`); no digit gives `NaN`; its values on numerals are stated by `ParseIntOfDecimal` |
| NumericText.ReplaceFirst | app/api/reviews/route.ts:71 | `replace` with a string pattern replaces only the first occurrence found by `IndexFrom` and returns the text unchanged when there is none; `ReplaceFirstOfPrefixed` states its effect on generated ids |
| NumericText.IndexFrom | app/api/reviews/route.ts:71 | the position found is the first occurrence of the pattern at or after the start, and `None` means there is none |
| NumericText.ReplaceFirstOfPrefixed | app/api/reviews/route.ts:71 | `replace('review-', '')` on a generated id removes the prefix |
| Featured.FeaturedBooks | app/api/books/featured/route.ts:14-19 | a book is listed exactly when its `featured` is the boolean `true`; listed books come from the input; `total` is the number listed |
| Featured.FeaturedInOrder | app/api/books/featured/route.ts:14 | the listing is the subsequence of the books, unmodified and in order, at exactly the positions whose `featured` is `true` |
| Featured.FeaturedIdempotent | app/api/books/featured/route.ts:14 | filtering the featured books again gives the same listing |
| DateRange.BooksInDateRange | app/api/books/date-range/route.ts:13-57 | missing or empty parameter, then an invalid date, then start after end, each exactly under its condition and in that order, and no other error; otherwise the books listed are exactly those whose date parses and lies in [start, end], and `total` is their number |
| DateRange.DateRangeSelects | app/api/books/date-range/route.ts:50-53 | for valid bounds, including `start == end`, the listing is the subsequence of the books at exactly the positions whose date parses and lies within both bounds |
| TopRated.Rank | app/api/books/top-rated/route.ts:14-17 | each entry is its book, unchanged, with `weightedRating = rating × reviewCount` |
| TopRated.Insert | app/api/books/top-rated/route.ts:21 | inserting adds exactly the new entry |
| TopRated.SortByWeight | app/api/books/top-rated/route.ts:21 | the sort is a permutation of its input |
| TopRated.InsertSorted | app/api/books/top-rated/route.ts:21 | insertion keeps the list sorted highest first |
| TopRated.InsertTies | app/api/books/top-rated/route.ts:21 | insertion places the new entry after all of its ties |
| TopRated.SortIsStable | app/api/books/top-rated/route.ts:21 | the sort orders by weighted rating, highest first, keeps ties in input order, and is a permutation |
| TopRated.StableSortUnique | app/api/books/top-rated/route.ts:21 | two lists sorted highest first with the same ties in the same order are equal |
| TopRated.TopRatedBooks | app/api/books/top-rated/route.ts:14-27 | the result has min(10, number of books) entries, each a weighted book of the input, sorted highest first, and `total` is their number |
| TopRated.TopRatedIsTopK | app/api/books/top-rated/route.ts:20-22 | the result is the first ten of the stable sort, and every entry left out weighs no more than any entry returned |
| TopRated.AnyStableSortAgrees | app/api/books/top-rated/route.ts:20-22 | any stable highest-first sort of the weighted books gives the same ten |

## Left out

- Reading and writing `books.json` and `reviews.json`: the collections are the fields of `Store.Store`, and a write is an assignment to a field.
- `JSON.parse`, `JSON.stringify` and the document layout on disk.
- HTTP: request objects, reading the query string and the body, response objects and message texts. Only the status of each input error is modelled (`Records.StatusCode`).
- The 500 responses and the logging when something throws.
- `parseFloat` of `price` and `rating`, `parseInt` of `pages`, and `new Date(...)` are parameters of the operations. `None` stands for `NaN`.
- `new Date().toISOString()` is the `timestamp` parameter of `AddReview`.
- JavaScript numbers are unbounded integers and reals: no rounding, no `parseInt` precision loss above 2^53, and no exponent form in `toString`.
- Two POSTs running at the same time, which can read the same largest id. AddReview's two file writes are modelled as one step, so a failure between them is not modelled.
- Request bodies that are not JSON objects.
- Store.AddBookStep: for a body that passes validation, requires a truthy `rating` or `reviewCount` to be a JSON number, because a book's counters are numbers here; the source would store any truthy value as given. Rejected bodies are covered whatever their counters.
- Store.Store.AddBook: the same requirement as `Store.AddBookStep`, for the same reason.
- Books.NewBook: requires truthy counters to be JSON numbers, for the same reason.
- Store.AddBookRejects: the same requirement as `Store.AddBookStep`; it constrains only bodies that pass validation.
- Store.AddBookAppends: the same requirement as `Store.AddBookStep`.
- Store.AddBookRecord: the same requirement as `Store.AddBookStep`.
- Store.AddBookThenFind: the same requirement as `Store.AddBookStep`.
- Store.AddBookHasNoReviews: the same requirement as `Store.AddBookStep`.
- The top-rated listing is a function over the books, so not changing the stored collection holds by construction and is not stated separately.
- The routes for one book (`/api/books/[id]`) and for one book's reviews are not part of this model.
