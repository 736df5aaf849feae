/** The record POST /api/reviews builds, and the rating check it makes first. */
module Reviews {
  import opened Wrappers
  import opened Json
  import opened Records
  import opened Validation

  /** The fields a new review must give, in the order they are reported. */
  const RequiredReviewFields: seq<string> := ["bookId", "author", "rating", "title", "comment"]

  /** A body that passed validation defines every required field. */
  lemma ReviewFieldsPresent(body: Body)
    requires GivesAll(body, RequiredReviewFields)
    ensures "bookId" in body && "author" in body && "rating" in body
    ensures "title" in body && "comment" in body
  {
    assert Given(body, RequiredReviewFields[0]) && Given(body, RequiredReviewFields[1])
        && Given(body, RequiredReviewFields[2]) && Given(body, RequiredReviewFields[3])
        && Given(body, RequiredReviewFields[4]);
  }

  /** `!isNaN(rating) && !(rating < 1) && !(rating > 5)` for the parsed rating
      (`None` is `NaN`): the closed interval from 1 to 5. */
  predicate ValidRating(rating: Option<real>) {
    rating.Some? && 1.0 <= rating.value <= 5.0
  }

  /** The closed interval: both 1 and 5 are accepted, and `NaN` never is. */
  lemma RatingBoundsInclusive()
    ensures ValidRating(Some(1.0)) && ValidRating(Some(5.0)) && !ValidRating(None)
    ensures forall x: real :: ValidRating(Some(x)) <==> 1.0 <= x <= 5.0
  {
  }

  /** The new review: the body's fields, the parsed rating, the creation time,
      and `verified` defaulting to `false` when the body leaves it undefined. */
  function NewReview(id: string, body: Body, rating: real, timestamp: string): (v: Review)
    requires GivesAll(body, RequiredReviewFields)
    ensures v.id == id && v.rating == rating && v.timestamp == timestamp
    ensures "bookId" in body && v.bookId == body["bookId"]
    ensures "author" in body && v.author == body["author"]
    ensures "title" in body && v.title == body["title"]
    ensures "comment" in body && v.comment == body["comment"]
    ensures "verified" in body ==> v.verified == body["verified"]
    ensures "verified" !in body ==> v.verified == JBool(false)
  {
    ReviewFieldsPresent(body);
    Review(
      id := id,
      bookId := body["bookId"],
      author := body["author"],
      rating := rating,
      title := body["title"],
      comment := body["comment"],
      timestamp := timestamp,
      verified := DefinedOr(body, "verified", JBool(false)))
  }
}
