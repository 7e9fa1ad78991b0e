/** The Review schema (models/review.js). */
module ReviewModel {
  import opened Common

  /** `comment` is required and trimmed, `rating` required within 1..5,
      `productId` and `userId` required; `deletedAt` defaults to null, and null
      means the review is active. */
  datatype Review = Review(
    comment: string,
    rating: int,
    productId: Id,
    userId: Id,
    deletedAt: Option<Time>)

  const RatingMin: int := 1
  const RatingMax: int := 5

  /** What `save()` and `create()` validate on a whole document. */
  predicate SchemaValid(r: Review) {
    r.comment != "" && RatingMin <= r.rating <= RatingMax
  }

  predicate Active(r: Review) {
    r.deletedAt.None?
  }

  /** `Review.create({rating, comment, productId, userId})`: the stored review,
      or None when a required field is missing or the schema rejects it. The
      comment is trimmed before `required` is checked, so a comment of blanks
      is refused. */
  function BuildReview(rating: Option<int>, comment: Option<string>, productId: Id, userId: Id): (r: Option<Review>)
    ensures r.Some? <==> rating.Some? && comment.Some? && Trim(comment.value) != "" && RatingMin <= rating.value <= RatingMax
    ensures r.Some? ==> SchemaValid(r.value) && Active(r.value) && Trimmed(r.value.comment)
    ensures r.Some? ==> r.value.productId == productId && r.value.userId == userId && r.value.rating == rating.value
  {
    if rating.Some? && comment.Some? && Trim(comment.value) != "" && RatingMin <= rating.value <= RatingMax then
      TrimIsTrimmed(comment.value);
      Some(Review(Trim(comment.value), rating.value, productId, userId, None))
    else None
  }
}
