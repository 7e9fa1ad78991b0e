/** `createreViewSchema` (validators/reviewValidation.js), as the list of
    errors yup collects for a review body. An absent field is reported only by
    `required`; a present one by each failing rule in declaration order. */
module ReviewValidation {
  import opened Common
  import opened ReviewModel

  datatype ReviewBody = ReviewBody(comment: Option<string>, rating: Option<real>)

  const MsgCommentMin: string := "Comment must be at least 3 characters long"
  const MsgCommentRequired: string := "Comment is required"
  const MsgRatingInteger: string := "Rating must be an integer"
  const MsgRatingMin: string := "Rating must be at least 1"
  const MsgRatingMax: string := "Rating cannot exceed 5"
  const MsgRatingRequired: string := "Rating is required"

  const CommentMinLength: nat := 3

  predicate IsWhole(x: real) {
    x.Floor as real == x
  }

  /** Reference reading of the schema: a comment of at least 3 characters
      (blanks included, as yup does not trim) and an integer rating in 1..5. */
  predicate BodyValid(b: ReviewBody) {
    && b.comment.Some? && |b.comment.value| >= CommentMinLength
    && b.rating.Some? && IsWhole(b.rating.value)
    && RatingMin as real <= b.rating.value <= RatingMax as real
  }

  function CommentErrors(c: Option<string>): seq<string> {
    match c
    case None => [MsgCommentRequired]
    case Some(s) =>
      (if |s| < CommentMinLength then [MsgCommentMin] else [])
      + (if s == "" then [MsgCommentRequired] else [])
  }

  function RatingErrors(r: Option<real>): seq<string> {
    match r
    case None => [MsgRatingRequired]
    case Some(x) =>
      (if IsWhole(x) then [] else [MsgRatingInteger])
      + (if x < RatingMin as real then [MsgRatingMin] else [])
      + (if x > RatingMax as real then [MsgRatingMax] else [])
  }

  function BodyErrors(b: ReviewBody): (errs: seq<string>)
    ensures errs == [] <==> BodyValid(b)
    ensures b.comment.None? ==> MsgCommentRequired in errs
    ensures b.rating.None? ==> MsgRatingRequired in errs
  {
    CommentErrors(b.comment) + RatingErrors(b.rating)
  }

  /** A body the schema accepts carries an integer rating the Review schema
      accepts too; its comment is stored once trimmed, and the document is
      built exactly when something other than blanks remains. */
  lemma ValidBodyBuildsUnlessBlank(b: ReviewBody, productId: Id, userId: Id)
    requires BodyErrors(b) == []
    ensures RatingMin <= b.rating.value.Floor <= RatingMax
    ensures b.rating.value.Floor as real == b.rating.value
    ensures BuildReview(Some(b.rating.value.Floor), b.comment, productId, userId).Some? <==> Trim(b.comment.value) != ""
  {
  }

  /** yup does not trim: a comment of three blanks passes the schema, but the
      model's `trim` setter empties it and `required` then refuses it. */
  lemma BlankCommentPassesSchemaOnly(productId: Id, userId: Id)
    ensures BodyErrors(ReviewBody(Some("   "), Some(4.0))) == []
    ensures BuildReview(Some(4), Some("   "), productId, userId).None?
  {
    var s := "   ";
    assert TrimStart(s[2..]) == [];
    assert TrimStart(s[1..]) == [];
    assert TrimStart(s) == [];
  }
}
