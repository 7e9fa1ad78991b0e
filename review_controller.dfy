/** The review handlers of controllers/reviewController.js: create (buyers
    only, one review per user and product), list the active reviews of a
    product, update (by the author or by an admin, unvalidated), and soft
    delete (by the author or by an admin). Errors thrown by the model are
    caught and answered with 500 and the error's message. */
module ReviewController {
  import opened Common
  import opened Collections
  import opened OrderModel
  import opened ReviewModel

  const MsgNotBuyer: string := "Vous ne pouvez pas laisser un avis avant d'avoir acheté ce produit"
  const MsgAlreadyReviewed: string := "Vous avez déjà laissé un avis pour ce produit"
  const MsgNoReviews: string := "No reviews found for this product"
  const MsgNotAuthor: string := "Vous ne pouvez pas modifier le commentaire d'un autre utilisateur."
  const MsgAdminNotFound: string := " view not found"
  const MsgNoDeleteAccess: string := "Pas accès pour supprimer la vue d'un autre utilisateur"
  const MsgAlreadyDeleted: string := "Déjà supprimée"
  const MsgAdminDeleteNotFound: string := "view not found "
  /** The message of the ValidationError Mongoose throws for the "View" model. */
  const MsgValidationFailed: string := "View validation failed"

  // ------------------------------------------------------------------ create

  /** The order query of `createreView`: an order of this user, in status
      paid, shipped or delivered, with a line for this product. */
  predicate Qualifies(o: Order, userId: Id, productId: Id) {
    && o.user == userId
    && (o.status == Paid || o.status == Shipped || o.status == Delivered)
    && exists k :: 0 <= k < |o.items| && o.items[k].product == productId
  }

  /** The duplicate query: any review of this user for this product, deleted
      or not. */
  predicate SamePair(r: Review, userId: Id, productId: Id) {
    r.userId == userId && r.productId == productId
  }

  function PlanCreateReview(orders: map<Id, Order>, orderBound: nat, reviews: map<Id, Review>, reviewBound: nat,
                            userId: Id, productId: Id, rating: Option<int>, comment: Option<string>): (r: Outcome<Review>)
    ensures r.Reply? ==> r.status == 201
  {
    if FindFirst(orders, orderBound, (o: Order) => Qualifies(o, userId, productId)).None? then Refuse(403, MsgNotBuyer)
    else if FindFirst(reviews, reviewBound, (v: Review) => SamePair(v, userId, productId)).Some? then
      Refuse(409, MsgAlreadyReviewed)
    else
      var built := BuildReview(rating, comment, productId, userId);
      if built.None? then Refuse(500, MsgValidationFailed) else Reply(201, built.value)
  }

  method CreateReview(orders: Collection<Order>, reviews: Collection<Review>,
                      userId: Id, productId: Id, rating: Option<int>, comment: Option<string>)
    returns (r: Outcome<Review>)
    requires reviews.Valid()
    modifies reviews
    ensures reviews.Valid()
    ensures r == PlanCreateReview(orders.docs, orders.nextId, old(reviews.docs), old(reviews.nextId),
                                  userId, productId, rating, comment)
    ensures r.Reply? ==> reviews.docs == old(reviews.docs)[old(reviews.nextId) := r.value]
    ensures !r.Reply? ==> reviews.docs == old(reviews.docs)
  {
    var order := FindFirst(orders.docs, orders.nextId, (o: Order) => Qualifies(o, userId, productId));
    if order.None? {
      return Refuse(403, MsgNotBuyer);
    }
    var existing := FindFirst(reviews.docs, reviews.nextId, (v: Review) => SamePair(v, userId, productId));
    if existing.Some? {
      return Refuse(409, MsgAlreadyReviewed);
    }
    var built := BuildReview(rating, comment, productId, userId);
    if built.None? {
      return Refuse(500, MsgValidationFailed);
    }
    var _ := reviews.Insert(built.value);
    r := Reply(201, built.value);
  }

  /** Conversely, a buyer who has not reviewed the product yet, with a body
      the model accepts, gets the built review: over a valid order collection
      the order query finds the qualifying order. */
  lemma BuyerFirstReviewCreated(orders: map<Id, Order>, orderBound: nat, reviews: map<Id, Review>, reviewBound: nat,
                                userId: Id, productId: Id, rating: Option<int>, comment: Option<string>, orderId: Id)
    requires forall k :: k in orders ==> k < orderBound
    requires orderId in orders && Qualifies(orders[orderId], userId, productId)
    requires forall k :: k in reviews ==> !SamePair(reviews[k], userId, productId)
    requires BuildReview(rating, comment, productId, userId).Some?
    ensures PlanCreateReview(orders, orderBound, reviews, reviewBound, userId, productId, rating, comment)
            == Reply(201, BuildReview(rating, comment, productId, userId).value)
  {
    FindFirstComplete(orders, orderBound, (o: Order) => Qualifies(o, userId, productId), orderId);
    FindFirstMisses(reviews, reviewBound, (v: Review) => SamePair(v, userId, productId));
  }

  /** A review is created only for a buyer: some order of the user, paid,
      shipped or delivered, holds the product. A pending or cancelled order
      does not qualify. */
  lemma CreatedOnlyForBuyers(orders: map<Id, Order>, orderBound: nat, reviews: map<Id, Review>, reviewBound: nat,
                             userId: Id, productId: Id, rating: Option<int>, comment: Option<string>)
    requires PlanCreateReview(orders, orderBound, reviews, reviewBound, userId, productId, rating, comment).Reply?
    ensures exists id :: id in orders && Qualifies(orders[id], userId, productId)
    ensures var v := PlanCreateReview(orders, orderBound, reviews, reviewBound, userId, productId, rating, comment).value;
      && v.userId == userId && v.productId == productId && Some(v.rating) == rating
      && SchemaValid(v) && Active(v)
  {
    var o := FindFirst(orders, orderBound, (o: Order) => Qualifies(o, userId, productId));
    assert o.value in orders && Qualifies(orders[o.value], userId, productId);
  }

  /** No two reviews share a (user, product) pair. */
  predicate OnePerPair(reviews: map<Id, Review>) {
    forall a, b :: a in reviews && b in reviews && a != b ==>
      reviews[a].userId != reviews[b].userId || reviews[a].productId != reviews[b].productId
  }

  /** Creating keeps at most one review per user and product: any earlier
      review of the pair, soft-deleted ones included, blocks the create with
      409. */
  lemma CreateKeepsOnePerPair(orders: map<Id, Order>, orderBound: nat, reviews: map<Id, Review>, reviewBound: nat,
                              userId: Id, productId: Id, rating: Option<int>, comment: Option<string>)
    requires OnePerPair(reviews) && reviewBound !in reviews
    requires forall id :: id in reviews ==> id < reviewBound
    requires PlanCreateReview(orders, orderBound, reviews, reviewBound, userId, productId, rating, comment).Reply?
    ensures OnePerPair(reviews[reviewBound := PlanCreateReview(orders, orderBound, reviews, reviewBound,
                                                                userId, productId, rating, comment).value])
  {
    var v := PlanCreateReview(orders, orderBound, reviews, reviewBound, userId, productId, rating, comment).value;
    var p := (x: Review) => SamePair(x, userId, productId);
    assert FindFirst(reviews, reviewBound, p).None?;
    forall id | id in reviews ensures !SamePair(reviews[id], userId, productId) {
      assert !p(reviews[id]);
    }
  }

  /** A user who already has a review of the product, even a soft-deleted
      one, gets 409 (once the purchase check passes). */
  lemma DeletedReviewStillBlocks(orders: map<Id, Order>, orderBound: nat, reviews: map<Id, Review>, reviewBound: nat,
                                 userId: Id, productId: Id, rating: Option<int>, comment: Option<string>, id: Id)
    requires forall k :: k in reviews ==> k < reviewBound
    requires id in reviews && SamePair(reviews[id], userId, productId) && reviews[id].deletedAt.Some?
    requires FindFirst(orders, orderBound, (o: Order) => Qualifies(o, userId, productId)).Some?
    ensures PlanCreateReview(orders, orderBound, reviews, reviewBound, userId, productId, rating, comment)
            == Refuse(409, MsgAlreadyReviewed)
  {
    FindFirstComplete(reviews, reviewBound, (v: Review) => SamePair(v, userId, productId), id);
  }

  // -------------------------------------------------------------------- list

  datatype ReviewList = ReviewList(data: seq<Review>, count: nat)

  /** `getAllreViews`: the product's reviews whose `deletedAt` is null, 404
      when there are none. */
  function GetAllReviews(reviews: map<Id, Review>, bound: nat, productId: Id): (r: Outcome<ReviewList>)
    ensures r.Reply? ==> r.status == 200 && r.value.count == |r.value.data| > 0
    ensures r.Reply? ==> forall i :: 0 <= i < |r.value.data| ==>
      r.value.data[i].productId == productId && Active(r.value.data[i])
    ensures r.Reply? ==> forall id ::
      id in reviews && id < bound && reviews[id].productId == productId && Active(reviews[id]) ==> reviews[id] in r.value.data
    ensures r.Reply? ==> var ids := IdsWhere(reviews, bound, (v: Review) => v.productId == productId && Active(v));
      |r.value.data| == |ids| && forall i :: 0 <= i < |ids| ==> r.value.data[i] == reviews[ids[i]]
    ensures !r.Reply? ==> r == Refuse(404, MsgNoReviews)
    ensures !r.Reply? ==> forall id :: id in reviews && id < bound ==> reviews[id].productId != productId || !Active(reviews[id])
  {
    var ids := IdsWhere(reviews, bound, (v: Review) => v.productId == productId && Active(v));
    var data := seq(|ids|, i requires 0 <= i < |ids| => reviews[ids[i]]);
    assert forall i :: 0 <= i < |ids| ==> data[i] == reviews[ids[i]];
    if |data| == 0 then Refuse(404, MsgNoReviews) else Reply(200, ReviewList(data, |data|))
  }

  // ------------------------------------------------------------------ update

  /** The update document `{comment, rating}`: a field the body leaves out is
      undefined and Mongoose drops it, so the stored value stays; a comment
      passes the `trim` setter. No validator runs. */
  function Patched(v: Review, rating: Option<int>, comment: Option<string>): (r: Review)
    ensures r.productId == v.productId && r.userId == v.userId && r.deletedAt == v.deletedAt
    ensures r.rating == rating.GetOr(v.rating)
    ensures r.comment == if comment.Some? then Trim(comment.value) else v.comment
  {
    v.(rating := rating.GetOr(v.rating), comment := if comment.Some? then Trim(comment.value) else v.comment)
  }

  /** `updateUsereView`: the filter is the review id, the requesting user and
      the product; no match (someone else's review, another product, an
      unknown id) is 403. A soft-deleted review can still be edited. */
  function PlanUpdateOwnReview(reviews: map<Id, Review>, id: Id, userId: Id, productId: Id,
                               rating: Option<int>, comment: Option<string>): (r: Outcome<Review>)
    ensures r.Reply? <==> id in reviews && SamePair(reviews[id], userId, productId)
    ensures r.Reply? ==> r == Reply(200, Patched(reviews[id], rating, comment))
    ensures !r.Reply? ==> r == Refuse(403, MsgNotAuthor)
  {
    if id in reviews && SamePair(reviews[id], userId, productId) then Reply(200, Patched(reviews[id], rating, comment))
    else Refuse(403, MsgNotAuthor)
  }

  method UpdateOwnReview(reviews: Collection<Review>, id: Id, userId: Id, productId: Id,
                         rating: Option<int>, comment: Option<string>) returns (r: Outcome<Review>)
    requires reviews.Valid()
    modifies reviews
    ensures reviews.Valid()
    ensures r == PlanUpdateOwnReview(old(reviews.docs), id, userId, productId, rating, comment)
    ensures r.Reply? ==> reviews.docs == old(reviews.docs)[id := r.value]
    ensures !r.Reply? ==> reviews.docs == old(reviews.docs)
  {
    if id !in reviews.docs || !SamePair(reviews.docs[id], userId, productId) {
      return Refuse(403, MsgNotAuthor);
    }
    var updated := Patched(reviews.docs[id], rating, comment);
    reviews.Replace(id, updated);
    r := Reply(200, updated);
  }

  /** `updatereViews` (admin): any review by id, 404 when unknown. */
  function PlanUpdateAnyReview(reviews: map<Id, Review>, id: Id, rating: Option<int>, comment: Option<string>): (r: Outcome<Review>)
    ensures r.Reply? <==> id in reviews
    ensures r.Reply? ==> r == Reply(200, Patched(reviews[id], rating, comment))
    ensures !r.Reply? ==> r == Refuse(404, MsgAdminNotFound)
  {
    if id in reviews then Reply(200, Patched(reviews[id], rating, comment)) else Refuse(404, MsgAdminNotFound)
  }

  method UpdateAnyReview(reviews: Collection<Review>, id: Id, rating: Option<int>, comment: Option<string>)
    returns (r: Outcome<Review>)
    requires reviews.Valid()
    modifies reviews
    ensures reviews.Valid()
    ensures r == PlanUpdateAnyReview(old(reviews.docs), id, rating, comment)
    ensures r.Reply? ==> reviews.docs == old(reviews.docs)[id := r.value]
    ensures !r.Reply? ==> reviews.docs == old(reviews.docs)
  {
    if id !in reviews.docs {
      return Refuse(404, MsgAdminNotFound);
    }
    var updated := Patched(reviews.docs[id], rating, comment);
    reviews.Replace(id, updated);
    r := Reply(200, updated);
  }

  /** Updates never move a review to another user or product, so they keep
      at most one review per pair. */
  lemma UpdatesKeepOnePerPair(reviews: map<Id, Review>, id: Id, rating: Option<int>, comment: Option<string>)
    requires OnePerPair(reviews) && id in reviews
    ensures OnePerPair(reviews[id := Patched(reviews[id], rating, comment)])
  {
    var after := reviews[id := Patched(reviews[id], rating, comment)];
    forall a, b | a in after && b in after && a != b
      ensures after[a].userId != after[b].userId || after[a].productId != after[b].productId
    {
      assert SamePair(after[a], reviews[a].userId, reviews[a].productId);
      assert SamePair(after[b], reviews[b].userId, reviews[b].productId);
    }
  }

  // ------------------------------------------------------------------ delete

  /** The soft delete shared by both delete handlers once the review is
      found: 400 when already deleted; otherwise `deletedAt` is set and the
      document saved, and saving validates the whole document, so a review an
      unvalidated update left out of range makes the delete fail with 500. */
  function SoftDelete(v: Review, now: Time): (r: Outcome<Review>)
    ensures r.Reply? <==> Active(v) && SchemaValid(v)
    ensures r.Reply? ==> r == Reply(200, v.(deletedAt := Some(now)))
    ensures v.deletedAt.Some? ==> r == Refuse(400, MsgAlreadyDeleted)
  {
    if v.deletedAt.Some? then Refuse(400, MsgAlreadyDeleted)
    else if !SchemaValid(v) then Refuse(500, MsgValidationFailed)
    else Reply(200, v.(deletedAt := Some(now)))
  }

  /** `deleteUsereView`: the review must be the user's own for this product,
      else 403. */
  function PlanDeleteOwnReview(reviews: map<Id, Review>, id: Id, userId: Id, productId: Id, now: Time): (r: Outcome<Review>)
    ensures !(id in reviews && SamePair(reviews[id], userId, productId)) ==> r == Refuse(403, MsgNoDeleteAccess)
    ensures id in reviews && SamePair(reviews[id], userId, productId) ==> r == SoftDelete(reviews[id], now)
  {
    if id in reviews && SamePair(reviews[id], userId, productId) then SoftDelete(reviews[id], now)
    else Refuse(403, MsgNoDeleteAccess)
  }

  method DeleteOwnReview(reviews: Collection<Review>, id: Id, userId: Id, productId: Id, now: Time)
    returns (r: Outcome<Review>)
    requires reviews.Valid()
    modifies reviews
    ensures reviews.Valid()
    ensures r == PlanDeleteOwnReview(old(reviews.docs), id, userId, productId, now)
    ensures r.Reply? ==> reviews.docs == old(reviews.docs)[id := r.value]
    ensures !r.Reply? ==> reviews.docs == old(reviews.docs)
  {
    if id !in reviews.docs || !SamePair(reviews.docs[id], userId, productId) {
      return Refuse(403, MsgNoDeleteAccess);
    }
    r := SoftDelete(reviews.docs[id], now);
    if r.Reply? {
      reviews.Replace(id, r.value);
    }
  }

  /** `deletereViews` (admin): any review by id, 404 when unknown. */
  function PlanDeleteAnyReview(reviews: map<Id, Review>, id: Id, now: Time): (r: Outcome<Review>)
    ensures id !in reviews ==> r == Refuse(404, MsgAdminDeleteNotFound)
    ensures id in reviews ==> r == SoftDelete(reviews[id], now)
  {
    if id in reviews then SoftDelete(reviews[id], now) else Refuse(404, MsgAdminDeleteNotFound)
  }

  method DeleteAnyReview(reviews: Collection<Review>, id: Id, now: Time) returns (r: Outcome<Review>)
    requires reviews.Valid()
    modifies reviews
    ensures reviews.Valid()
    ensures r == PlanDeleteAnyReview(old(reviews.docs), id, now)
    ensures r.Reply? ==> reviews.docs == old(reviews.docs)[id := r.value]
    ensures !r.Reply? ==> reviews.docs == old(reviews.docs)
  {
    if id !in reviews.docs {
      return Refuse(404, MsgAdminDeleteNotFound);
    }
    r := SoftDelete(reviews.docs[id], now);
    if r.Reply? {
      reviews.Replace(id, r.value);
    }
  }

  /** `deletedAt` is set once: a second delete of the same review, by its
      author or by an admin, is 400 and leaves the first timestamp, and the
      deleted review drops out of the product's list. */
  lemma DeleteIsOnce(reviews: map<Id, Review>, bound: nat, id: Id, userId: Id, productId: Id, t1: Time, t2: Time)
    requires PlanDeleteOwnReview(reviews, id, userId, productId, t1).Reply?
    ensures var after := reviews[id := PlanDeleteOwnReview(reviews, id, userId, productId, t1).value];
      && after[id].deletedAt == Some(t1)
      && PlanDeleteOwnReview(after, id, userId, productId, t2) == Refuse(400, MsgAlreadyDeleted)
      && PlanDeleteAnyReview(after, id, t2) == Refuse(400, MsgAlreadyDeleted)
      && (GetAllReviews(after, bound, productId).Reply? ==> after[id] !in GetAllReviews(after, bound, productId).value.data)
  {
  }

  /** The unvalidated update and the validating save interact: a rating of 9
      written by the author's update is stored, and the author's delete of
      that review then fails with 500 and writes nothing. */
  lemma OutOfRangeRatingBlocksDelete(v: Review, now: Time)
    requires SchemaValid(v) && Active(v)
    ensures var reviews := map[0 := v];
      var upd := PlanUpdateOwnReview(reviews, 0, v.userId, v.productId, Some(9), None);
      && upd == Reply(200, v.(rating := 9))
      && PlanDeleteOwnReview(reviews[0 := upd.value], 0, v.userId, v.productId, now) == Refuse(500, MsgValidationFailed)
  {
  }
}
