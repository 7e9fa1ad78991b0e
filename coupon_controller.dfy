/** controllers/CouponController.js: create, read, update and delete over the
    coupon collection. The collection carries a unique index on `code`, so a
    write that would duplicate a code fails with the driver's duplicate-key
    error, which the handlers' `catch` turns into a 400. */
module CouponController {
  import opened Common
  import opened Collections
  import opened CouponModel
  import opened CouponValidation

  const MsgPercentageOver: string := "Invalid discount value, must be below 100%"
  const MsgCouponNotFound: string := "Coupon not found"
  /** The status of the handler's own percentage guard (400). */
  const GuardStatus: nat := 400

  /** The message of the duplicate-key error on the `code` index. */
  function DuplicateCodeMessage(code: string): string {
    "E11000 duplicate key error collection: coupons index: code_1 dup key: { code: \"" + code + "\" }"
  }

  /** Some coupon other than `except` already holds `code`. */
  predicate CodeTaken(coupons: map<Id, Coupon>, code: string, except: Option<Id>) {
    exists id :: id in coupons && Some(id) != except && coupons[id].code == code
  }

  /** What the unique index and the schema guarantee of the whole collection:
      no two coupons share a code, and every coupon is schema-valid. */
  predicate StoreInvariant(coupons: map<Id, Coupon>) {
    && (forall a, b :: a in coupons && b in coupons && a != b ==> coupons[a].code != coupons[b].code)
    && (forall id :: id in coupons ==> CouponModel.SchemaValid(coupons[id]))
  }

  /** The document `Coupon.create` stores for a validated body. */
  function CreatedFrom(b: CouponBody): (c: Coupon)
    requires b.code.Some? && b.discount.Some? && b.expirationDate.Some? && b.categories.Some?
    requires b.seller.Some? && b.usesLeft.Some?
    ensures c.code == StoredCode(b.code.value) && !c.isDeleted && c.deletedAt.None?
  {
    NewCoupon(b.code.value, KindOf(b.kind), b.discount.value, b.expirationDate.value, b.productId,
              b.categories.value, b.seller.value, b.usesLeft.value.Floor)
  }

  /** `createCoupon`: validation (all errors joined by ", "), the percentage
      guard, then the insert, which fails on a duplicate code. */
  function PlanCreateCoupon(coupons: map<Id, Coupon>, b: CouponBody, loadTime: Time): (r: Outcome<Coupon>)
    ensures r.Refuse? ==> r.status == 400
    ensures r.Reply? ==> r.status == 201
  {
    var errs := CreateErrors(b, loadTime);
    if errs != [] then Refuse(400, Join(errs, ", "))
    else if b.kind == Some("percentage") && b.discount.value > 100.0 then Refuse(GuardStatus, MsgPercentageOver)
    else if CodeTaken(coupons, StoredCode(b.code.value), None) then
      Refuse(400, DuplicateCodeMessage(StoredCode(b.code.value)))
    else Reply(201, CreatedFrom(b))
  }

  method CreateCoupon(coupons: Collection<Coupon>, b: CouponBody, loadTime: Time) returns (r: Outcome<Coupon>)
    requires coupons.Valid()
    modifies coupons
    ensures coupons.Valid()
    ensures r == PlanCreateCoupon(old(coupons.docs), b, loadTime)
    ensures r.Reply? ==> old(coupons.nextId) !in old(coupons.docs)
    ensures r.Reply? ==> coupons.docs == old(coupons.docs)[old(coupons.nextId) := r.value]
    ensures !r.Reply? ==> coupons.docs == old(coupons.docs)
  {
    r := PlanCreateCoupon(coupons.docs, b, loadTime);
    if r.Reply? {
      var _ := coupons.Insert(r.value);
    }
  }

  /** A created coupon passed the whole create schema; it is stored under its
      code as sent, with a code no other coupon holds, as a schema-valid,
      non-deleted coupon whose `usesLeft` is the integer sent. */
  lemma CreatedCouponIsValid(coupons: map<Id, Coupon>, b: CouponBody, loadTime: Time)
    requires PlanCreateCoupon(coupons, b, loadTime).Reply?
    ensures CreateValid(b, loadTime)
    ensures var c := PlanCreateCoupon(coupons, b, loadTime).value;
      && c.code == b.code.value && !CodeTaken(coupons, c.code, None)
      && CouponModel.SchemaValid(c) && !c.isDeleted
      && c.usesLeft as real == b.usesLeft.value && c.usesLeft >= 1
      && c.discount == b.discount.value && c.productId == b.productId
      && (c.kind == Fixed <==> b.kind == Some("fixed"))
  {
    PatternCodeIsStoredForm(b.code.value);
  }

  /** A body the create schema accepts, whose code no stored coupon holds,
      is created as `CreatedFrom(b)`: the handler refuses nothing else. */
  lemma ValidNewCouponCreated(coupons: map<Id, Coupon>, b: CouponBody, loadTime: Time)
    requires CreateValid(b, loadTime)
    requires !CodeTaken(coupons, StoredCode(b.code.value), None)
    ensures PlanCreateCoupon(coupons, b, loadTime) == Reply(201, CreatedFrom(b))
  {
  }

  /** The percentage guard of `createCoupon` never fires: a percentage body
      with a discount above 100 is already refused by the schema, whose errors
      include "Percentage discount cannot exceed 100". */
  lemma PercentageGuardUnreachable(coupons: map<Id, Coupon>, b: CouponBody, loadTime: Time)
    requires b.kind == Some("percentage") && b.discount.Some? && b.discount.value > 100.0
    ensures MsgPercentageMax in CreateErrors(b, loadTime)
    ensures PlanCreateCoupon(coupons, b, loadTime) == Refuse(400, Join(CreateErrors(b, loadTime), ", "))
  {
    assert MsgPercentageMax in DiscountRules(b.discount.value, b.kind);
  }

  /** A create that succeeds keeps the collection's invariant: codes stay
      unique and every coupon stays schema-valid. */
  lemma CreateKeepsStoreInvariant(coupons: map<Id, Coupon>, b: CouponBody, loadTime: Time, newId: Id)
    requires StoreInvariant(coupons) && newId !in coupons
    requires PlanCreateCoupon(coupons, b, loadTime).Reply?
    ensures StoreInvariant(coupons[newId := PlanCreateCoupon(coupons, b, loadTime).value])
  {
    CreatedCouponIsValid(coupons, b, loadTime);
    StoreWithNewCode(coupons, newId, PlanCreateCoupon(coupons, b, loadTime).value);
  }

  /** Storing a schema-valid coupon under an id no other coupon's code clashes
      with keeps the invariant. */
  lemma StoreWithNewCode(coupons: map<Id, Coupon>, id: Id, c: Coupon)
    requires StoreInvariant(coupons) && CouponModel.SchemaValid(c) && !CodeTaken(coupons, c.code, Some(id))
    ensures StoreInvariant(coupons[id := c])
  {
    var after := coupons[id := c];
    forall x, y | x in after && y in after && x != y ensures after[x].code != after[y].code {
      if x == id {
        assert !(y in coupons && Some(y) != Some(id) && coupons[y].code == c.code);
      } else if y == id {
        assert !(x in coupons && Some(x) != Some(id) && coupons[x].code == c.code);
      }
    }
  }

  /** `getCouponById`. */
  function GetCouponById(coupons: map<Id, Coupon>, id: Id): (r: Outcome<Coupon>)
    ensures r.Reply? <==> id in coupons
    ensures r.Reply? ==> r == Reply(200, coupons[id])
    ensures !r.Reply? ==> r == Refuse(404, MsgCouponNotFound)
  {
    if id in coupons then Reply(200, coupons[id]) else Refuse(404, MsgCouponNotFound)
  }

  /** `getAllCoupons`: `Coupon.find()` with no filter, so soft-deleted coupons
      are listed too. */
  function GetAllCoupons(coupons: map<Id, Coupon>, bound: nat): (r: seq<Coupon>)
    ensures forall id :: id in coupons && id < bound ==> coupons[id] in r
    ensures forall i :: 0 <= i < |r| ==> r[i] in coupons.Values
    ensures var ids := IdsWhere(coupons, bound, (c: Coupon) => true);
      |r| == |ids| && forall i :: 0 <= i < |ids| ==> r[i] == coupons[ids[i]]
  {
    var ids := IdsWhere(coupons, bound, (c: Coupon) => true);
    var r := seq(|ids|, i requires 0 <= i < |ids| => coupons[ids[i]]);
    assert forall id :: id in coupons && id < bound ==> id in ids;
    assert forall i :: 0 <= i < |ids| ==> ids[i] in coupons && r[i] == coupons[ids[i]];
    r
  }

  /** `findByIdAndUpdate(id, req.body)`: every schema field the body names,
      passed through the schema's setters (`trim` and `uppercase` on `code`),
      the deletion fields included; fields the body leaves out are kept. */
  function Patched(c: Coupon, b: CouponBody): (r: Coupon)
    ensures b.code.None? ==> r.code == c.code
    ensures b.code.Some? ==> r.code == StoredCode(b.code.value)
    ensures b.kind.None? ==> r.kind == c.kind
    ensures b.kind.Some? ==> r.kind == KindOf(b.kind)
    ensures b.discount.None? ==> r.discount == c.discount
    ensures b.discount.Some? ==> r.discount == b.discount.value
    ensures b.expirationDate.None? ==> r.expirationDate == c.expirationDate
    ensures b.expirationDate.Some? ==> r.expirationDate == b.expirationDate.value
    ensures b.productId.None? ==> r.productId == c.productId
    ensures b.productId.Some? ==> r.productId == b.productId
    ensures b.categories.None? ==> r.categories == c.categories
    ensures b.categories.Some? ==> r.categories == b.categories.value
    ensures b.seller.None? ==> r.seller == c.seller
    ensures b.seller.Some? ==> r.seller == b.seller.value
    ensures b.usesLeft.None? ==> r.usesLeft == c.usesLeft
    ensures b.usesLeft.Some? ==> r.usesLeft == b.usesLeft.value.Floor
    ensures b.isDeleted.None? ==> r.isDeleted == c.isDeleted
    ensures b.isDeleted.Some? ==> r.isDeleted == b.isDeleted.value
    ensures b.deletedAt.None? ==> r.deletedAt == c.deletedAt
    ensures b.deletedAt.Some? ==> r.deletedAt == b.deletedAt.value
  {
    c.(code := if b.code.Some? then StoredCode(b.code.value) else c.code,
       kind := if b.kind.Some? then KindOf(b.kind) else c.kind,
       discount := b.discount.GetOr(c.discount),
       expirationDate := b.expirationDate.GetOr(c.expirationDate),
       productId := if b.productId.Some? then b.productId else c.productId,
       categories := b.categories.GetOr(c.categories),
       seller := b.seller.GetOr(c.seller),
       usesLeft := if b.usesLeft.Some? then b.usesLeft.value.Floor else c.usesLeft,
       isDeleted := b.isDeleted.GetOr(c.isDeleted),
       deletedAt := b.deletedAt.GetOr(c.deletedAt))
  }

  /** `updateCoupon`: the update schema first; then `findByIdAndUpdate` with
      the body, which yields no document for an unknown id and fails on a code
      another coupon holds. Schema validators are not run on the update. */
  function PlanUpdateCoupon(coupons: map<Id, Coupon>, id: Id, b: CouponBody, loadTime: Time): (r: Outcome<Coupon>)
    ensures r.Reply? ==> id in coupons && r == Reply(200, Patched(coupons[id], b))
    ensures !UpdateValid(b, loadTime) ==> r == Refuse(400, Join(UpdateErrors(b, loadTime), ", "))
    ensures UpdateValid(b, loadTime) && id !in coupons ==> r == Refuse(404, MsgCouponNotFound)
  {
    var errs := UpdateErrors(b, loadTime);
    if errs != [] then Refuse(400, Join(errs, ", "))
    else if id !in coupons then Refuse(404, MsgCouponNotFound)
    else if b.code.Some? && CodeTaken(coupons, StoredCode(b.code.value), Some(id)) then
      Refuse(400, DuplicateCodeMessage(StoredCode(b.code.value)))
    else Reply(200, Patched(coupons[id], b))
  }

  method UpdateCoupon(coupons: Collection<Coupon>, id: Id, b: CouponBody, loadTime: Time) returns (r: Outcome<Coupon>)
    requires coupons.Valid()
    modifies coupons
    ensures coupons.Valid()
    ensures r == PlanUpdateCoupon(old(coupons.docs), id, b, loadTime)
    ensures r.Reply? ==> coupons.docs == old(coupons.docs)[id := r.value]
    ensures !r.Reply? ==> coupons.docs == old(coupons.docs)
  {
    r := PlanUpdateCoupon(coupons.docs, id, b, loadTime);
    if r.Reply? {
      coupons.Replace(id, r.value);
    }
  }

  /** A body the update schema accepts, for a stored coupon, whose code (if
      any) no other coupon holds, is applied: the answer is the patched
      coupon. */
  lemma ValidUpdateApplied(coupons: map<Id, Coupon>, id: Id, b: CouponBody, loadTime: Time)
    requires UpdateValid(b, loadTime) && id in coupons
    requires b.code.Some? ==> !CodeTaken(coupons, StoredCode(b.code.value), Some(id))
    ensures PlanUpdateCoupon(coupons, id, b, loadTime) == Reply(200, Patched(coupons[id], b))
  {
  }

  /** An update that succeeds keeps the collection's invariant: the update
      schema bounds what may be written (a pattern code, a discount of at
      least 1, a non-negative integer `usesLeft`) and the index keeps codes
      unique. */
  lemma UpdateKeepsStoreInvariant(coupons: map<Id, Coupon>, id: Id, b: CouponBody, loadTime: Time)
    requires StoreInvariant(coupons)
    requires PlanUpdateCoupon(coupons, id, b, loadTime).Reply?
    ensures StoreInvariant(coupons[id := PlanUpdateCoupon(coupons, id, b, loadTime).value])
  {
    var c := PlanUpdateCoupon(coupons, id, b, loadTime).value;
    if b.code.Some? {
      PatternCodeIsStoredForm(b.code.value);
    } else {
      assert c.code == coupons[id].code;
    }
    assert CouponModel.SchemaValid(coupons[id]);
    StoreWithNewCode(coupons, id, c);
  }

  /** The update schema bounds a percentage discount only when the body
      itself says `type: "percentage"`: an update of a stored percentage
      coupon to a discount of 150 that leaves `type` out is accepted and
      stored. */
  lemma UpdateEscapesPercentageBound(c: Coupon, loadTime: Time)
    requires c.kind == Percentage
    ensures var b := CouponBody(None, None, Some(150.0), None, None, None, None, None, None, None);
      var r := PlanUpdateCoupon(map[0 := c], 0, b, loadTime);
      r.Reply? && r.value.kind == Percentage && r.value.discount == 150.0
  {
  }

  /** `deleteCoupon`: `findByIdAndDelete`, a hard delete; it answers like
      `getCouponById` with the document it removed. */
  method DeleteCoupon(coupons: Collection<Coupon>, id: Id) returns (r: Outcome<Coupon>)
    requires coupons.Valid()
    modifies coupons
    ensures coupons.Valid()
    ensures r == GetCouponById(old(coupons.docs), id)
    ensures coupons.docs == old(coupons.docs) - {id}
  {
    r := GetCouponById(coupons.docs, id);
    if r.Reply? {
      coupons.Remove(id);
    }
  }

  /** A deleted coupon is gone, not flagged: afterwards it is not found by id
      (so a second delete answers 404), every other coupon is found as
      before, and the coupon store keeps its invariant. */
  lemma DeleteIsHard(coupons: map<Id, Coupon>, id: Id)
    requires StoreInvariant(coupons)
    ensures GetCouponById(coupons - {id}, id) == Refuse(404, MsgCouponNotFound)
    ensures forall k :: k != id ==> GetCouponById(coupons - {id}, k) == GetCouponById(coupons, k)
    ensures StoreInvariant(coupons - {id})
  {
  }

  /** A coupon flagged `isDeleted` but still stored is listed by
      `getAllCoupons` and found by id, though the checkout ignores it. */
  lemma SoftDeletedStillListed(coupons: map<Id, Coupon>, bound: nat, id: Id)
    requires id in coupons && id < bound && coupons[id].isDeleted
    ensures coupons[id] in GetAllCoupons(coupons, bound)
    ensures GetCouponById(coupons, id) == Reply(200, coupons[id])
  {
  }
}
