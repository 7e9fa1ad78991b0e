/** The Coupon schema (models/Coupon.js) and its `decrementUse` method. */
module CouponModel {
  import opened Common
  import opened Collections

  /** `type`: "percentage" (the default) or "fixed". */
  datatype CouponType = Percentage | Fixed

  datatype Coupon = Coupon(
    code: string,
    kind: CouponType,
    discount: real,
    expirationDate: Time,
    productId: Option<Id>,
    categories: seq<Id>,
    seller: Id,
    usesLeft: int,
    isDeleted: bool,
    deletedAt: Option<Time>)

  /** The type a client names; anything but "fixed" falls back to the default. */
  function KindOf(s: Option<string>): (k: CouponType)
    ensures k == Fixed <==> s == Some("fixed")
  {
    if s == Some("fixed") then Fixed else Percentage
  }

  /** The `trim` and `uppercase` setters on `code`. */
  function StoredCode(s: string): (r: string)
    ensures Trimmed(r) && NoLowerAscii(r)
    ensures |r| <= |s|
  {
    var t := Trim(s);
    TrimIsTrimmed(s);
    UpperKeepsTrimmed(t);
    ToUpperIdempotent(t);
    ToUpper(t)
  }

  /** What the schema guarantees of a stored coupon: a non-empty, trimmed,
      upper-case code, `discount >= 1` and `usesLeft >= 0`. */
  predicate SchemaValid(c: Coupon) {
    && c.code != "" && Trimmed(c.code) && NoLowerAscii(c.code)
    && c.discount >= 1.0
    && c.usesLeft >= 0
  }

  /** A coupon as created: not deleted, no deletion date. */
  function NewCoupon(code: string, kind: CouponType, discount: real, expirationDate: Time,
                     productId: Option<Id>, categories: seq<Id>, seller: Id, usesLeft: int): (c: Coupon)
    ensures c.code == StoredCode(code)
    ensures !c.isDeleted && c.deletedAt.None?
  {
    Coupon(StoredCode(code), kind, discount, expirationDate, productId, categories, seller, usesLeft, false, None)
  }

  /** The value `decrementUse` leaves in the document. */
  function DecrementedUse(c: Coupon): (r: Coupon)
    ensures c.usesLeft > 0 ==> r.usesLeft == c.usesLeft - 1
    ensures c.usesLeft <= 0 ==> r == c
    ensures r == c.(usesLeft := r.usesLeft)
  {
    if c.usesLeft > 0 then c.(usesLeft := c.usesLeft - 1) else c
  }

  /** `n` successive calls of `decrementUse`. */
  ghost function DecrementedTimes(c: Coupon, n: nat): Coupon {
    if n == 0 then c else DecrementedUse(DecrementedTimes(c, n - 1))
  }

  /** However often `decrementUse` runs, a coupon that starts within the schema
      ends with `max(usesLeft - n, 0)` uses and nothing else changed: the guard
      keeps the counter from going negative. */
  lemma {:induction false} DecrementNeverNegative(c: Coupon, n: nat)
    requires c.usesLeft >= 0
    ensures DecrementedTimes(c, n).usesLeft == if c.usesLeft >= n then c.usesLeft - n else 0
    ensures DecrementedTimes(c, n) == c.(usesLeft := DecrementedTimes(c, n).usesLeft)
  {
    if n > 0 {
      DecrementNeverNegative(c, n - 1);
    }
  }

  /** `coupon.decrementUse()` on a stored coupon: the document is saved only
      when a use was left; the (possibly unchanged) coupon is returned. */
  method DecrementUse(coupons: Collection<Coupon>, id: Id) returns (c: Coupon)
    requires coupons.Valid() && id in coupons.docs
    modifies coupons
    ensures coupons.Valid() && coupons.nextId == old(coupons.nextId)
    ensures c == DecrementedUse(old(coupons.docs[id]))
    ensures coupons.docs == old(coupons.docs)[id := c]
  {
    c := coupons.docs[id];
    if c.usesLeft > 0 {
      c := c.(usesLeft := c.usesLeft - 1);
      coupons.Replace(id, c);
    }
  }
}
