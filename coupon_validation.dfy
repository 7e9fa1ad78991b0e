/** The yup schemas of validators/couponValidation.js, as functions from a
    request body to the list of error messages `validate(body, { abortEarly:
    false })` collects. A field that is absent is reported only by its
    `required` rule; the other rules skip absent values. A present field is
    checked by each of its rules in declaration order. Fields are reported in
    schema order. */
module CouponValidation {
  import opened Common

  /** The body a client sends; a field it leaves out is None. Identifiers are
      typed, so a malformed id is not representable. `isDeleted` and
      `deletedAt` are keys neither schema declares: yup keeps unknown keys and
      checks nothing about them; `deletedAt: Some(None)` is an explicit null. */
  datatype CouponBody = CouponBody(
    code: Option<string>,
    kind: Option<string>,
    discount: Option<real>,
    expirationDate: Option<Time>,
    categories: Option<seq<Id>>,
    productId: Option<Id>,
    seller: Option<Id>,
    usesLeft: Option<real>,
    isDeleted: Option<bool>,
    deletedAt: Option<Option<Time>>)

  const MsgCodeRequired: string := "Coupon code is required"
  const MsgCodeMin: string := "Code must be at least 3 characters"
  const MsgCodeMax: string := "Code cannot exceed 20 characters"
  const MsgCodePattern: string := "Code must contain only uppercase letters, numbers, underscores, or hyphens"
  const MsgTypeOneOf: string := "Type must be either 'percentage' or 'fixed'"
  const MsgTypeRequired: string := "Coupon type is required"
  const MsgDiscountRequired: string := "Discount value is required"
  const MsgDiscountMin: string := "Discount must be at least 1"
  const MsgPercentageMax: string := "Percentage discount cannot exceed 100"
  const MsgExpirationRequired: string := "Expiration date is required"
  const MsgExpirationFuture: string := "Expiration date must be in the future"
  const MsgCategoriesMin: string := "At least one category is required"
  const MsgCategoriesRequired: string := "Category ID is required"
  const MsgProductRequired: string := "Product ID is required"
  const MsgSellerRequired: string := "Seller ID is required"
  const MsgUsesRequired: string := "Number of uses is required"
  const MsgUsesInteger: string := "Uses must be an integer"
  const MsgUsesMin: string := "At least one use must be allowed"
  /** yup's default messages, used by the update schema's `usesLeft`. */
  const MsgUsesLeftInteger: string := "usesLeft must be an integer"
  const MsgUsesLeftMin: string := "usesLeft must be greater than or equal to 0"

  const CodeMinLength: nat := 3
  const CodeMaxLength: nat := 20

  /** A character of `/^[A-Z0-9_-]+$/`. */
  predicate CodeChar(c: char) {
    ('A' <= c <= 'Z') || ('0' <= c <= '9') || c == '_' || c == '-'
  }

  predicate MatchesCodePattern(s: string) {
    |s| > 0 && forall i :: 0 <= i < |s| ==> CodeChar(s[i])
  }

  predicate IsInteger(x: real) {
    x.Floor as real == x
  }

  /** `min(3)`, `max(20)` and `matches(...)` on a code that is present. */
  function CodeRules(s: string): (errs: seq<string>)
    ensures errs == [] <==> CodeMinLength <= |s| <= CodeMaxLength && MatchesCodePattern(s)
  {
    (if |s| < CodeMinLength then [MsgCodeMin] else [])
    + (if |s| > CodeMaxLength then [MsgCodeMax] else [])
    + (if MatchesCodePattern(s) then [] else [MsgCodePattern])
  }

  /** `discount.min(1)`, and `max(100)` when the body's `type` is "percentage". */
  function DiscountRules(d: real, kind: Option<string>): (errs: seq<string>)
    ensures errs == [] <==> d >= 1.0 && (kind == Some("percentage") ==> d <= 100.0)
  {
    (if d < 1.0 then [MsgDiscountMin] else [])
    + (if kind == Some("percentage") && d > 100.0 then [MsgPercentageMax] else [])
  }

  predicate KnownType(t: string) {
    t == "percentage" || t == "fixed"
  }

  function RequiredPresent(present: bool, message: string): seq<string> {
    if present then [] else [message]
  }

  // ------------------------------------------------------------------ create

  /** Reference reading of `createCouponSchema`: every field present and within
      its rule. `loadTime` is the `new Date()` evaluated once, when the module
      is loaded, not at each request. */
  predicate CreateValid(b: CouponBody, loadTime: Time) {
    && b.code.Some? && CodeMinLength <= |b.code.value| <= CodeMaxLength && MatchesCodePattern(b.code.value)
    && b.kind.Some? && KnownType(b.kind.value)
    && b.discount.Some? && b.discount.value >= 1.0
    && (b.kind == Some("percentage") ==> b.discount.value <= 100.0)
    && b.expirationDate.Some? && b.expirationDate.value >= loadTime
    && b.categories.Some? && |b.categories.value| >= 1
    && b.productId.Some? && b.seller.Some?
    && b.usesLeft.Some? && IsInteger(b.usesLeft.value) && b.usesLeft.value >= 1.0
  }

  function CreateCodeErrors(code: Option<string>): seq<string> {
    match code
    case None => [MsgCodeRequired]
    case Some(s) => (if s == "" then [MsgCodeRequired] else []) + CodeRules(s)
  }

  /** `oneOf` is checked before `required`; an unknown type stops at its message. */
  function CreateTypeErrors(kind: Option<string>): seq<string> {
    match kind
    case None => [MsgTypeRequired]
    case Some(t) => if KnownType(t) then [] else [MsgTypeOneOf]
  }

  function CreateUsesErrors(u: Option<real>): seq<string> {
    match u
    case None => [MsgUsesRequired]
    case Some(x) => (if IsInteger(x) then [] else [MsgUsesInteger]) + (if x < 1.0 then [MsgUsesMin] else [])
  }

  /** The errors `createCouponSchema.validate` collects. */
  function CreateErrors(b: CouponBody, loadTime: Time): (errs: seq<string>)
    ensures errs == [] <==> CreateValid(b, loadTime)
  {
    CreateCodeErrors(b.code)
    + CreateTypeErrors(b.kind)
    + (match b.discount
       case None => [MsgDiscountRequired]
       case Some(d) => DiscountRules(d, b.kind))
    + (match b.expirationDate
       case None => [MsgExpirationRequired]
       case Some(t) => if t < loadTime then [MsgExpirationFuture] else [])
    + (match b.categories
       case None => [MsgCategoriesRequired]
       case Some(cs) => if |cs| < 1 then [MsgCategoriesMin] else [])
    + RequiredPresent(b.productId.Some?, MsgProductRequired)
    + RequiredPresent(b.seller.Some?, MsgSellerRequired)
    + CreateUsesErrors(b.usesLeft)
  }

  // ------------------------------------------------------------------ update

  /** Reference reading of `updateCouponSchema`: each present field within its
      rule; `categories` is not part of this schema at all. */
  predicate UpdateValid(b: CouponBody, loadTime: Time) {
    && (b.code.Some? ==> CodeMinLength <= |b.code.value| <= CodeMaxLength && MatchesCodePattern(b.code.value))
    && (b.kind.Some? ==> KnownType(b.kind.value))
    && (b.discount.Some? ==> b.discount.value >= 1.0 && (b.kind == Some("percentage") ==> b.discount.value <= 100.0))
    && (b.expirationDate.Some? ==> b.expirationDate.value >= loadTime)
    && (b.usesLeft.Some? ==> IsInteger(b.usesLeft.value) && b.usesLeft.value >= 0.0)
  }

  /** The errors `updateCouponSchema.validate` collects. */
  function UpdateErrors(b: CouponBody, loadTime: Time): (errs: seq<string>)
    ensures errs == [] <==> UpdateValid(b, loadTime)
  {
    (match b.code
     case None => []
     case Some(s) => CodeRules(s))
    + (match b.kind
       case None => []
       case Some(t) => if KnownType(t) then [] else [MsgTypeOneOf])
    + (match b.discount
       case None => []
       case Some(d) => DiscountRules(d, b.kind))
    + (match b.expirationDate
       case None => []
       case Some(t) => if t < loadTime then [MsgExpirationFuture] else [])
    + (match b.usesLeft
       case None => []
       case Some(x) => (if IsInteger(x) then [] else [MsgUsesLeftInteger]) + (if x < 0.0 then [MsgUsesLeftMin] else []))
  }

  /** Every body the create schema accepts, the update schema accepts too. */
  lemma CreateValidIsUpdateValid(b: CouponBody, loadTime: Time)
    requires CreateErrors(b, loadTime) == []
    ensures UpdateErrors(b, loadTime) == []
  {
  }

  /** The update schema accepts an empty body: every rule is optional there. */
  lemma EmptyUpdateIsValid(loadTime: Time)
    ensures UpdateErrors(CouponBody(None, None, None, None, None, None, None, None, None, None), loadTime) == []
  {
  }

  /** An empty body is refused by the create schema with the `required`
      message of each of its eight fields, in schema order. */
  lemma EmptyCreateBodyErrors(loadTime: Time)
    ensures CreateErrors(CouponBody(None, None, None, None, None, None, None, None, None, None), loadTime)
         == [MsgCodeRequired, MsgTypeRequired, MsgDiscountRequired, MsgExpirationRequired,
             MsgCategoriesRequired, MsgProductRequired, MsgSellerRequired, MsgUsesRequired]
  {
  }

  /** An empty code is reported three times: required, too short, and not
      matching the pattern. */
  lemma EmptyCodeErrors()
    ensures CreateCodeErrors(Some("")) == [MsgCodeRequired, MsgCodeMin, MsgCodePattern]
  {
  }

  /** A code the schemas accept is stored unchanged: it has no blank to trim
      and no lower-case letter to upper-case. */
  lemma PatternCodeIsStoredForm(s: string)
    requires MatchesCodePattern(s)
    ensures Trimmed(s) && NoLowerAscii(s) && s != ""
    ensures Trim(s) == s && ToUpper(s) == s
  {
    TrimmedIsFixed(s);
    forall i | 0 <= i < |s| ensures UpperChar(s[i]) == s[i] {
      assert CodeChar(s[i]);
    }
  }
}
