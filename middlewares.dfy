/** The access-control middlewares: middlewares/isAdmin.js, middlewares/role.js
    and middlewares/checkProductOwnership.js. A middleware either calls
    `next()`, answers the request itself, or calls `next(error)`. */
module AccessControl {
  import opened Common

  /** `req.user` as set by the authentication middleware. */
  datatype AuthUser = AuthUser(id: Id, role: string)

  datatype Gate = Pass | Deny(status: nat, message: string) | PassError(error: string)

  const AdminRole: string := "admin"
  const MsgNotAdmin: string := "Accès refusé : vous devez être admin"
  const MsgAuthRequired: string := "Authentication required"
  const MsgForbidden: string := "Forbidden"
  const MsgProductNotFound: string := "Product not found"
  const MsgNotOwner: string := "Access denied. You can only edit your own products"
  /** The TypeError raised by `req.user.id` when no user is attached. */
  const MsgNoUser: string := "Cannot read properties of undefined (reading 'id')"

  /** `isAdmin`: only a user whose role is exactly "admin" passes; a request
      without a user gets the same 403. */
  function IsAdmin(user: Option<AuthUser>): (g: Gate)
    ensures g == Pass <==> user.Some? && user.value.role == AdminRole
    ensures g != Pass ==> g == Deny(403, MsgNotAdmin)
  {
    if user.None? || user.value.role != AdminRole then Deny(403, MsgNotAdmin) else Pass
  }

  /** `role(...allowedRoles)`: 401 without a user, 403 when the user's role is
      not one of the allowed roles, otherwise `next()`. */
  function Role(allowed: seq<string>, user: Option<AuthUser>): (g: Gate)
    ensures g == Pass <==> user.Some? && user.value.role in allowed
    ensures user.None? <==> g == Deny(401, MsgAuthRequired)
    ensures user.Some? && user.value.role !in allowed ==> g == Deny(403, MsgForbidden)
  {
    if user.None? then Deny(401, MsgAuthRequired)
    else if user.value.role !in allowed then Deny(403, MsgForbidden)
    else Pass
  }

  /** `role("admin")` and `isAdmin` let the same users through; they differ
      only in what they answer to a request without a user. */
  lemma RoleAdminMatchesIsAdmin(user: Option<AuthUser>)
    ensures Role([AdminRole], user).Pass? <==> IsAdmin(user).Pass?
    ensures user.None? ==> Role([AdminRole], user).status == 401 && IsAdmin(user).status == 403
  {
  }

  /** `role()` with no roles refuses every authenticated user. */
  lemma NoRolesRefusesEveryone(user: AuthUser)
    ensures Role([], Some(user)) == Deny(403, MsgForbidden)
  {
  }

  /** What `Products.findById` gives back: the seller of the product found,
      no product, or a rejected query (an id that cannot be cast). */
  datatype Lookup = Found(seller: Id) | Missing | Failed(error: string)

  /** `checkProductOwnership`: only the product's seller passes; no admin
      bypass exists. */
  function CheckProductOwnership(user: Option<AuthUser>, lookup: Lookup): (g: Gate)
    ensures g == Pass <==> user.Some? && lookup == Found(user.value.id)
    ensures user.None? ==> g == PassError(MsgNoUser)
    ensures user.Some? && lookup.Missing? ==> g == Deny(404, MsgProductNotFound)
    ensures user.Some? && lookup.Failed? ==> g == PassError(lookup.error)
  {
    if user.None? then PassError(MsgNoUser)
    else match lookup
      case Failed(e) => PassError(e)
      case Missing => Deny(404, MsgProductNotFound)
      case Found(seller) => if seller != user.value.id then Deny(403, MsgNotOwner) else Pass
  }

  /** An admin who is not the seller is refused like anyone else. */
  lemma AdminIsNotOwner(admin: AuthUser, seller: Id)
    requires admin.role == AdminRole && admin.id != seller
    ensures IsAdmin(Some(admin)) == Pass
    ensures CheckProductOwnership(Some(admin), Found(seller)) == Deny(403, MsgNotOwner)
  {
  }
}

/** The origin check of middlewares/security.js. `ALLOWED_ORIGINS` is a
    parameter; None stands for an unset variable. */
module Cors {
  import opened Common

  datatype CorsDecision = Allow | Reject(message: string)

  const DefaultOrigin: string := "http://localhost:3000"
  const MsgCorsPrefix: string := "Non autorisé par CORS - Origin: "

  /** `process.env.ALLOWED_ORIGINS?.split(',') || ['http://localhost:3000']`:
      the entries are not trimmed, and an empty variable gives `[""]`. */
  function AllowedOrigins(env: Option<string>): (r: seq<string>)
    ensures env.None? ==> r == [DefaultOrigin]
    ensures env.Some? ==> Join(r, [',']) == env.value && forall i :: 0 <= i < |r| ==> ',' !in r[i]
  {
    if env.None? then [DefaultOrigin]
    else
      SplitJoin(env.value, ',');
      Split(env.value, ',')
  }

  /** The `origin` callback: a request without an origin (or with an empty
      one) is allowed; otherwise the origin must equal one of the entries. */
  function CheckOrigin(env: Option<string>, origin: Option<string>): (d: CorsDecision)
    ensures d == Allow <==> origin.None? || origin.value == "" || origin.value in AllowedOrigins(env)
    ensures d != Allow ==> d == Reject(MsgCorsPrefix + origin.value)
  {
    if origin.None? || origin.value == "" then Allow
    else if origin.value in AllowedOrigins(env) then Allow
    else Reject(MsgCorsPrefix + origin.value)
  }

  /** Without the variable only the local front end is allowed. */
  lemma DefaultAllowsOnlyLocalhost(origin: string)
    requires origin != ""
    ensures CheckOrigin(None, Some(origin)) == Allow <==> origin == DefaultOrigin
  {
  }

  /** A blank after a comma is kept: with "a, b" the origin "b" is
      refused and " b" allowed. */
  lemma EntriesAreNotTrimmed()
    ensures CheckOrigin(Some("a, b"), Some("b")) == Reject(MsgCorsPrefix + "b")
    ensures CheckOrigin(Some("a, b"), Some(" b")) == Allow
  {
    var list := AllowedOrigins(Some("a, b"));
    assert list == ["a", " b"] by {
      TwoEntries();
    }
    assert "b" != " b" by {
      assert |"b"| != |" b"|;
    }
  }

  lemma TwoEntries()
    ensures Split("a, b", ',') == ["a", " b"]
  {
    var a, b := "a", " b";
    assert ',' !in a;
    assert ',' !in b;
    SplitAtFirst(a, ',', b);
    SplitAtFirst(b, ',', []);
    assert "a, b" == a + [','] + b;
  }

  /** Splitting a piece that holds no separator, followed by the separator (or
      by nothing), yields that piece first. */
  lemma {:induction false} SplitAtFirst(a: string, sep: char, b: string)
    requires sep !in a
    ensures b == [] ==> Split(a, sep) == [a]
    ensures Split(a + [sep] + b, sep) == [a] + Split(b, sep)
    decreases |a|
  {
    if a != [] {
      SplitAtFirst(a[1..], sep, b);
      assert (a + [sep] + b)[1..] == a[1..] + [sep] + b;
      assert [a[0]] + a[1..] == a;
    } else {
      assert a + [sep] + b == [sep] + b;
      assert ([sep] + b)[1..] == b;
    }
  }
}
