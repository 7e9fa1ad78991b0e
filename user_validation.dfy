/** The yup schemas of validators/userValidation.js as the list of errors
    `validate(body, { abortEarly: false })` collects. An absent field is
    reported only by `required`; a present string by each failing rule in
    declaration order, where `required` also refuses "". The e-mail format is
    a parameter: yup's `email()` regular expression is not part of this model,
    except that it lets "" through. */
module UserValidation {
  import opened Common

  datatype UserBody = UserBody(fullname: Option<string>, email: Option<string>, password: Option<string>)

  const MsgNameRequired: string := "Name is required"
  const MsgNameMin: string := "Name must be at least 3 characters"
  const MsgEmailRequired: string := "Email is required"
  const MsgEmailFormat: string := "invalid email format"
  const MsgPasswordRequired: string := "Password is required"
  const MsgPasswordMin: string := "Password must be at least 8 characters"

  const NameMinLength: nat := 3
  const PasswordMinLength: nat := 8

  /** `email()`, which skips the empty string. */
  predicate EmailAccepted(s: string, emailOk: string -> bool) {
    s == "" || emailOk(s)
  }

  /** `string().required(required)` followed by `min(n, short)`. */
  function RequiredMin(v: Option<string>, n: nat, required: string, short: string): (errs: seq<string>)
    ensures errs == [] <==> v.Some? && |v.value| >= n && v.value != ""
  {
    match v
    case None => [required]
    case Some(s) => (if s == "" then [required] else []) + (if |s| < n then [short] else [])
  }

  /** `string().required(...).email(...)`. */
  function RequiredEmail(v: Option<string>, emailOk: string -> bool): (errs: seq<string>)
    ensures errs == [] <==> v.Some? && v.value != "" && emailOk(v.value)
  {
    match v
    case None => [MsgEmailRequired]
    case Some(s) => if s == "" then [MsgEmailRequired] else if emailOk(s) then [] else [MsgEmailFormat]
  }

  /** Reference reading of `registerSchema`: a name of at least 3 characters,
      a well-formed e-mail and a password of at least 8 characters. */
  predicate RegisterValid(b: UserBody, emailOk: string -> bool) {
    && b.fullname.Some? && |b.fullname.value| >= NameMinLength
    && b.email.Some? && b.email.value != "" && emailOk(b.email.value)
    && b.password.Some? && |b.password.value| >= PasswordMinLength
  }

  /** `registerSchema`; `userSchema` declares the same three rules. */
  function RegisterErrors(b: UserBody, emailOk: string -> bool): (errs: seq<string>)
    ensures errs == [] <==> RegisterValid(b, emailOk)
    ensures b.fullname.None? ==> errs[0] == MsgNameRequired
  {
    RequiredMin(b.fullname, NameMinLength, MsgNameRequired, MsgNameMin)
    + RequiredEmail(b.email, emailOk)
    + RequiredMin(b.password, PasswordMinLength, MsgPasswordRequired, MsgPasswordMin)
  }

  /** Reference reading of `loginSchema`: a well-formed e-mail and any
      non-empty password. */
  predicate LoginValid(b: UserBody, emailOk: string -> bool) {
    && b.email.Some? && b.email.value != "" && emailOk(b.email.value)
    && b.password.Some? && b.password.value != ""
  }

  function LoginErrors(b: UserBody, emailOk: string -> bool): (errs: seq<string>)
    ensures errs == [] <==> LoginValid(b, emailOk)
  {
    RequiredEmail(b.email, emailOk)
    + (match b.password
       case None => [MsgPasswordRequired]
       case Some(s) => if s == "" then [MsgPasswordRequired] else [])
  }

  /** Reference reading of `updateProfileSchema`: every field optional, each
      present one within its rule; "" is a present value. */
  predicate UpdateProfileValid(b: UserBody, emailOk: string -> bool) {
    && (b.fullname.Some? ==> |b.fullname.value| >= NameMinLength)
    && (b.email.Some? ==> EmailAccepted(b.email.value, emailOk))
    && (b.password.Some? ==> |b.password.value| >= PasswordMinLength)
  }

  function UpdateProfileErrors(b: UserBody, emailOk: string -> bool): (errs: seq<string>)
    ensures errs == [] <==> UpdateProfileValid(b, emailOk)
    ensures MsgNameRequired !in errs && MsgEmailRequired !in errs && MsgPasswordRequired !in errs
  {
    (match b.fullname
     case None => []
     case Some(s) => if |s| < NameMinLength then [MsgNameMin] else [])
    + (match b.email
       case None => []
       case Some(s) => if EmailAccepted(s, emailOk) then [] else [MsgEmailFormat])
    + (match b.password
       case None => []
       case Some(s) => if |s| < PasswordMinLength then [MsgPasswordMin] else [])
  }

  /** A body accepted at registration is accepted at login and as a profile
      update. */
  lemma RegisteredBodyPassesOtherSchemas(b: UserBody, emailOk: string -> bool)
    requires RegisterErrors(b, emailOk) == []
    ensures LoginErrors(b, emailOk) == []
    ensures UpdateProfileErrors(b, emailOk) == []
  {
  }

  /** Login does not re-check the length rule: a one-character password passes
      login although registration refuses it. */
  lemma LoginAcceptsShortPassword(email: string, emailOk: string -> bool)
    requires email != "" && emailOk(email)
    ensures LoginErrors(UserBody(None, Some(email), Some("x")), emailOk) == []
    ensures MsgPasswordMin in RegisterErrors(UserBody(Some("Ada"), Some(email), Some("x")), emailOk)
  {
    assert RegisterErrors(UserBody(Some("Ada"), Some(email), Some("x")), emailOk) == [MsgPasswordMin];
  }

  /** An empty profile update passes, and so does an empty e-mail, which the
      register schema refuses as missing. */
  lemma EmptyEmailOnlyFailsWhenRequired(emailOk: string -> bool)
    ensures UpdateProfileErrors(UserBody(None, None, None), emailOk) == []
    ensures UpdateProfileErrors(UserBody(None, Some(""), None), emailOk) == []
    ensures MsgEmailRequired in RegisterErrors(UserBody(None, Some(""), None), emailOk)
  {
    assert RegisterErrors(UserBody(None, Some(""), None), emailOk)
        == [MsgNameRequired, MsgEmailRequired, MsgPasswordRequired];
  }

  /** An empty name is reported twice at registration: missing and too short. */
  lemma EmptyNameTwice()
    ensures RequiredMin(Some(""), NameMinLength, MsgNameRequired, MsgNameMin) == [MsgNameRequired, MsgNameMin]
  {
  }
}
