/**
 * The signup controller `postSignup` of server/controller/auth.js: a chain of checks on
 * the request body that stops at the first failure (the missing-fields check alone
 * reports every field at once), then the e-mail lookup and the save of the new user.
 * `validateEmail`, `toTitleCase` and `bcrypt.hashSync` are parameters, and so is the
 * configured admin secret, which may be unset.
 */
module SignupController {
  import opened Wrappers
  import opened Strings

  /** The body of a signup request; an absent field is None. */
  datatype SignupInput = SignupInput(
    name: Option<string>,
    email: Option<string>,
    password: Option<string>,
    cPassword: Option<string>,
    userRole: Option<string>,
    adminCode: Option<string>)

  /** The keys of the `error` object of a signup answer. */
  datatype Key = NameKey | EmailKey | PasswordKey | CPasswordKey | UserRoleKey | AdminCodeKey

  /** A stored user: the title-cased name, the e-mail, the password hash and the role. */
  datatype UserRecord = UserRecord(name: string, email: string, password: string, userRole: string)

  /** `{ error }`, `{ success }`, or status 500 when the lookup or the save throws. */
  datatype SignupReply = Error(error: map<Key, string>) | Success(message: string) | ServerError(code: int, message: string)

  const FieldEmpty := "Field must not be empty"
  const SelectRole := "Please select a role"
  const NameLengthMessage := "Name must be 3-25 characters"
  const EmailInvalid := "Email is not valid"
  const PasswordLengthMessage := "Password must be 8 characters minimum"
  const PasswordMismatch := "Passwords do not match"
  const RoleInvalid := "Role must be either 'user' or 'admin'"
  const AdminCodeInvalid := "Invalid Admin Access Code"
  const EmailExists := "Email already exists"
  const Created := "Account created successfully. Please login"
  const SomethingWrong := "Something went wrong"

  const UserRole := "user"
  const AdminRole := "admin"

  /** The length of a field, 0 when it is absent (only read once the field is known present). */
  function Length(s: Option<string>): nat {
    if s.Some? then Utf16Length(s.value) else 0
  }

  /** The error object of the missing-fields check: all five keys, a message exactly where the field is missing. */
  function MissingFieldsError(i: SignupInput): (e: map<Key, string>)
    ensures e.Keys == {NameKey, EmailKey, PasswordKey, CPasswordKey, UserRoleKey} && AdminCodeKey !in e
    ensures forall k :: k in e && k != UserRoleKey ==> e[k] == "" || e[k] == FieldEmpty
    ensures e[UserRoleKey] == (if Truthy(i.userRole) then "" else SelectRole)
    ensures e[NameKey] == FieldEmpty <==> !Truthy(i.name)
    ensures e[EmailKey] == FieldEmpty <==> !Truthy(i.email)
    ensures e[PasswordKey] == FieldEmpty <==> !Truthy(i.password)
    ensures e[CPasswordKey] == FieldEmpty <==> !Truthy(i.cPassword)
  {
    map[NameKey := if !Truthy(i.name) then FieldEmpty else "",
        EmailKey := if !Truthy(i.email) then FieldEmpty else "",
        PasswordKey := if !Truthy(i.password) then FieldEmpty else "",
        CPasswordKey := if !Truthy(i.cPassword) then FieldEmpty else "",
        UserRoleKey := if !Truthy(i.userRole) then SelectRole else ""]
  }

  /**
   * The validation chain of `postSignup`: None when every check passes, otherwise the
   * error object of the first check that fails.
   */
  function SignupErrors(i: SignupInput, validEmail: string -> bool, secret: Option<string>): (r: Option<map<Key, string>>)
    ensures r.Some? ==> |r.value| >= 1
    ensures r.None? ==> Truthy(i.name) && Truthy(i.email) && Truthy(i.password) && i.userRole.Some?
  {
    if !Truthy(i.name) || !Truthy(i.email) || !Truthy(i.password) || !Truthy(i.cPassword) || !Truthy(i.userRole) then
      Some(MissingFieldsError(i))
    else if Utf16Length(i.name.value) < 3 || Utf16Length(i.name.value) > 25 then
      Some(map[NameKey := NameLengthMessage])
    else if !validEmail(i.email.value) then
      Some(map[EmailKey := EmailInvalid])
    else if Utf16Length(i.password.value) < 8 || Utf16Length(i.password.value) > 255 then
      Some(map[PasswordKey := PasswordLengthMessage])
    else if i.password.value != i.cPassword.value then
      Some(map[PasswordKey := PasswordMismatch, CPasswordKey := PasswordMismatch])
    else if i.userRole.value != UserRole && i.userRole.value != AdminRole then
      Some(map[UserRoleKey := RoleInvalid])
    else if i.userRole.value == AdminRole && i.adminCode != secret then
      Some(map[AdminCodeKey := AdminCodeInvalid])
    else
      None
  }

  /** The checks of the chain, in the order they run. */
  datatype Check = Required | NameLength | EmailFormat | PasswordLength | PasswordMatch | RoleAllowed | AdminCode {
    function Rank(): nat {
      match this
      case Required => 0
      case NameLength => 1
      case EmailFormat => 2
      case PasswordLength => 3
      case PasswordMatch => 4
      case RoleAllowed => 5
      case AdminCode => 6
    }
  }

  /** The condition each check demands, stated on its own. */
  predicate Passes(i: SignupInput, c: Check, validEmail: string -> bool, secret: Option<string>) {
    match c
    case Required => Truthy(i.name) && Truthy(i.email) && Truthy(i.password) && Truthy(i.cPassword) && Truthy(i.userRole)
    case NameLength => 3 <= Length(i.name) <= 25
    case EmailFormat => i.email.Some? && validEmail(i.email.value)
    case PasswordLength => 8 <= Length(i.password) <= 255
    case PasswordMatch => i.password == i.cPassword
    case RoleAllowed => i.userRole == Some(UserRole) || i.userRole == Some(AdminRole)
    case AdminCode => i.userRole == Some(AdminRole) ==> i.adminCode == secret
  }

  /** The error object each check answers with when it fails. */
  function ErrorOf(i: SignupInput, c: Check): map<Key, string> {
    match c
    case Required => MissingFieldsError(i)
    case NameLength => map[NameKey := NameLengthMessage]
    case EmailFormat => map[EmailKey := EmailInvalid]
    case PasswordLength => map[PasswordKey := PasswordLengthMessage]
    case PasswordMatch => map[PasswordKey := PasswordMismatch, CPasswordKey := PasswordMismatch]
    case RoleAllowed => map[UserRoleKey := RoleInvalid]
    case AdminCode => map[AdminCodeKey := AdminCodeInvalid]
  }

  /** `c` fails and every check before it passes. */
  predicate FirstFailure(i: SignupInput, c: Check, validEmail: string -> bool, secret: Option<string>) {
    && !Passes(i, c, validEmail, secret)
    && forall d: Check :: d.Rank() < c.Rank() ==> Passes(i, d, validEmail, secret)
  }

  /** The chain accepts the body exactly when every check passes. */
  lemma AcceptedIffAllPass(i: SignupInput, validEmail: string -> bool, secret: Option<string>)
    ensures SignupErrors(i, validEmail, secret).None? <==> forall c: Check :: Passes(i, c, validEmail, secret)
  {
    if SignupErrors(i, validEmail, secret).Some? {
      var c := FirstFailing(i, validEmail, secret);
      assert !Passes(i, c, validEmail, secret);
    }
  }

  /** The first check that fails, for a body the chain rejects. */
  function FirstFailing(i: SignupInput, validEmail: string -> bool, secret: Option<string>): (c: Check)
    requires SignupErrors(i, validEmail, secret).Some?
    ensures FirstFailure(i, c, validEmail, secret)
    ensures SignupErrors(i, validEmail, secret) == Some(ErrorOf(i, c))
  {
    if !Passes(i, Required, validEmail, secret) then Required
    else if !Passes(i, NameLength, validEmail, secret) then NameLength
    else if !Passes(i, EmailFormat, validEmail, secret) then EmailFormat
    else if !Passes(i, PasswordLength, validEmail, secret) then PasswordLength
    else if !Passes(i, PasswordMatch, validEmail, secret) then PasswordMatch
    else if !Passes(i, RoleAllowed, validEmail, secret) then RoleAllowed
    else AdminCode
  }

  /** Only the first failing check is reported: its error object is the answer. */
  lemma FirstFailureReported(i: SignupInput, c: Check, validEmail: string -> bool, secret: Option<string>)
    requires FirstFailure(i, c, validEmail, secret)
    ensures SignupErrors(i, validEmail, secret) == Some(ErrorOf(i, c))
  {
    assert SignupErrors(i, validEmail, secret).Some? by {
      AcceptedIffAllPass(i, validEmail, secret);
    }
    var d := FirstFailing(i, validEmail, secret);
    FirstFailureUnique(i, c, d, validEmail, secret);
  }

  /** At most one check is the first to fail. */
  lemma FirstFailureUnique(i: SignupInput, c: Check, d: Check, validEmail: string -> bool, secret: Option<string>)
    requires FirstFailure(i, c, validEmail, secret) && FirstFailure(i, d, validEmail, secret)
    ensures c == d
  {
    assert !(c.Rank() < d.Rank()) && !(d.Rank() < c.Rank());
    RankInjective(c, d);
  }

  lemma RankInjective(c: Check, d: Check)
    requires c.Rank() == d.Rank()
    ensures c == d
  {
  }

  /**
   * A missing field yields all five keys; each holds a message when its field is
   * missing and "" when it is present.
   */
  lemma MissingFieldsReportAll(i: SignupInput, validEmail: string -> bool, secret: Option<string>)
    requires !Truthy(i.name) || !Truthy(i.email) || !Truthy(i.password) || !Truthy(i.cPassword) || !Truthy(i.userRole)
    ensures var r := SignupErrors(i, validEmail, secret);
            && r.Some? && r.value.Keys == {NameKey, EmailKey, PasswordKey, CPasswordKey, UserRoleKey}
            && (r.value[NameKey] == "" <==> Truthy(i.name))
            && (r.value[EmailKey] == "" <==> Truthy(i.email))
            && (r.value[PasswordKey] == "" <==> Truthy(i.password))
            && (r.value[CPasswordKey] == "" <==> Truthy(i.cPassword))
            && (r.value[UserRoleKey] == "" <==> Truthy(i.userRole))
  {
  }

  /** With every field present, a name outside 3..25 characters gives a name error and nothing else. */
  lemma NameLengthOnlyNameError(i: SignupInput, validEmail: string -> bool, secret: Option<string>)
    requires Truthy(i.name) && Truthy(i.email) && Truthy(i.password) && Truthy(i.cPassword) && Truthy(i.userRole)
    requires Utf16Length(i.name.value) < 3 || Utf16Length(i.name.value) > 25
    ensures SignupErrors(i, validEmail, secret) == Some(map[NameKey := NameLengthMessage])
  {
  }

  /** Past the earlier checks, a password outside 8..255 characters gives a password error. */
  lemma PasswordLengthError(i: SignupInput, validEmail: string -> bool, secret: Option<string>)
    requires forall d: Check :: d.Rank() < PasswordLength.Rank() ==> Passes(i, d, validEmail, secret)
    requires Length(i.password) < 8 || Length(i.password) > 255
    ensures SignupErrors(i, validEmail, secret) == Some(map[PasswordKey := PasswordLengthMessage])
  {
    FirstFailureReported(i, PasswordLength, validEmail, secret);
  }

  /** Past the earlier checks, two different passwords set both the password and the cPassword key. */
  lemma MismatchSetsBothKeys(i: SignupInput, validEmail: string -> bool, secret: Option<string>)
    requires forall d: Check :: d.Rank() < PasswordMatch.Rank() ==> Passes(i, d, validEmail, secret)
    requires i.password != i.cPassword
    ensures var r := SignupErrors(i, validEmail, secret);
            r.Some? && r.value.Keys == {PasswordKey, CPasswordKey} &&
            r.value[PasswordKey] == r.value[CPasswordKey] == PasswordMismatch
  {
    FirstFailureReported(i, PasswordMatch, validEmail, secret);
  }

  /**
   * An accepted body names role "user" or "admin", and role "admin" only with the
   * configured admin code.
   */
  lemma AcceptedRole(i: SignupInput, validEmail: string -> bool, secret: Option<string>)
    requires SignupErrors(i, validEmail, secret).None?
    ensures i.userRole == Some(UserRole) || i.userRole == Some(AdminRole)
    ensures i.userRole == Some(AdminRole) ==> i.adminCode == secret
  {
  }

  /**
   * With the admin secret unset, a body that names role "admin" and sends no code passes
   * the admin-code check, since `undefined !== undefined` is false.
   */
  lemma UnsetSecretAdmitsAdmin(i: SignupInput, validEmail: string -> bool)
    requires forall d: Check :: d.Rank() < AdminCode.Rank() ==> Passes(i, d, validEmail, None)
    requires i.userRole == Some(AdminRole) && i.adminCode.None?
    ensures SignupErrors(i, validEmail, None).None?
  {
    AcceptedIffAllPass(i, validEmail, None);
    forall c: Check ensures Passes(i, c, validEmail, None) {
      if c.Rank() >= AdminCode.Rank() { RankInjective(c, AdminCode); }
    }
  }

  /** The users collection, as far as signup touches it. */
  class UserStore {
    var users: seq<UserRecord>

    /** No two users share an e-mail, and every role is "user" or "admin". */
    predicate Valid()
      reads this
    {
      && (forall j, k :: 0 <= j < k < |users| ==> users[j].email != users[k].email)
      && (forall j :: 0 <= j < |users| ==> users[j].userRole == UserRole || users[j].userRole == AdminRole)
    }

    constructor ()
      ensures Valid() && users == []
    {
      users := [];
    }

    /** `userModel.findOne({ email })` finds a document. */
    predicate EmailTaken(email: string)
      reads this
    {
      exists j :: 0 <= j < |users| && users[j].email == email
    }

    /**
     * `postSignup`: the validation chain, then the e-mail lookup, then the save of the
     * title-cased name, the hashed password and the requested role. `lookedUp` tells
     * whether `findOne` answers rather than throws, `saved` whether hashing and
     * `newUser.save()` succeed; a throw in the `try` block is answered with 500.
     */
    method PostSignup(i: SignupInput, validEmail: string -> bool, secret: Option<string>,
                      titleCase: string -> string, hash: string -> string, lookedUp: bool, saved: bool)
      returns (reply: SignupReply)
      requires Valid()
      modifies this
      ensures Valid()
      ensures SignupErrors(i, validEmail, secret).Some? ==>
                reply == Error(SignupErrors(i, validEmail, secret).value) && users == old(users)
      ensures SignupErrors(i, validEmail, secret).None? && !lookedUp ==>
                reply == ServerError(500, SomethingWrong) && users == old(users)
      ensures SignupErrors(i, validEmail, secret).None? && lookedUp && old(EmailTaken(i.email.value)) ==>
                reply == Error(map[EmailKey := EmailExists]) && users == old(users)
      ensures reply.Success? <==>
                SignupErrors(i, validEmail, secret).None? && lookedUp && !old(EmailTaken(i.email.value)) && saved
      ensures reply.ServerError? ==> reply == ServerError(500, SomethingWrong) && users == old(users)
      ensures reply.Success? ==>
                reply.message == Created &&
                users == old(users) + [UserRecord(titleCase(i.name.value), i.email.value,
                                                  hash(i.password.value), i.userRole.value)]
    {
      var errors := SignupErrors(i, validEmail, secret);
      if errors.Some? {
        return Error(errors.value);
      }
      AcceptedRole(i, validEmail, secret);
      var email := i.email.value;
      if !lookedUp {
        return ServerError(500, SomethingWrong);
      }
      if exists j :: 0 <= j < |users| && users[j].email == email {
        return Error(map[EmailKey := EmailExists]);
      }
      if !saved {
        return ServerError(500, SomethingWrong);
      }
      var user := UserRecord(titleCase(i.name.value), email, hash(i.password.value), i.userRole.value);
      users := users + [user];
      reply := Success(Created);
    }
  }
}
