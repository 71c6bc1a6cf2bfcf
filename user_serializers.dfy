/**
  The user serializers: registration, profile update and login validation.
  The user manager and its table come from `Models`; password hashing and
  `authenticate` are abstract.
 */
module UserSerializers {
  import opened Wrappers
  import opened PyStr
  import opened Models

  /** The minimum length both serializers declare for `password` and `password2`. */
  const MinPasswordLength: nat := 6

  datatype SerializerError =
    | PasswordTooShort        // a password field below the declared minimum length
    | PasswordsMustMatch      // {"password": "Passwords must match."}
    | Authorization           // "Unable to authenticate with provided credentials"
    | Store(cause: UserError) // raised by the user manager or the user table

  /** A registration request after field validation: all five fields are required. */
  datatype Registration = Registration(username: string, email: string, name: string, password: string, password2: string)

  /** A profile update request: every field is optional. */
  datatype ProfilePatch = ProfilePatch(
    username: Option<string>,
    email: Option<string>,
    name: Option<string>,
    password: Option<string>,
    password2: Option<string>)

  /** The data a user serializer returns: its fields without the write-only passwords. */
  datatype UserView = UserView(username: string, email: string, name: string)

  function Represent(u: User): UserView {
    UserView(u.username, u.email, u.name)
  }

  /** Python truthiness of an optional string: present and non-empty. */
  predicate Truthy(s: Option<string>) {
    s.Some? && s.value != ""
  }

  // ---------------------------------------------------------------- password length

  /**
    The password fields as the serializers declare them: an explicit `CharField`
    with no `min_length`. The `min_length` in `Meta.extra_kwargs` is not applied
    to explicitly declared fields, so no minimum length applies.
   */
  function PasswordFieldAsWritten(p: string): Result<string, SerializerError> {
    Ok(p)
  }

  /** The five-character password the registration test expects to be refused is accepted as written. */
  lemma ShortPasswordAcceptedAsWritten()
    ensures |"short"| < MinPasswordLength && PasswordFieldAsWritten("short") == Ok("short")
  {
  }

  /**
    Which password field the serializers use: the one as declared (no
    minimum) or the one with the declared minimum in force.
   */
  datatype PasswordRule = AsWritten | Intended

  function PasswordCheck(rule: PasswordRule, p: string): (r: Result<string, SerializerError>)
    ensures r.Ok? ==> r.value == p
    ensures r.Err? ==> r.error == PasswordTooShort && rule == Intended
    ensures rule == Intended ==> (r.Ok? <==> |p| >= MinPasswordLength)
  {
    match rule
    case AsWritten => PasswordFieldAsWritten(p)
    case Intended => PasswordField(p)
  }

  /** The password field with the declared minimum length in force. */
  function PasswordField(p: string): (r: Result<string, SerializerError>)
    ensures r.Ok? <==> |p| >= MinPasswordLength
    ensures r.Ok? ==> r.value == p
    ensures r.Err? ==> r.error == PasswordTooShort
  {
    if |p| < MinPasswordLength then Err(PasswordTooShort) else Ok(p)
  }

  /** With the minimum in force, the registration test's five-character password is refused. */
  lemma ShortPasswordRefused()
    ensures PasswordField("short") == Err(PasswordTooShort)
  {
  }

  // ---------------------------------------------------------------- registration

  /** `UserSerializer.validate`: the two passwords must be equal; the data passes through unchanged. */
  function ValidateRegistration(data: Registration): (r: Result<Registration, SerializerError>)
    ensures r.Ok? <==> data.password == data.password2
    ensures r.Ok? ==> r.value == data
    ensures r.Err? ==> r.error == PasswordsMustMatch
  {
    if data.password != data.password2 then Err(PasswordsMustMatch) else Ok(data)
  }

  /**
    Registration: field validation (password lengths), then `validate`, then
    `create`, which drops `password2` and calls `create_user` with the rest.
    The response carries the user's fields without any password.
   */
  method Register(m: UserManager, rule: PasswordRule, data: Registration) returns (res: Result<UserView, SerializerError>)
    requires m.Valid()
    modifies m
    ensures m.Valid()
    ensures PasswordCheck(rule, data.password).Err? || PasswordCheck(rule, data.password2).Err?
            ==> res == Err(PasswordTooShort)
    ensures PasswordCheck(rule, data.password).Ok? && PasswordCheck(rule, data.password2).Ok? &&
            data.password != data.password2
            ==> res == Err(PasswordsMustMatch)
    ensures PasswordCheck(rule, data.password).Ok? && PasswordCheck(rule, data.password2).Ok? &&
            data.password == data.password2
            ==> (res.Err? <==>
                   data.username == [] || data.email == [] ||
                   UsernameTaken(old(m.users), data.username) ||
                   EmailTaken(old(m.users), NormalizeEmail(data.email)))
    ensures PasswordCheck(rule, data.password).Ok? && PasswordCheck(rule, data.password2).Ok? &&
            data.password == data.password2 && res.Err?
            ==> res.error == Store(if data.username == [] then MissingUsername
                                   else if data.email == [] then MissingEmail
                                   else IntegrityError)
    ensures res.Err? ==> m.users == old(m.users) && m.nextId == old(m.nextId)
    ensures res.Ok? ==> m.nextId == old(m.nextId) + 1
    ensures res.Ok? ==>
              var u := NewUser(old(m.nextId), data.username, data.email, Some(data.password), data.name);
              && data.password == data.password2
              && m.users == old(m.users) + [u]
              && CheckPassword(u, data.password)
              && res.value == Represent(u)
  {
    if PasswordCheck(rule, data.password).Err? || PasswordCheck(rule, data.password2).Err? {
      return Err(PasswordTooShort);
    }
    var validated := ValidateRegistration(data);
    if validated.Err? {
      return Err(validated.error);
    }
    var v := validated.value;
    var created := m.CreateUser(v.username, v.email, Some(v.password), v.name);
    if created.Err? {
      return Err(Store(created.error));
    }
    return Ok(Represent(created.value));
  }

  // ---------------------------------------------------------------- profile update

  /** `UpdateUserSerializer.validate`: once either password is given, the two must be equal. */
  function ValidateUpdate(patch: ProfilePatch): (r: Result<ProfilePatch, SerializerError>)
    ensures r.Ok? <==> (!Truthy(patch.password) && !Truthy(patch.password2)) || patch.password == patch.password2
    ensures r.Ok? ==> r.value == patch
    ensures r.Err? ==> r.error == PasswordsMustMatch
  {
    if (Truthy(patch.password) || Truthy(patch.password2)) && patch.password != patch.password2 then
      Err(PasswordsMustMatch)
    else
      Ok(patch)
  }

  /**
    `UpdateUserSerializer.update`: the supplied username, e-mail and name are
    written to the instance, the password only when a non-empty one is given.
   */
  function ApplyUpdate(u: User, patch: ProfilePatch): (r: User)
    ensures r.id == u.id && r.isStaff == u.isStaff && r.isActive == u.isActive && r.isSuperuser == u.isSuperuser
    ensures r.username == (if patch.username.Some? then patch.username.value else u.username)
    ensures r.email == (if patch.email.Some? then patch.email.value else u.email)
    ensures r.name == (if patch.name.Some? then patch.name.value else u.name)
    ensures Truthy(patch.password) ==> forall raw :: CheckPassword(r, raw) <==> raw == patch.password.value
    ensures !Truthy(patch.password) ==> r.password == u.password
  {
    var fields := u.(username := patch.username.GetOr(u.username),
                     email := patch.email.GetOr(u.email),
                     name := patch.name.GetOr(u.name));
    if Truthy(patch.password) then SetPassword(fields, patch.password) else fields
  }

  /** Applying the same update twice is the same as applying it once. */
  lemma ApplyUpdateIdempotent(u: User, patch: ProfilePatch)
    ensures ApplyUpdate(ApplyUpdate(u, patch), patch) == ApplyUpdate(u, patch)
  {
  }

  /** An update that supplies nothing leaves the user as it was. */
  lemma EmptyUpdateIsIdentity(u: User)
    ensures ApplyUpdate(u, ProfilePatch(None, None, None, None, None)) == u
  {
  }

  /** The length check for an optional password field: an absent field is not checked. */
  predicate OptionalPasswordOk(rule: PasswordRule, p: Option<string>) {
    p.None? || PasswordCheck(rule, p.value).Ok?
  }

  /** Another row of the table already holds the username or the e-mail of `u`. */
  predicate HeldByOther(users: seq<User>, u: User) {
    exists k :: 0 <= k < |users| && users[k].id != u.id &&
                (users[k].username == u.username || users[k].email == u.email)
  }

  /**
    Profile update of the requesting user: field validation, `validate`, then
    `update`, which saves the instance (the table refuses a username or e-mail
    held by another user).
   */
  method UpdateProfile(m: UserManager, rule: PasswordRule, instance: User, patch: ProfilePatch)
    returns (res: Result<UserView, SerializerError>)
    requires m.Valid() && instance in m.users
    modifies m
    ensures m.Valid()
    ensures !OptionalPasswordOk(rule, patch.password) || !OptionalPasswordOk(rule, patch.password2)
            ==> res == Err(PasswordTooShort)
    ensures OptionalPasswordOk(rule, patch.password) && OptionalPasswordOk(rule, patch.password2) &&
            ValidateUpdate(patch).Err?
            ==> res == Err(PasswordsMustMatch)
    ensures OptionalPasswordOk(rule, patch.password) && OptionalPasswordOk(rule, patch.password2) &&
            ValidateUpdate(patch).Ok?
            ==> (res.Err? <==> HeldByOther(old(m.users), ApplyUpdate(instance, patch))) &&
                (res.Err? ==> res.error == Store(IntegrityError))
    ensures res.Err? ==> m.users == old(m.users)
    ensures m.nextId == old(m.nextId) && |m.users| == |old(m.users)|
    ensures res.Ok? ==>
              var u := ApplyUpdate(instance, patch);
              && res.value == Represent(u)
              && forall k :: 0 <= k < |m.users| ==>
                   m.users[k] == if old(m.users)[k].id == instance.id then u else old(m.users)[k]
  {
    if !OptionalPasswordOk(rule, patch.password) || !OptionalPasswordOk(rule, patch.password2) {
      return Err(PasswordTooShort);
    }
    var validated := ValidateUpdate(patch);
    if validated.Err? {
      return Err(validated.error);
    }
    var u := ApplyUpdate(instance, validated.value);
    var saved := m.Save(u);
    if saved.Err? {
      return Err(Store(saved.error));
    }
    return Ok(Represent(u));
  }

  /**
    Registration of the short-password test's user (with the required name
    supplied) on an empty table: the serializer as written stores it.
   */
  method ShortPasswordRegistersAsWritten() returns (res: Result<UserView, SerializerError>)
    ensures res == Ok(UserView("testnewuser", "newuser@email.com", "Test"))
  {
    TestAddressNormalized();
    var m := new UserManager();
    res := Register(m, AsWritten, Registration("testnewuser", "newuser@email.com", "Test", "short", "short"));
  }

  /** The registration test's address is already in normal form. */
  lemma TestAddressNormalized()
    ensures NormalizeEmail("newuser@email.com") == "newuser@email.com"
  {
    assert "newuser" + "@" + "email.com" == "newuser@email.com" by {}
    TestDomainLowered();
    NormalizeEmailParts("newuser", "email.com");
  }

  lemma TestDomainLowered()
    ensures Lower("email.com") == "email.com"
  {
  }

  /** The same registration with the declared minimum in force is refused and stores nothing. */
  method ShortPasswordRefusedAsIntended() returns (res: Result<UserView, SerializerError>)
    ensures res == Err(PasswordTooShort)
  {
    var m := new UserManager();
    res := Register(m, Intended, Registration("testnewuser", "newuser@email.com", "Test", "short", "short"));
  }

  // ---------------------------------------------------------------- login

  datatype Credentials = Credentials(username: string, password: string)

  /** The validated login data: the credentials with the authenticated user attached. */
  datatype LoginAttrs = LoginAttrs(username: string, password: string, user: User)

  /**
    `AuthTokenSerializer.validate`: the credentials are handed to
    `authenticate`; no user means an "authorization" error, otherwise the user
    is attached to the data.
   */
  function ValidateLogin(c: Credentials, authenticate: (string, string) -> Option<User>)
    : (r: Result<LoginAttrs, SerializerError>)
    ensures r.Err? <==> authenticate(c.username, c.password).None?
    ensures r.Err? ==> r.error == Authorization
    ensures r.Ok? ==>
              r.value.username == c.username && r.value.password == c.password &&
              Some(r.value.user) == authenticate(c.username, c.password)
  {
    match authenticate(c.username, c.password)
    case None => Err(Authorization)
    case Some(u) => Ok(LoginAttrs(c.username, c.password, u))
  }
}
