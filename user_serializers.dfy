/** The user serializers: registration, profile update and login (user/serializers.py). */
module UserSerializers {

  import opened Common
  import opened Text
  import opened UserModels

  /** The writable fields of `UserSerializer` as they arrive in a request; `None` is absent. */
  datatype UserData = UserData(
    email: Option<string>,
    password: Option<string>,
    username: Option<string>,
    firstName: Option<string>,
    lastName: Option<string>,
    bio: Option<string>)

  const PasswordMinLength := 8     // extra_kwargs: "min_length": 8
  const PasswordMaxLength := 128   // AbstractBaseUser.password: max_length=128
  const NameMaxLength := 150       // AbstractUser.first_name / last_name: max_length=150
  const EmailMaxLength := 254      // models.EmailField: max_length=254

  predicate EmailTaken(users: map<UserId, User>, email: string) {
    exists id :: id in users && users[id].email == email
  }

  predicate UsernameTaken(users: map<UserId, User>, username: string) {
    exists id :: id in users && users[id].username == username
  }

  /** The rows a `UniqueValidator` compares against: every row but the instance being updated. */
  function Others(users: map<UserId, User>, instance: Option<UserId>): map<UserId, User> {
    if instance.Some? then users - {instance.value} else users
  }

  /** The writable fields, as the serializer's error dictionary names them. */
  datatype Field = Email | Password | Username | FirstName | LastName | Bio

  /** A present value as a `CharField` leaves it: stripped. */
  function Strip(v: Option<string>): Option<string> {
    if v.Some? then Some(Trim(v.value)) else None
  }

  function Stripped(d: UserData): UserData {
    UserData(Strip(d.email), Strip(d.password), Strip(d.username), Strip(d.firstName), Strip(d.lastName), Strip(d.bio))
  }

  /** One field through its `CharField`: an absent value passes unless the field is required,
      a present one must clean. */
  predicate FieldPasses(v: Option<string>, required: bool, allowBlank: bool, minLength: nat, maxLength: nat) {
    if v == None then !required else CleanChar(v.value, allowBlank, minLength, maxLength).Ok?
  }

  /** The email field: its `EmailField` and its `UniqueValidator`. */
  predicate EmailPasses(others: map<UserId, User>, partial: bool, v: Option<string>) {
    && FieldPasses(v, !partial, false, 0, EmailMaxLength)
    && !(v.Some? && Trim(v.value) != [] && EmailTaken(others, Trim(v.value)))
  }

  /** The username field: its `CharField` and its `UniqueValidator`, which a blank value never reaches. */
  predicate UsernamePasses(others: map<UserId, User>, v: Option<string>) {
    && FieldPasses(v, false, true, 0, UsernameMaxLength)
    && !(v.Some? && Trim(v.value) != [] && UsernameTaken(others, Trim(v.value)))
  }

  /** An optional text of at most `n` characters with no NUL. */
  predicate Fits(s: Option<string>, n: nat) {
    s.Some? ==> |s.value| <= n && '\0' !in s.value
  }

  /** A stripped email: required unless `partial`, non-empty, short enough, and held by no other row. */
  predicate EmailOk(others: map<UserId, User>, partial: bool, c: Option<string>) {
    && (c == None ==> partial)
    && (c.Some? ==> c.value != "" && Fits(c, EmailMaxLength) && !EmailTaken(others, c.value))
  }

  /** A stripped password: required unless `partial`, with 8 to 128 characters. */
  predicate PasswordOk(partial: bool, c: Option<string>) {
    && (c == None ==> partial)
    && (c.Some? ==> PasswordMinLength <= |c.value| && Fits(c, PasswordMaxLength))
  }

  /** A stripped username: short enough and, unless empty, held by no other row. */
  predicate UsernameOk(others: map<UserId, User>, c: Option<string>) {
    c.Some? ==> Fits(c, UsernameMaxLength) && (c.value != "" ==> !UsernameTaken(others, c.value))
  }

  /** What validation demands of the stripped data `c`, field by field. */
  predicate Acceptable(others: map<UserId, User>, partial: bool, c: UserData) {
    && EmailOk(others, partial, c.email)
    && PasswordOk(partial, c.password)
    && UsernameOk(others, c.username)
    && Fits(c.firstName, NameMaxLength) && Fits(c.lastName, NameMaxLength) && Fits(c.bio, BioMaxLength)
  }

  /** The fields `is_valid()` of `UserSerializer` (registration, `instance` None) or
      `UserUpdateSerializer` (an update of `instance`) rejects. Each value is stripped first; a
      blank email or password is refused, a blank name becomes ''; the bounds and the unique
      columns are checked on the stripped value; with `partial` (PATCH) nothing is required. */
  function ValidationErrors(users: map<UserId, User>, instance: Option<UserId>, partial: bool, d: UserData): (r: set<Field>)
    ensures !partial && d.email == None ==> Email in r
    ensures !partial && d.password == None ==> Password in r
    ensures d.email.Some? && Trim(d.email.value) != [] && EmailTaken(Others(users, instance), Trim(d.email.value)) ==> Email in r
    ensures d.username.Some? && Trim(d.username.value) != [] && UsernameTaken(Others(users, instance), Trim(d.username.value)) ==>
      Username in r
  {
    var others := Others(users, instance);
    (if EmailPasses(others, partial, d.email) then {} else {Email})
    + (if FieldPasses(d.password, !partial, false, PasswordMinLength, PasswordMaxLength) then {} else {Password})
    + (if UsernamePasses(others, d.username) then {} else {Username})
    + (if FieldPasses(d.firstName, false, true, 0, NameMaxLength) then {} else {FirstName})
    + (if FieldPasses(d.lastName, false, true, 0, NameMaxLength) then {} else {LastName})
    + (if FieldPasses(d.bio, false, true, 0, BioMaxLength) then {} else {Bio})
  }

  /** An optional field that allows blank passes exactly when its stripped value fits. */
  lemma OptionalFieldIff(v: Option<string>, n: nat)
    ensures FieldPasses(v, false, true, 0, n) <==> Fits(Strip(v), n)
  {
  }

  /** Validation passes exactly when the stripped data is acceptable. */
  lemma ValidationErrorsIffAcceptable(users: map<UserId, User>, instance: Option<UserId>, partial: bool, d: UserData)
    ensures ValidationErrors(users, instance, partial, d) == {} <==> Acceptable(Others(users, instance), partial, Stripped(d))
  {
    var others := Others(users, instance);
    assert EmailPasses(others, partial, d.email) <==> EmailOk(others, partial, Strip(d.email));
    assert FieldPasses(d.password, !partial, false, PasswordMinLength, PasswordMaxLength) <==> PasswordOk(partial, Strip(d.password));
    assert UsernamePasses(others, d.username) <==> UsernameOk(others, Strip(d.username));
    OptionalFieldIff(d.firstName, NameMaxLength);
    OptionalFieldIff(d.lastName, NameMaxLength);
    OptionalFieldIff(d.bio, BioMaxLength);
  }

  /** The keyword arguments `create_user(**validated_data)` receives besides email and password. */
  function ExtraOf(d: UserData): ExtraFields {
    ExtraFields(d.username, None, None, d.firstName, d.lastName, d.bio)
  }

  /** Registration: validate, then `UserSerializer.create`, which goes through `create_user`
      with the stripped values. Once validation passes, only the database can refuse. */
  method Register(store: UserStore, d: UserData, sv: Services) returns (r: Result<UserId>)
    requires store.Valid()
    modifies store
    ensures store.Valid()
    ensures ValidationErrors(old(store.users), None, false, d) != {} ==>
      r.Err? && r.error.ValidationError? && unchanged(store)
    ensures ValidationErrors(old(store.users), None, false, d) == {} ==>
      var c := Stripped(d);
      && c.email.Some? && NewUserObject(c.email, c.password, ExtraOf(c).(isStaff := Some(false), isSuperuser := Some(false)), sv).Ok?
      && store.Inserted(NewUserObject(c.email, c.password, ExtraOf(c).(isStaff := Some(false), isSuperuser := Some(false)), sv).value, r)
    ensures r.Ok? ==> r.value in store.users
    ensures r.Ok? ==>
      && d.email.Some? && d.password.Some?
      && store.users[r.value].email == sv.normalizeEmail(Trim(d.email.value))
      && store.users[r.value].password == sv.makePassword(Some(Trim(d.password.value)))
      && !store.users[r.value].isStaff && !store.users[r.value].isSuperuser
  {
    var errors := ValidationErrors(store.users, None, false, d);
    if errors != {} {
      return Err(ValidationError("Invalid fields."));
    }
    ValidationErrorsIffAcceptable(store.users, None, false, d);
    var c := Stripped(d);
    r := CreateUser(store, c.email, c.password, ExtraOf(c), sv);
  }

  /** A username derived from the email is not checked by the username validators: whenever
      the local part of the normalised email is, once normalised, another user's username,
      a registration with no username passes validation and then violates the unique username. */
  lemma DerivedUsernameCollision(users: map<UserId, User>, x: UserId, email: string, password: string, sv: Services)
    requires x in users
    requires Trim(email) != [] && |Trim(email)| <= EmailMaxLength && '\0' !in Trim(email)
    requires PasswordMinLength <= |Trim(password)| <= PasswordMaxLength && '\0' !in Trim(password)
    requires !EmailTaken(users, Trim(email)) && !EmailTaken(users, sv.normalizeEmail(Trim(email)))
    requires sv.normalizeUsername(BeforeFirst(sv.normalizeEmail(Trim(email)), '@')) == users[x].username
    ensures var d := UserData(Some(email), Some(password), None, None, None, None);
      var c := Stripped(d);
      var obj := NewUserObject(c.email, c.password, ExtraOf(c).(isStaff := Some(false), isSuperuser := Some(false)), sv);
      && ValidationErrors(users, None, false, d) == {}
      && obj.Ok?
      && UniqueViolation(users, obj.value) == Some("username")
  {
    var d := UserData(Some(email), Some(password), None, None, None, None);
    var c := Stripped(d);
    assert Acceptable(Others(users, None), false, c);
    ValidationErrorsIffAcceptable(users, None, false, d);
    var obj := NewUserObject(c.email, c.password, ExtraOf(c).(isStaff := Some(false), isSuperuser := Some(false)), sv);
    assert users[x].username == obj.value.username;
  }

  /** `ModelSerializer.update`: set every field present in the data on the instance. */
  function ApplyFields(u: User, d: UserData): (r: User)
    ensures r.password == u.password
  {
    u.(email := d.email.GetOr(u.email),
       username := d.username.GetOr(u.username),
       firstName := d.firstName.GetOr(u.firstName),
       lastName := d.lastName.GetOr(u.lastName),
       bio := d.bio.GetOr(u.bio))
  }

  /** Changing only the password of a row never violates a unique constraint. */
  lemma PasswordChangeIsUnique(users: map<UserId, User>, id: UserId, p: string)
    requires UniqueColumns(users) && id in users
    ensures UniqueViolation(users - {id}, users[id].(password := p)) == None
  {
    var others := users - {id};
    forall x | x in others
      ensures others[x].email != users[id].email && others[x].username != users[id].username
    {
    }
  }

  /** The row `UserSerializer.update` leaves: the given fields written, and the password
      replaced by the hash of the given one only when that is non-empty. */
  function UpdatedRow(u: User, d: UserData, sv: Services): (r: User)
    ensures r.(password := u.password) == ApplyFields(u, d)
    ensures r.password == if d.password.Some? && d.password.value != "" then sv.makePassword(d.password) else u.password
  {
    var v := ApplyFields(u, d);
    if d.password.Some? && d.password.value != "" then v.(password := sv.makePassword(d.password)) else v
  }

  /** `UserSerializer.update`: the password is popped from the data, the other fields are
      written and saved, and then, only for a non-empty password, `set_password` stores its
      hash and saves again. A unique constraint can refuse only the first save. */
  method UpdateUser(store: UserStore, id: UserId, d: UserData, sv: Services) returns (r: Result<UserId>)
    requires store.Valid() && id in store.users
    modifies store`users
    ensures store.Valid()
    ensures var violation := UniqueViolation(old(store.users) - {id}, ApplyFields(old(store.users[id]), d));
      violation.Some? ==> r == Err(IntegrityError(violation.value)) && store.users == old(store.users)
    ensures var violation := UniqueViolation(old(store.users) - {id}, ApplyFields(old(store.users[id]), d));
      violation.None? ==> r == Ok(id) && store.users == old(store.users)[id := UpdatedRow(old(store.users[id]), d, sv)]
  {
    ghost var before := store.users;
    var u := ApplyFields(store.users[id], d);
    r := store.Update(id, u);
    if r.Err? {
      return;
    }
    if d.password.Some? && d.password.value != "" {
      var hash := sv.makePassword(d.password);
      SetPassword(store, id, hash);
      RewriteTwice(before, id, u, u.(password := hash));
      assert UpdatedRow(before[id], d, sv) == u.(password := hash);
    }
  }

  /** Two writes of the same row leave what the second wrote. */
  lemma RewriteTwice(users: map<UserId, User>, id: UserId, u: User, v: User)
    ensures users[id := u][id := v] == users[id := v]
  {
  }

  /** `user.set_password(password)` followed by `user.save()`: only the password column of
      the row changes, and no unique constraint can refuse it. */
  method SetPassword(store: UserStore, id: UserId, hash: string)
    requires store.Valid() && id in store.users
    modifies store`users
    ensures store.Valid()
    ensures store.users == old(store.users)[id := old(store.users)[id].(password := hash)]
  {
    PasswordChangeIsUnique(store.users, id, hash);
    var r := store.Update(id, store.users[id].(password := hash));
  }

  /** Once `UserUpdateSerializer` has accepted the stripped data `c`, the first save of the
      update can clash with another row only on a username the data emptied: a given email and
      a given non-empty username are held by no other row, and a kept value was already unique. */
  lemma ValidatedUpdateClash(users: map<UserId, User>, id: UserId, partial: bool, c: UserData)
    requires UniqueColumns(users) && id in users
    requires Acceptable(users - {id}, partial, c)
    ensures var violation := UniqueViolation(users - {id}, ApplyFields(users[id], c));
      violation.Some? ==> violation == Some("username") && c.username == Some("")
  {
    var u := ApplyFields(users[id], c);
    EmailStaysApart(users, id, partial, c);
    assert !exists x :: x in users - {id} && (users - {id})[x].email == u.email;
    if c.username != Some("") {
      UsernameStaysApart(users, id, c);
      assert !exists x :: x in users - {id} && (users - {id})[x].username == u.username;
    }
  }

  /** An acceptable email written over row `id`, or the kept one, is held by no other row. */
  lemma EmailStaysApart(users: map<UserId, User>, id: UserId, partial: bool, c: UserData)
    requires UniqueColumns(users) && id in users
    requires EmailOk(users - {id}, partial, c.email)
    ensures forall x :: x in users - {id} ==> (users - {id})[x].email != ApplyFields(users[id], c).email
  {
    forall x | x in users - {id}
      ensures (users - {id})[x].email != ApplyFields(users[id], c).email
    {
      assert x != id;
    }
  }

  /** An acceptable username that is not emptied, or the kept one, is held by no other row. */
  lemma UsernameStaysApart(users: map<UserId, User>, id: UserId, c: UserData)
    requires UniqueColumns(users) && id in users
    requires UsernameOk(users - {id}, c.username) && c.username != Some("")
    ensures forall x :: x in users - {id} ==> (users - {id})[x].username != ApplyFields(users[id], c).username
  {
    forall x | x in users - {id}
      ensures (users - {id})[x].username != ApplyFields(users[id], c).username
    {
      assert x != id;
    }
  }

  /** The attributes `UserTokenSerializer.validate` receives and returns. */
  datatype LoginAttrs = LoginAttrs(email: Option<string>, password: Option<string>, user: Option<UserId>)

  const MustInclude := "Must include \"email\" and \"password\"."
  const BadCredentials := "Unable to log in with provided credentials."

  predicate Given(s: Option<string>) {
    s.Some? && s.value != ""
  }

  /** `UserTokenSerializer.validate`, with the authentication backend as a parameter
      (it answers None for unknown, wrong or inactive credentials). */
  function ValidateLogin(attrs: LoginAttrs, authenticate: (string, string) -> Option<UserId>): (r: Result<LoginAttrs>)
    ensures r.Ok? <==>
      Given(attrs.email) && Given(attrs.password) && authenticate(attrs.email.value, attrs.password.value).Some?
    ensures !(Given(attrs.email) && Given(attrs.password)) ==> r == Err(ValidationError(MustInclude))
    ensures Given(attrs.email) && Given(attrs.password) && authenticate(attrs.email.value, attrs.password.value) == None ==>
      r == Err(ValidationError(BadCredentials))
    ensures r.Ok? ==>
      && r.value.user == authenticate(attrs.email.value, attrs.password.value)
      && r.value.email == attrs.email && r.value.password == attrs.password
  {
    if Given(attrs.email) && Given(attrs.password) then
      var user := authenticate(attrs.email.value, attrs.password.value);
      if user == None then Err(ValidationError(BadCredentials))
      else Ok(attrs.(user := user))
    else
      Err(ValidationError(MustInclude))
  }

  /** `UserTokenSerializer.is_valid()`: the email `CharField` strips the value and refuses a
      missing or blank one; the password field of `AuthTokenSerializer` keeps the value as sent
      (`trim_whitespace=False`) and refuses a missing or empty one; both refuse a NUL character.
      Only then does `validate` run, on the cleaned attributes. The email field has no
      `max_length`, so the bound passed to `CleanChar` is the raw length, which never binds. */
  function Login(email: Option<string>, password: Option<string>, authenticate: (string, string) -> Option<UserId>)
    : (r: Result<LoginAttrs>)
    ensures r.Ok? <==>
      && email.Some? && Trim(email.value) != [] && '\0' !in Trim(email.value)
      && password.Some? && password.value != "" && '\0' !in password.value
      && authenticate(Trim(email.value), password.value).Some?
    ensures r.Ok? ==>
      r.value == LoginAttrs(Some(Trim(email.value)), password, authenticate(Trim(email.value), password.value))
    ensures email == None ==> r == Err(ValidationError(RequiredMessage))
    ensures r != Err(ValidationError(MustInclude))
  {
    if email == None then Err(ValidationError(RequiredMessage))
    else
      var cleaned := CleanChar(email.value, false, 0, |email.value|);
      if cleaned.Err? then Err(cleaned.error)
      else if password == None then Err(ValidationError(RequiredMessage))
      else if password.value == "" then Err(ValidationError(BlankMessage))
      else if '\0' in password.value then Err(ValidationError(NullCharacterMessage))
      else ValidateLogin(LoginAttrs(Some(cleaned.value), password, None), authenticate)
  }
}
