/** The custom `User` model, its manager, its upload path, and the table of users with the
    two follow relations (user/models.py). */
module UserModels {

  import opened Common
  import opened Text

  /** A row of the user table: the `User` fields and the `AbstractUser` fields the core uses.
      `password` holds what `make_password` returned, never the raw password. */
  datatype User = User(
    email: string,
    username: string,
    password: string,
    firstName: string,
    lastName: string,
    bio: string,
    image: string,
    isStaff: bool,
    isSuperuser: bool,
    isActive: bool)

  /** The keyword arguments the manager passes on to `User(...)`; `None` is an absent key. */
  datatype ExtraFields = ExtraFields(
    username: Option<string>,
    isStaff: Option<bool>,
    isSuperuser: Option<bool>,
    firstName: Option<string>,
    lastName: Option<string>,
    bio: Option<string>)

  /** Django services the manager calls and this model does not define. */
  datatype Services = Services(
    normalizeEmail: string -> string,        // BaseUserManager.normalize_email
    normalizeUsername: string -> string,     // AbstractBaseUser.normalize_username
    makePassword: Option<string> -> string)  // django.contrib.auth.hashers.make_password

  const EmailRequired := "The given email must be set"
  const StaffRequired := "Superuser must have is_staff=True."
  const SuperuserRequired := "Superuser must have is_superuser=True."
  const UsernameMaxLength := 150
  const BioMaxLength := 255

  /** The model's `followers` and `following` fields: two independent many-to-many relations. */
  datatype FollowGraph = FollowGraph(
    followers: map<UserId, set<UserId>>,
    following: map<UserId, set<UserId>>)

  /** `a` follows `b`, read on the following side. */
  predicate Follows(g: FollowGraph, a: UserId, b: UserId) {
    a in g.following && b in g.following[a]
  }

  /** The pairing the views keep between the two relations: every user of `ids` has both
      sets, both hold only users of `ids`, `a` is among `b`'s followers exactly when `b` is
      among `a`'s following, and nobody follows themself. */
  ghost predicate Consistent(g: FollowGraph, ids: set<UserId>) {
    && g.followers.Keys == ids
    && g.following.Keys == ids
    && (forall u :: u in ids ==> g.followers[u] <= ids && g.following[u] <= ids)
    && (forall a, b :: a in ids && b in ids ==> (a in g.followers[b] <==> b in g.following[a]))
    && (forall u :: u in ids ==> u !in g.followers[u])
  }

  /** The `unique=True` constraints on `email` and `username`. */
  ghost predicate UniqueColumns(users: map<UserId, User>) {
    forall a, b :: a in users && b in users && a != b ==>
      users[a].email != users[b].email && users[a].username != users[b].username
  }

  /** The unique column that writing `u` next to the rows of `others` would violate, if any.
      The email constraint is reported first. */
  function UniqueViolation(others: map<UserId, User>, u: User): (r: Option<string>)
    ensures r == None <==>
      forall id :: id in others ==> others[id].email != u.email && others[id].username != u.username
  {
    if exists id :: id in others && others[id].email == u.email then Some("email")
    else if exists id :: id in others && others[id].username == u.username then Some("username")
    else None
  }

  /** The follow graph once user `id` and every pair it belonged to are deleted. */
  function WithoutUser(g: FollowGraph, id: UserId): FollowGraph {
    FollowGraph(
      map u | u in g.followers && u != id :: g.followers[u] - {id},
      map u | u in g.following && u != id :: g.following[u] - {id})
  }

  /** A user added with empty follow sets keeps the graph consistent. */
  lemma AddingUserKeepsConsistent(g: FollowGraph, ids: set<UserId>, id: UserId)
    requires Consistent(g, ids) && id !in ids
    ensures Consistent(FollowGraph(g.followers[id := {}], g.following[id := {}]), ids + {id})
  {
  }

  /** Deleting a user and its pairs keeps the graph consistent. */
  lemma RemovingUserKeepsConsistent(g: FollowGraph, ids: set<UserId>, id: UserId)
    requires Consistent(g, ids) && id in ids
    ensures Consistent(WithoutUser(g, id), ids - {id})
  {
    var h := WithoutUser(g, id);
    assert h.followers.Keys == ids - {id};
    assert h.following.Keys == ids - {id};
  }

  /** A row that violates no unique constraint keeps the columns unique, whether it is
      added under a fresh key or replaces the row under its own key. */
  lemma WritingRowKeepsUnique(users: map<UserId, User>, id: UserId, u: User)
    requires UniqueColumns(users)
    requires UniqueViolation(users - {id}, u) == None
    ensures UniqueColumns(users[id := u])
  {
    var others := users - {id};
    var w := users[id := u];
    forall a, b | a in w && b in w && a != b
      ensures w[a].email != w[b].email && w[a].username != w[b].username
    {
      if a == id {
        assert b in others;
      } else if b == id {
        assert a in others;
      }
    }
  }

  /** What the tables always satisfy: the unique columns, the paired follow relations over
      exactly the stored users, tokens only for stored users, and keys below the next key. */
  ghost predicate ValidTables(users: map<UserId, User>, g: FollowGraph, tokens: map<UserId, string>, nextId: UserId) {
    && UniqueColumns(users)
    && Consistent(g, users.Keys)
    && tokens.Keys <= users.Keys
    && (forall id :: id in users ==> id < nextId)
  }

  /** Inserting a row that violates no unique constraint under the next key, with empty follow
      sets, keeps the tables valid. */
  lemma InsertingRowKeepsValid(users: map<UserId, User>, g: FollowGraph, tokens: map<UserId, string>, nextId: UserId, u: User)
    requires ValidTables(users, g, tokens, nextId)
    requires UniqueViolation(users, u) == None
    ensures ValidTables(users[nextId := u], FollowGraph(g.followers[nextId := {}], g.following[nextId := {}]), tokens, nextId + 1)
  {
    AddingUserKeepsConsistent(g, users.Keys, nextId);
    assert users - {nextId} == users;
    WritingRowKeepsUnique(users, nextId, u);
    assert users[nextId := u].Keys == users.Keys + {nextId};
  }

  /** Deleting a row with its token and its follow pairs keeps the tables valid. */
  lemma DeletingRowKeepsValid(users: map<UserId, User>, g: FollowGraph, tokens: map<UserId, string>, nextId: UserId, id: UserId)
    requires ValidTables(users, g, tokens, nextId) && id in users
    ensures ValidTables(users - {id}, WithoutUser(g, id), tokens - {id}, nextId)
  {
    RemovingUserKeepsConsistent(g, users.Keys, id);
    assert (users - {id}).Keys == users.Keys - {id};
  }

  /** The user table, its two follow relations and the authtoken table (at most one token
      per user). */
  class UserStore {
    var users: map<UserId, User>
    var followers: map<UserId, set<UserId>>
    var following: map<UserId, set<UserId>>
    var tokens: map<UserId, string>
    var nextId: UserId

    function Graph(): FollowGraph
      reads this
    {
      FollowGraph(followers, following)
    }

    ghost predicate Valid()
      reads this
    {
      ValidTables(users, Graph(), tokens, nextId)
    }

    constructor ()
      ensures Valid()
      ensures users == map[] && tokens == map[]
    {
      users, followers, following, tokens := map[], map[], map[], map[];
      nextId := 0;
    }

    /** The outcome of saving the new row `u`: refused by a unique constraint with nothing
        written, or stored under the next primary key with empty follow sets. */
    twostate predicate Inserted(u: User, new r: Result<UserId>)
      reads this
    {
      && tokens == old(tokens)
      && match UniqueViolation(old(users), u)
         case Some(column) =>
           && r == Err(IntegrityError(column))
           && users == old(users) && Graph() == old(Graph()) && nextId == old(nextId)
         case None =>
           && r == Ok(old(nextId))
           && users == old(users)[old(nextId) := u]
           && followers == old(followers)[old(nextId) := {}]
           && following == old(following)[old(nextId) := {}]
           && nextId == old(nextId) + 1
    }

    /** `user.save()` of a new user: the INSERT. */
    method Insert(u: User) returns (r: Result<UserId>)
      requires Valid()
      modifies this
      ensures Valid()
      ensures Inserted(u, r)
    {
      var violation := UniqueViolation(users, u);
      if violation.Some? {
        return Err(IntegrityError(violation.value));
      }
      var id := nextId;
      var g := FollowGraph(followers[id := {}], following[id := {}]);
      InsertingRowKeepsValid(users, Graph(), tokens, nextId, u);
      users := users[id := u];
      followers, following := g.followers, g.following;
      assert Graph() == g;
      nextId := nextId + 1;
      r := Ok(id);
    }

    /** `user.save()` of an existing user: the UPDATE of row `id` to `u`, refused when
        another row already holds the email or the username. */
    method Update(id: UserId, u: User) returns (r: Result<UserId>)
      requires Valid() && id in users
      modifies this`users
      ensures Valid()
      ensures r.Ok? ==> users[id] == u
      ensures match UniqueViolation(old(users) - {id}, u)
              case Some(column) => r == Err(IntegrityError(column)) && users == old(users)
              case None => r == Ok(id) && users == old(users)[id := u]
    {
      var violation := UniqueViolation(users - {id}, u);
      if violation.Some? {
        return Err(IntegrityError(violation.value));
      }
      WritingRowKeepsUnique(users, id, u);
      users := users[id := u];
      r := Ok(id);
    }

    /** `user.delete()`: the row goes, with its token (on_delete=CASCADE) and every row of
        the two follow relations that mentions it. */
    method Delete(id: UserId)
      requires Valid() && id in users
      modifies this
      ensures Valid()
      ensures users == old(users) - {id} && tokens == old(tokens) - {id} && nextId == old(nextId)
      ensures Graph() == WithoutUser(old(Graph()), id)
    {
      var g := WithoutUser(Graph(), id);
      DeletingRowKeepsValid(users, Graph(), tokens, nextId, id);
      users := users - {id};
      followers, following := g.followers, g.following;
      assert Graph() == g;
      tokens := tokens - {id};
    }
  }

  /** `UserManager._create_user_object`: the user row built from the arguments, before it
      is saved. A missing or empty email is refused. */
  function NewUserObject(email: Option<string>, password: Option<string>, extra: ExtraFields, sv: Services)
    : (r: Result<User>)
    ensures r.Err? <==> email == None || email == Some("")
    ensures r.Err? ==> r.error == ValueError(EmailRequired)
    ensures r.Ok? ==> r.value.email == sv.normalizeEmail(email.value)
    ensures r.Ok? ==> r.value.password == sv.makePassword(password)
    ensures r.Ok? && (extra.username == None || extra.username == Some("")) ==>
      r.value.username == sv.normalizeUsername(BeforeFirst(r.value.email, '@'))
    ensures r.Ok? && extra.username.Some? && extra.username.value != "" ==>
      r.value.username == sv.normalizeUsername(extra.username.value)
    ensures r.Ok? ==>
      && r.value.isStaff == extra.isStaff.GetOr(false)
      && r.value.isSuperuser == extra.isSuperuser.GetOr(false)
      && r.value.isActive
  {
    if email == None || email == Some("") then Err(ValueError(EmailRequired))
    else
      var normalized := sv.normalizeEmail(email.value);
      var username :=
        if extra.username == None || extra.username == Some("") then BeforeFirst(normalized, '@')
        else extra.username.value;
      Ok(User(
        normalized, sv.normalizeUsername(username), sv.makePassword(password),
        extra.firstName.GetOr(""), extra.lastName.GetOr(""), extra.bio.GetOr(""), "",
        extra.isStaff.GetOr(false), extra.isSuperuser.GetOr(false), true))
  }

  /** `UserManager._create_user`: build the user object and save it. */
  method SaveNewUser(store: UserStore, email: Option<string>, password: Option<string>, extra: ExtraFields, sv: Services)
    returns (r: Result<UserId>)
    requires store.Valid()
    modifies store
    ensures store.Valid()
    ensures match NewUserObject(email, password, extra, sv)
            case Err(e) => r == Err(e) && unchanged(store)
            case Ok(u) => store.Inserted(u, r)
  {
    var obj := NewUserObject(email, password, extra, sv);
    if obj.Err? {
      return Err(obj.error);
    }
    r := store.Insert(obj.value);
  }

  /** `UserManager.create_user`: `is_staff` and `is_superuser` default to False. */
  method CreateUser(store: UserStore, email: Option<string>, password: Option<string>, extra: ExtraFields, sv: Services)
    returns (r: Result<UserId>)
    requires store.Valid()
    modifies store
    ensures store.Valid()
    ensures match NewUserObject(email, password, extra.(isStaff := Some(extra.isStaff.GetOr(false)),
                                                         isSuperuser := Some(extra.isSuperuser.GetOr(false))), sv)
            case Err(e) => r == Err(e) && unchanged(store)
            case Ok(u) => store.Inserted(u, r)
    ensures r.Ok? ==> r.value in store.users
    ensures r.Ok? ==>
      && store.users[r.value].isStaff == extra.isStaff.GetOr(false)
      && store.users[r.value].isSuperuser == extra.isSuperuser.GetOr(false)
  {
    var fields := extra;
    if fields.isStaff == None {
      fields := fields.(isStaff := Some(false));
    }
    if fields.isSuperuser == None {
      fields := fields.(isSuperuser := Some(false));
    }
    r := SaveNewUser(store, email, password, fields, sv);
  }

  /** `UserManager.create_superuser`: both flags default to True, and an explicit value
      other than True is refused before anything is saved. */
  method CreateSuperuser(store: UserStore, email: Option<string>, password: Option<string>, extra: ExtraFields, sv: Services)
    returns (r: Result<UserId>)
    requires store.Valid()
    modifies store
    ensures store.Valid()
    ensures extra.isStaff == Some(false) ==> r == Err(ValueError(StaffRequired)) && unchanged(store)
    ensures extra.isStaff != Some(false) && extra.isSuperuser == Some(false) ==>
      r == Err(ValueError(SuperuserRequired)) && unchanged(store)
    ensures extra.isStaff != Some(false) && extra.isSuperuser != Some(false) ==>
      match NewUserObject(email, password, extra.(isStaff := Some(true), isSuperuser := Some(true)), sv)
      case Err(e) => r == Err(e) && unchanged(store)
      case Ok(u) => store.Inserted(u, r)
    ensures r.Ok? ==> r.value in store.users
    ensures r.Ok? ==> store.users[r.value].isStaff && store.users[r.value].isSuperuser
  {
    var fields := extra;
    if fields.isStaff == None {
      fields := fields.(isStaff := Some(true));
    }
    if fields.isSuperuser == None {
      fields := fields.(isSuperuser := Some(true));
    }
    if fields.isStaff != Some(true) {
      assert extra.isStaff.Some? && !extra.isStaff.value;
      return Err(ValueError(StaffRequired));
    }
    if fields.isSuperuser != Some(true) {
      assert extra.isSuperuser.Some? && !extra.isSuperuser.value;
      return Err(ValueError(SuperuserRequired));
    }
    r := SaveNewUser(store, email, password, fields, sv);
  }

  /** `custom_image_path` for profile pictures. */
  function ProfileImagePath(id: Option<UserId>, uuid: string, filename: string): (r: string)
    requires IsUuidText(uuid)
    ensures r == "profile-pictures" + "/" + FinalComponent(r)
    ensures FinalComponent(r) == FormatId(id) + "-" + uuid + Suffix(FinalComponent(filename))
    ensures Suffix(FinalComponent(r)) == Suffix(FinalComponent(filename))
  {
    UploadPathShape("profile-pictures", id, uuid, filename);
    UploadPath("profile-pictures", id, uuid, filename)
  }
}
