/** The user views: the searchable user list, follow, unfollow and logout (user/views.py). */
module UserViews {

  import opened Common
  import opened Text
  import opened UserModels
  import UserSerializers

  /** The `username`, `first_name` and `last_name` query parameters of a request. */
  datatype UserQuery = UserQuery(username: Option<string>, firstName: Option<string>, lastName: Option<string>)

  /** A query parameter narrows the list only when it is present and non-empty. */
  predicate ParamMatches(param: Option<string>, field: string) {
    param == None || param == Some("") || IContains(field, param.value)
  }

  predicate MatchesQuery(u: User, q: UserQuery) {
    && ParamMatches(q.username, u.username)
    && ParamMatches(q.firstName, u.firstName)
    && ParamMatches(q.lastName, u.lastName)
  }

  /** `get_object()` on the view's queryset: the user must exist and pass the filters. */
  predicate Found(users: map<UserId, User>, id: UserId, q: UserQuery) {
    id in users && MatchesQuery(users[id], q)
  }

  const NotFound := Response(404, "No User matches the given query.")
  const CannotFollowSelf := Response(403, "You cannot follow yourself.")
  const AlreadyFollowing := Response(403, "You are already following this user.")
  const Followed := Response(200, "Successfully followed this user.")
  const CannotUnfollowSelf := Response(403, "You cannot unfollow yourself.")
  const NotFollowing := Response(403, "You aren't following this user.")
  const Unfollowed := Response(200, "Successfully unfollowed this user.")
  const LoggedOut := Response(200, "Successfully logged out.")
  const TokenNotFound := Response(404, "Token not found.")

  /** `UserViewSet.get_queryset`: the user list, narrowed by each non-empty parameter in turn. */
  method ListUsers(store: UserStore, q: UserQuery) returns (queryset: set<UserId>)
    ensures forall id :: id in queryset <==> id in store.users && MatchesQuery(store.users[id], q)
  {
    queryset := store.users.Keys;
    if q.username.Some? && q.username.value != "" {
      queryset := set id | id in queryset && IContains(store.users[id].username, q.username.value);
    }
    if q.firstName.Some? && q.firstName.value != "" {
      queryset := set id | id in queryset && IContains(store.users[id].firstName, q.firstName.value);
    }
    if q.lastName.Some? && q.lastName.value != "" {
      queryset := set id | id in queryset && IContains(store.users[id].lastName, q.lastName.value);
    }
  }

  /** The two `.add` calls of a successful follow. */
  function AddFollow(g: FollowGraph, actor: UserId, target: UserId): FollowGraph
    requires target in g.followers && actor in g.following
  {
    FollowGraph(
      g.followers[target := g.followers[target] + {actor}],
      g.following[actor := g.following[actor] + {target}])
  }

  /** The two `.remove` calls of a successful unfollow. */
  function RemoveFollow(g: FollowGraph, actor: UserId, target: UserId): FollowGraph
    requires target in g.followers && actor in g.following
  {
    FollowGraph(
      g.followers[target := g.followers[target] - {actor}],
      g.following[actor := g.following[actor] - {target}])
  }

  /** Following adds exactly the pair (actor, target) and keeps the two relations paired. */
  lemma AddFollowKeepsConsistent(g: FollowGraph, ids: set<UserId>, actor: UserId, target: UserId)
    requires Consistent(g, ids) && actor in ids && target in ids && actor != target
    ensures Consistent(AddFollow(g, actor, target), ids)
    ensures forall a, b :: Follows(AddFollow(g, actor, target), a, b) <==>
      Follows(g, a, b) || (a == actor && b == target)
  {
    var h := AddFollow(g, actor, target);
    forall a, b | a in ids && b in ids
      ensures a in h.followers[b] <==> b in h.following[a]
    {
      assert a in g.followers[b] <==> b in g.following[a];
    }
  }

  /** Unfollowing removes exactly the pair (actor, target) and keeps the relations paired. */
  lemma RemoveFollowKeepsConsistent(g: FollowGraph, ids: set<UserId>, actor: UserId, target: UserId)
    requires Consistent(g, ids) && actor in ids && target in ids
    ensures Consistent(RemoveFollow(g, actor, target), ids)
    ensures forall a, b :: Follows(RemoveFollow(g, actor, target), a, b) <==>
      Follows(g, a, b) && !(a == actor && b == target)
  {
    var h := RemoveFollow(g, actor, target);
    forall a, b | a in ids && b in ids
      ensures a in h.followers[b] <==> b in h.following[a]
    {
      assert a in g.followers[b] <==> b in g.following[a];
    }
  }

  /** A follow undone by an unfollow restores both relations. */
  lemma FollowThenUnfollowRestores(g: FollowGraph, ids: set<UserId>, actor: UserId, target: UserId)
    requires Consistent(g, ids) && actor in ids && target in ids && actor != target
    requires actor !in g.followers[target]
    ensures var h := AddFollow(g, actor, target);
      target in h.followers && actor in h.following && RemoveFollow(h, actor, target) == g
  {
    var h := AddFollow(g, actor, target);
    assert target !in g.following[actor];
    assert h.followers[target] - {actor} == g.followers[target];
    assert h.following[actor] - {target} == g.following[actor];
    assert RemoveFollow(h, actor, target).followers == g.followers;
    assert RemoveFollow(h, actor, target).following == g.following;
  }

  /** An unfollow undone by a follow restores both relations. */
  lemma UnfollowThenFollowRestores(g: FollowGraph, ids: set<UserId>, actor: UserId, target: UserId)
    requires Consistent(g, ids) && actor in ids && target in ids
    requires actor in g.followers[target]
    ensures var h := RemoveFollow(g, actor, target);
      target in h.followers && actor in h.following && AddFollow(h, actor, target) == g
  {
    var h := RemoveFollow(g, actor, target);
    assert target in g.following[actor];
    assert h.followers[target] + {actor} == g.followers[target];
    assert h.following[actor] + {target} == g.following[actor];
    assert AddFollow(h, actor, target).followers == g.followers;
    assert AddFollow(h, actor, target).following == g.following;
  }

  /** Storing a consistent follow graph: the `.add` or `.remove` pair of a view. */
  method WriteGraph(store: UserStore, g: FollowGraph)
    requires store.Valid() && Consistent(g, store.users.Keys)
    modifies store`followers, store`following
    ensures store.Valid() && store.Graph() == g
  {
    store.followers, store.following := g.followers, g.following;
  }

  /** `UserViewSet.follow`: the authenticated `actor` follows the user `target`. */
  method Follow(store: UserStore, actor: UserId, target: UserId, q: UserQuery) returns (r: Response)
    requires store.Valid() && actor in store.users
    modifies store`followers, store`following
    ensures store.Valid()
    ensures !Found(store.users, target, q) ==> r == NotFound && store.Graph() == old(store.Graph())
    ensures Found(store.users, target, q) && actor == target ==>
      r == CannotFollowSelf && store.Graph() == old(store.Graph())
    ensures Found(store.users, target, q) && actor != target && actor in old(store.followers[target]) ==>
      r == AlreadyFollowing && store.Graph() == old(store.Graph())
    ensures Found(store.users, target, q) && actor != target && actor !in old(store.followers[target]) ==>
      r == Followed && store.Graph() == AddFollow(old(store.Graph()), actor, target)
  {
    if !Found(store.users, target, q) {
      return NotFound;
    }
    if actor == target {
      return CannotFollowSelf;
    }
    if actor in store.followers[target] {
      return AlreadyFollowing;
    }
    AddFollowKeepsConsistent(store.Graph(), store.users.Keys, actor, target);
    WriteGraph(store, AddFollow(store.Graph(), actor, target));
    r := Followed;
  }

  /** `UserViewSet.unfollow`: the authenticated `actor` stops following the user `target`. */
  method Unfollow(store: UserStore, actor: UserId, target: UserId, q: UserQuery) returns (r: Response)
    requires store.Valid() && actor in store.users
    modifies store`followers, store`following
    ensures store.Valid()
    ensures !Found(store.users, target, q) ==> r == NotFound && store.Graph() == old(store.Graph())
    ensures Found(store.users, target, q) && actor == target ==>
      r == CannotUnfollowSelf && store.Graph() == old(store.Graph())
    ensures Found(store.users, target, q) && actor != target && actor !in old(store.followers[target]) ==>
      r == NotFollowing && store.Graph() == old(store.Graph())
    ensures Found(store.users, target, q) && actor != target && actor in old(store.followers[target]) ==>
      r == Unfollowed && store.Graph() == RemoveFollow(old(store.Graph()), actor, target)
  {
    if !Found(store.users, target, q) {
      return NotFound;
    }
    if actor == target {
      return CannotUnfollowSelf;
    }
    if actor !in store.followers[target] {
      return NotFollowing;
    }
    RemoveFollowKeepsConsistent(store.Graph(), store.users.Keys, actor, target);
    WriteGraph(store, RemoveFollow(store.Graph(), actor, target));
    r := Unfollowed;
  }

  /** `ManageUserView` on PUT (`partial` false) and PATCH (`partial` true) for the requesting
      user: `UserUpdateSerializer` validates the data against the other users, then its
      `update` writes the stripped values. */
  method UpdateProfile(store: UserStore, actor: UserId, d: UserSerializers.UserData, partial: bool, sv: Services)
    returns (r: Result<UserId>)
    requires store.Valid() && actor in store.users
    modifies store`users
    ensures store.Valid()
    ensures UserSerializers.ValidationErrors(old(store.users), Some(actor), partial, d) != {} ==>
      r.Err? && r.error.ValidationError? && store.users == old(store.users)
    ensures UserSerializers.ValidationErrors(old(store.users), Some(actor), partial, d) == {} ==>
      var c := UserSerializers.Stripped(d);
      var violation := UniqueViolation(old(store.users) - {actor}, UserSerializers.ApplyFields(old(store.users[actor]), c));
      && (violation.Some? ==> r == Err(IntegrityError(violation.value)) && store.users == old(store.users))
      && (violation.None? ==>
            r == Ok(actor) && store.users == old(store.users)[actor := UserSerializers.UpdatedRow(old(store.users[actor]), c, sv)])
    ensures r.Err? && r.error.IntegrityError? ==>
      r.error == IntegrityError("username") && d.username.Some? && Trim(d.username.value) == []
  {
    var errors := UserSerializers.ValidationErrors(store.users, Some(actor), partial, d);
    if errors != {} {
      return Err(ValidationError("Invalid fields."));
    }
    UserSerializers.ValidationErrorsIffAcceptable(store.users, Some(actor), partial, d);
    UserSerializers.ValidatedUpdateClash(store.users, actor, partial, UserSerializers.Stripped(d));
    r := UserSerializers.UpdateUser(store, actor, UserSerializers.Stripped(d), sv);
  }

  /** `LogoutUserView.post`: delete the actor's token if there is one. */
  method Logout(store: UserStore, actor: UserId) returns (r: Response)
    requires store.Valid() && actor in store.users
    modifies store`tokens
    ensures store.Valid()
    ensures actor in old(store.tokens) ==> r == LoggedOut && store.tokens == old(store.tokens) - {actor}
    ensures actor !in old(store.tokens) ==> r == TokenNotFound && store.tokens == old(store.tokens)
  {
    if actor !in store.tokens {
      return TokenNotFound;
    }
    store.tokens := store.tokens - {actor};
    r := LoggedOut;
  }
}
