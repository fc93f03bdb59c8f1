/** `IsOwnerOrReadOnly`: reads for everyone, writes for authenticated users, and changes to a
    post or comment only for its owner (content/permissions.py). */
module Permissions {

  import opened Common

  datatype Method = GET | HEAD | OPTIONS | POST | PUT | PATCH | DELETE

  /** DRF's `SAFE_METHODS`. */
  predicate IsSafe(m: Method) {
    m == GET || m == HEAD || m == OPTIONS
  }

  /** `request.user`: the anonymous user or an authenticated account. */
  datatype RequestUser = Anonymous | Authenticated(id: UserId)

  /** `has_permission`: safe methods for anyone, the others for an authenticated user. */
  function HasPermission(m: Method, user: RequestUser): (r: bool)
    ensures IsSafe(m) ==> r
    ensures !IsSafe(m) ==> (r <==> user.Authenticated?)
  {
    if IsSafe(m) then true else user.Authenticated?
  }

  /** `has_object_permission`: safe methods for anyone, the others only when the object's
      `user` is the requesting user (the anonymous user owns nothing). */
  function HasObjectPermission(m: Method, user: RequestUser, owner: UserId): (r: bool)
    ensures IsSafe(m) ==> r
    ensures !IsSafe(m) ==> (r <==> user == Authenticated(owner))
  {
    if IsSafe(m) then true else user == Authenticated(owner)
  }

  /** DRF checks the view permission, then the object permission: the check a request to
      change or read one post or comment passes. */
  function MayAccessObject(m: Method, user: RequestUser, owner: UserId): bool {
    HasPermission(m, user) && HasObjectPermission(m, user, owner)
  }

  /** A write to a post or comment gets through exactly for its authenticated owner;
      an anonymous user and an authenticated non-owner are refused, and reads always pass. */
  lemma WriteOnlyByOwner(m: Method, user: RequestUser, owner: UserId)
    ensures IsSafe(m) ==> MayAccessObject(m, user, owner)
    ensures !IsSafe(m) ==> (MayAccessObject(m, user, owner) <==> user.Authenticated? && user.id == owner)
    ensures !IsSafe(m) && user.Authenticated? && user.id != owner ==> !MayAccessObject(m, user, owner)
  {
  }
}
