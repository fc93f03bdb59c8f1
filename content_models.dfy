/** Posts and comments, their upload path, the sentinel owner, and what deleting a user does
    to the posts it owned (content/models.py). */
module ContentModels {

  import opened Common
  import opened Text
  import opened UserModels

  const TextMaxLength := 255
  const SentinelEmail := "deleted@deleted.com"

  /** A post. `likes`, `isPublished` and `scheduledAt` are the minimal fields the views and
      the publication task use. */
  datatype Post = Post(
    id: PostId,
    text: string,
    image: string,
    owner: UserId,
    postedAt: int,
    isPublished: bool,
    scheduledAt: Option<int>,
    likes: set<UserId>)

  /** A comment under the post `postId`. */
  datatype Comment = Comment(id: CommentId, text: string, owner: UserId, postId: PostId, postedAt: int)

  /** `ordering = ("-posted_at",)`: newest first. */
  predicate NewestFirst(s: seq<Post>) {
    forall i, j :: 0 <= i < j < |s| ==> s[i].postedAt >= s[j].postedAt
  }

  predicate DistinctIds(s: seq<Post>) {
    forall i, j :: 0 <= i < j < |s| ==> s[i].id != s[j].id
  }

  predicate DistinctCommentIds(s: seq<Comment>) {
    forall i, j :: 0 <= i < j < |s| ==> s[i].id != s[j].id
  }

  /** `custom_image_path` for post images. */
  function PostImagePath(id: Option<PostId>, uuid: string, filename: string): (r: string)
    requires IsUuidText(uuid)
    ensures r == "post-images" + "/" + FinalComponent(r)
    ensures FinalComponent(r) == FormatId(id) + "-" + uuid + Suffix(FinalComponent(filename))
    ensures Suffix(FinalComponent(r)) == Suffix(FinalComponent(filename))
  {
    UploadPathShape("post-images", id, uuid, filename);
    UploadPath("post-images", id, uuid, filename)
  }

  /** The head of a newest-first listing is at least as new as every later post. */
  lemma HeadIsNewest(s: seq<Post>)
    requires NewestFirst(s) && s != []
    ensures forall q :: q in s[1..] ==> s[0].postedAt >= q.postedAt
  {
    forall q | q in s[1..]
      ensures s[0].postedAt >= q.postedAt
    {
      var k :| 0 <= k < |s[1..]| && s[1..][k] == q;
      assert s[k + 1] == q;
    }
  }

  /** A post at least as new as every post of a newest-first listing can go in front of it. */
  lemma PrependNewestFirst(x: Post, rest: seq<Post>)
    requires NewestFirst(rest)
    requires forall q :: q in rest ==> x.postedAt >= q.postedAt
    ensures NewestFirst([x] + rest)
  {
    var r := [x] + rest;
    forall i, j | 0 <= i < j < |r|
      ensures r[i].postedAt >= r[j].postedAt
    {
      if i == 0 {
        assert r[j] in rest;
      } else {
        assert r[i] == rest[i - 1] && r[j] == rest[j - 1];
      }
    }
  }

  /** Every sub-sequence picked by a filter of a newest-first listing is newest first. */
  lemma {:induction false} FilterKeepsNewestFirst(s: seq<Post>, p: Post -> bool)
    ensures NewestFirst(s) ==> NewestFirst(Filter(s, p))
    decreases |s|
  {
    if s != [] && NewestFirst(s) {
      FilterKeepsNewestFirst(s[1..], p);
      HeadIsNewest(s);
      if p(s[0]) {
        PrependNewestFirst(s[0], Filter(s[1..], p));
      }
    }
  }

  /** Placing a post in a newest-first listing: before the first post that is not newer. */
  function InsertNewestFirst(s: seq<Post>, p: Post): (r: seq<Post>)
    requires NewestFirst(s)
    ensures NewestFirst(r)
    ensures |r| == |s| + 1
    ensures forall q :: q in r <==> q in s || q == p
    ensures multiset(r) == multiset(s) + multiset{p}
    decreases |s|
  {
    if s == [] || s[0].postedAt <= p.postedAt then
      HeadIsNewestOrEmpty(s, p);
      [p] + s
    else
      var rest := InsertNewestFirst(s[1..], p);
      HeadIsNewest(s);
      PrependNewestFirst(s[0], rest);
      assert s == [s[0]] + s[1..];
      [s[0]] + rest
  }

  /** A post no older than the head of a newest-first listing is no older than any of it. */
  lemma HeadIsNewestOrEmpty(s: seq<Post>, p: Post)
    requires NewestFirst(s)
    requires s == [] || s[0].postedAt <= p.postedAt
    ensures NewestFirst([p] + s)
  {
    if s != [] {
      HeadIsNewest(s);
      assert s == [s[0]] + s[1..];
    }
    PrependNewestFirst(p, s);
  }

  /** A post with an id no other post has keeps the ids distinct wherever it is placed. */
  lemma {:induction false} InsertKeepsDistinct(s: seq<Post>, p: Post)
    requires NewestFirst(s) && DistinctIds(s)
    requires forall q :: q in s ==> q.id != p.id
    ensures DistinctIds(InsertNewestFirst(s, p))
    decreases |s|
  {
    var r := InsertNewestFirst(s, p);
    if s == [] || s[0].postedAt <= p.postedAt {
      assert r == [p] + s;
      forall i, j | 0 <= i < j < |r|
        ensures r[i].id != r[j].id
      {
        if i == 0 {
          assert r[j] == s[j - 1];
        } else {
          assert r[i] == s[i - 1] && r[j] == s[j - 1];
        }
      }
    } else {
      var rest := InsertNewestFirst(s[1..], p);
      InsertKeepsDistinct(s[1..], p);
      assert r == [s[0]] + rest;
      forall q | q in rest
        ensures q.id != s[0].id
      {
        if q != p {
          var k :| 0 <= k < |s[1..]| && s[1..][k] == q;
          assert s[k + 1] == q;
        }
      }
      forall i, j | 0 <= i < j < |r|
        ensures r[i].id != r[j].id
      {
        if i == 0 {
          assert r[j] in rest;
        } else {
          assert r[i] == rest[i - 1] && r[j] == rest[j - 1];
        }
      }
    }
  }

  /** The stored posts (newest first) and comments, with the next primary keys. */
  class ContentStore {
    var posts: seq<Post>
    var comments: seq<Comment>
    var nextPostId: PostId
    var nextCommentId: CommentId

    ghost predicate Valid()
      reads this
    {
      && NewestFirst(posts)
      && DistinctIds(posts)
      && (forall i :: 0 <= i < |posts| ==> posts[i].id < nextPostId && |posts[i].text| <= TextMaxLength)
      && DistinctCommentIds(comments)
      && (forall i :: 0 <= i < |comments| ==> comments[i].id < nextCommentId)
    }

    constructor ()
      ensures Valid()
      ensures posts == [] && comments == []
    {
      posts, comments := [], [];
      nextPostId, nextCommentId := 0, 0;
    }

    /** `post.save()` of a new post: the INSERT under the next primary key, placed by its
        posting time. */
    method InsertPost(p: Post) returns (id: PostId)
      requires Valid() && |p.text| <= TextMaxLength
      modifies this`posts, this`nextPostId
      ensures Valid()
      ensures id == old(nextPostId) && nextPostId == id + 1
      ensures posts == InsertNewestFirst(old(posts), p.(id := id))
    {
      id := nextPostId;
      var row := p.(id := id);
      InsertKeepsDistinct(posts, row);
      var r := InsertNewestFirst(posts, row);
      assert forall i :: 0 <= i < |r| ==> r[i] in posts || r[i] == row;
      posts := r;
      nextPostId := nextPostId + 1;
    }
  }

  /** The row `get_or_create(email="deleted@deleted.com")` inserts: every other field has
      the model's default. */
  const SentinelUser := User(SentinelEmail, "", "", "", "", "", "", false, false, true)

  predicate IsSentinel(users: map<UserId, User>, id: UserId) {
    id in users && users[id].email == SentinelEmail
  }

  /** `get_sentinel_user`: the user with the sentinel email, created when there is none. */
  method GetSentinelUser(store: UserStore) returns (r: Result<UserId>)
    requires store.Valid()
    modifies store
    ensures store.Valid()
    ensures r.Ok? ==> IsSentinel(store.users, r.value)
    ensures r.Ok? ==> forall id :: IsSentinel(store.users, id) ==> id == r.value
    ensures (exists id :: IsSentinel(old(store.users), id)) ==> r.Ok? && unchanged(store)
    ensures (forall id :: !IsSentinel(old(store.users), id)) ==> store.Inserted(SentinelUser, r)
    ensures r.Err? || r.value in old(store.users) ==>
      store.users == old(store.users) && store.Graph() == old(store.Graph()) && store.tokens == old(store.tokens)
  {
    var existing := set id | id in store.users && store.users[id].email == SentinelEmail;
    if existing != {} {
      var id :| id in existing;
      assert IsSentinel(store.users, id);
      return Ok(id);
    }
    assert forall id :: IsSentinel(store.users, id) ==> id in existing;
    r := store.Insert(SentinelUser);
    if r.Err? {
      assert UniqueViolation(old(store.users), SentinelUser).Some?;
      assert store.Graph() == old(store.Graph());
    }
  }

  predicate OwnsPosts(posts: seq<Post>, id: UserId) {
    exists i :: 0 <= i < |posts| && posts[i].owner == id
  }

  /** `on_delete=models.SET(get_sentinel_user)`: the owner `from` becomes `to`. */
  function Reassigned(posts: seq<Post>, from: UserId, to: UserId): (r: seq<Post>)
    ensures |r| == |posts|
    ensures forall i :: 0 <= i < |r| ==> r[i].(owner := posts[i].owner) == posts[i]
    ensures forall i :: 0 <= i < |r| ==> posts[i].owner != from ==> r[i].owner == posts[i].owner
    ensures forall i :: 0 <= i < |r| ==> posts[i].owner == from ==> r[i].owner == to
  {
    seq(|posts|, i requires 0 <= i < |posts| =>
      if posts[i].owner == from then posts[i].(owner := to) else posts[i])
  }

  /** The rows of the `likes` relation that mention a deleted user go with it. */
  function WithoutLiker(posts: seq<Post>, id: UserId): (r: seq<Post>)
    ensures |r| == |posts|
    ensures forall i :: 0 <= i < |r| ==> r[i].(likes := posts[i].likes) == posts[i]
    ensures forall i :: 0 <= i < |r| ==> r[i].likes == posts[i].likes - {id}
  {
    seq(|posts|, i requires 0 <= i < |posts| => posts[i].(likes := posts[i].likes - {id}))
  }

  /** The posts after user `id` is deleted with `s` as the sentinel: its likes are gone and
      the posts it owned belong to the sentinel. */
  function PostsAfterDelete(posts: seq<Post>, id: UserId, s: UserId): (r: seq<Post>)
    ensures |r| == |posts|
    ensures forall i :: 0 <= i < |r| ==>
      r[i].id == posts[i].id && r[i].text == posts[i].text && r[i].postedAt == posts[i].postedAt
    ensures forall i :: 0 <= i < |r| ==>
      r[i] == posts[i].(owner := r[i].owner, likes := posts[i].likes - {id})
    ensures forall i :: 0 <= i < |r| ==> posts[i].owner != id ==> r[i].owner == posts[i].owner
    ensures forall i :: 0 <= i < |r| ==> posts[i].owner == id ==> r[i].owner == s
    ensures s != id ==> forall i :: 0 <= i < |r| ==> r[i].owner != id
  {
    Reassigned(WithoutLiker(posts, id), id, s)
  }

  /** Rewriting fields other than the key, the text and the posting time keeps a valid
      listing valid. */
  lemma RewriteKeepsValid(s: seq<Post>, r: seq<Post>, nextPostId: PostId)
    requires NewestFirst(s) && DistinctIds(s)
    requires forall i :: 0 <= i < |s| ==> s[i].id < nextPostId && |s[i].text| <= TextMaxLength
    requires |r| == |s|
    requires forall i :: 0 <= i < |r| ==> r[i].id == s[i].id && r[i].text == s[i].text && r[i].postedAt == s[i].postedAt
    ensures NewestFirst(r) && DistinctIds(r)
    ensures forall i :: 0 <= i < |r| ==> r[i].id < nextPostId && |r[i].text| <= TextMaxLength
  {
  }

  /** The writes of a delete once the sentinel `s` is known: the posts are rewritten and the
      user's rows go. */
  method RemoveUserRows(us: UserStore, cs: ContentStore, id: UserId, s: UserId)
    requires us.Valid() && cs.Valid() && id in us.users
    requires IsSentinel(us.users, s) && (s == id ==> !OwnsPosts(cs.posts, id))
    modifies us, cs`posts
    ensures us.Valid() && cs.Valid()
    ensures cs.posts == PostsAfterDelete(old(cs.posts), id, s)
    ensures us.users == old(us.users) - {id} && us.tokens == old(us.tokens) - {id}
    ensures us.Graph() == WithoutUser(old(us.Graph()), id)
    ensures us.nextId == old(us.nextId)
  {
    var posts := PostsAfterDelete(cs.posts, id, s);
    RewriteKeepsValid(cs.posts, posts, cs.nextPostId);
    cs.posts := posts;
    us.Delete(id);
  }

  /** The sentinel the collector fetches, or creates, for a delete of user `id`: the
      `SET(get_sentinel_user)` handler is called on every delete, whether or not the user owns
      posts. When the sentinel is the user itself and owns posts, the posts would point at the
      deleted row, which the foreign key refuses. */
  method NewOwner(us: UserStore, posts: seq<Post>, id: UserId) returns (r: Result<UserId>)
    requires us.Valid() && id in us.users
    modifies us
    ensures us.Valid() && id in us.users
    ensures r.Err? ==> us.users == old(us.users) && us.Graph() == old(us.Graph()) && us.tokens == old(us.tokens)
    ensures r.Err? <==>
      || ((forall x :: !IsSentinel(old(us.users), x)) && UniqueViolation(old(us.users), SentinelUser).Some?)
      || (IsSentinel(old(us.users), id) && OwnsPosts(posts, id))
    ensures r.Ok? ==> IsSentinel(us.users, r.value) && (r.value == id ==> !OwnsPosts(posts, id))
    ensures r.Ok? && r.value in old(us.users) ==>
      us.users == old(us.users) && us.Graph() == old(us.Graph()) && us.tokens == old(us.tokens)
    ensures us.nextId == old(us.nextId) + (if r.Ok? && r.value !in old(us.users) then 1 else 0)
    ensures r.Ok? && r.value !in old(us.users) ==>
      && r.value == old(us.nextId)
      && us.users == old(us.users)[r.value := SentinelUser]
      && us.Graph() == FollowGraph(old(us.followers)[r.value := {}], old(us.following)[r.value := {}])
      && us.tokens == old(us.tokens)
  {
    var found := GetSentinelUser(us);
    if found.Err? {
      return Err(found.error);
    }
    if found.value == id && exists i :: 0 <= i < |posts| && posts[i].owner == id {
      return Err(IntegrityError("user_id"));
    }
    r := found;
  }

  /** The user table and follow graph once the sentinel `s` is in place: as they were when
      it was stored already, otherwise with its row and empty follow sets. */
  function UsersWithSentinel(users: map<UserId, User>, s: UserId): map<UserId, User> {
    if s in users then users else users[s := SentinelUser]
  }

  function GraphWithSentinel(users: map<UserId, User>, g: FollowGraph, s: UserId): FollowGraph {
    if s in users then g else FollowGraph(g.followers[s := {}], g.following[s := {}])
  }

  /** Deleting user `id` (`user.delete()`). The sentinel is fetched or created first and
      becomes the owner of the user's posts; deleting the sentinel itself while it owns posts
      breaks the foreign key and nothing changes. The answer is the sentinel used. */
  method DeleteUser(us: UserStore, cs: ContentStore, id: UserId) returns (r: Result<UserId>)
    requires us.Valid() && cs.Valid() && id in us.users
    modifies us, cs`posts
    ensures us.Valid() && cs.Valid()
    ensures r.Err? ==>
      && us.users == old(us.users) && us.Graph() == old(us.Graph()) && us.tokens == old(us.tokens)
      && cs.posts == old(cs.posts)
    ensures r.Err? <==>
      || ((forall x :: !IsSentinel(old(us.users), x)) && UniqueViolation(old(us.users), SentinelUser).Some?)
      || (IsSentinel(old(us.users), id) && OwnsPosts(old(cs.posts), id))
    ensures (exists x :: IsSentinel(old(us.users), x) && x != id) ==> r.Ok? && r.value != id
    ensures r.Ok? ==> IsSentinel(UsersWithSentinel(old(us.users), r.value), r.value)
    ensures r.Ok? && r.value !in old(us.users) ==> r.value == old(us.nextId)
    ensures us.nextId == old(us.nextId) + (if r.Ok? && r.value !in old(us.users) then 1 else 0)
    ensures r.Ok? ==> cs.posts == PostsAfterDelete(old(cs.posts), id, r.value)
    ensures r.Ok? ==>
      && us.users == UsersWithSentinel(old(us.users), r.value) - {id}
      && us.Graph() == WithoutUser(GraphWithSentinel(old(us.users), old(us.Graph()), r.value), id)
      && us.tokens == old(us.tokens) - {id}
  {
    r := NewOwner(us, cs.posts, id);
    if r.Err? {
      return;
    }
    RemoveUserRows(us, cs, id, r.value);
  }
}
