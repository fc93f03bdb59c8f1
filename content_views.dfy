/** The post and comment views: the searchable post list and the three feeds, the like
    toggle, and the creation of posts and comments (content/views.py). */
module ContentViews {

  import opened Common
  import opened Text
  import opened ContentModels

  /** A `text` query parameter narrows the list only when it is present and non-empty. */
  predicate TextMatches(p: Post, text: Option<string>) {
    text == None || text == Some("") || IContains(p.text, text.value)
  }

  /** `PostViewSet.get_queryset`: every post, or those whose text contains the parameter. */
  function Queryset(posts: seq<Post>, text: Option<string>): (r: seq<Post>)
    ensures forall p :: p in r <==> p in posts && TextMatches(p, text)
    ensures |r| <= |posts|
    ensures NewestFirst(posts) ==> NewestFirst(r)
  {
    if text.Some? && text.value != "" then
      var needle := text.value;
      FilterKeepsNewestFirst(posts, (p: Post) => IContains(p.text, needle));
      Filter(posts, (p: Post) => IContains(p.text, needle))
    else
      posts
  }

  /** `my_posts`: the listed posts the requesting user owns. */
  function MyPosts(posts: seq<Post>, text: Option<string>, actor: UserId): (r: seq<Post>)
    ensures forall p :: p in r <==> p in posts && TextMatches(p, text) && p.owner == actor
    ensures forall p :: p in r ==> p in Queryset(posts, text)
    ensures NewestFirst(posts) ==> NewestFirst(r)
  {
    var listed := Queryset(posts, text);
    FilterKeepsNewestFirst(listed, (p: Post) => p.owner == actor);
    Filter(listed, (p: Post) => p.owner == actor)
  }

  /** `following`: the listed posts whose owner the requesting user follows. */
  function FollowingFeed(posts: seq<Post>, text: Option<string>, following: set<UserId>): (r: seq<Post>)
    ensures forall p :: p in r <==> p in posts && TextMatches(p, text) && p.owner in following
    ensures forall p :: p in r ==> p in Queryset(posts, text)
    ensures NewestFirst(posts) ==> NewestFirst(r)
  {
    var listed := Queryset(posts, text);
    FilterKeepsNewestFirst(listed, (p: Post) => p.owner in following);
    Filter(listed, (p: Post) => p.owner in following)
  }

  /** `liked_posts`: the listed posts the requesting user likes. */
  function LikedPosts(posts: seq<Post>, text: Option<string>, actor: UserId): (r: seq<Post>)
    ensures forall p :: p in r <==> p in posts && TextMatches(p, text) && actor in p.likes
    ensures forall p :: p in r ==> p in Queryset(posts, text)
    ensures NewestFirst(posts) ==> NewestFirst(r)
  {
    var listed := Queryset(posts, text);
    FilterKeepsNewestFirst(listed, (p: Post) => actor in p.likes);
    Filter(listed, (p: Post) => actor in p.likes)
  }

  const PostNotFound := Response(404, "No Post matches the given query.")
  const LikeRemoved := Response(200, "You've removed your like.")
  const LikeAdded := Response(200, "You've liked this post.")

  /** The position of the post with primary key `pk`, if there is one. */
  function IndexOf(posts: seq<Post>, pk: PostId): (r: Option<nat>)
    ensures r.Some? ==> r.value < |posts| && posts[r.value].id == pk
    ensures r.None? ==> forall i :: 0 <= i < |posts| ==> posts[i].id != pk
  {
    if posts == [] then None
    else if posts[0].id == pk then Some(0)
    else match IndexOf(posts[1..], pk)
      case None => None
      case Some(i) => Some(i + 1)
  }

  /** `get_object()` for a post: it must exist and pass the view's text filter. */
  predicate Listed(posts: seq<Post>, pk: PostId, text: Option<string>) {
    IndexOf(posts, pk).Some? && TextMatches(posts[IndexOf(posts, pk).value], text)
  }

  /** With distinct ids, a post is found exactly when the filtered list holds a post with its key. */
  lemma ListedIffInQueryset(posts: seq<Post>, pk: PostId, text: Option<string>)
    requires DistinctIds(posts)
    ensures Listed(posts, pk, text) <==> exists p :: p in Queryset(posts, text) && p.id == pk
  {
    if p :| p in Queryset(posts, text) && p.id == pk {
      var i :| 0 <= i < |posts| && posts[i] == p;
      assert IndexOf(posts, pk) == Some(i);
    }
    if Listed(posts, pk, text) {
      assert posts[IndexOf(posts, pk).value] in Queryset(posts, text);
    }
  }

  /** One like toggle on a set of likers. */
  function Toggle(likes: set<UserId>, actor: UserId): (r: set<UserId>)
    ensures actor in r <==> actor !in likes
    ensures forall u :: u != actor ==> (u in r <==> u in likes)
    ensures |r| == if actor in likes then |likes| - 1 else |likes| + 1
  {
    if actor in likes then likes - {actor} else likes + {actor}
  }

  /** The post at index `i` after `actor` toggles its like. */
  function ToggleLikeAt(posts: seq<Post>, i: nat, actor: UserId): (r: seq<Post>)
    requires i < |posts|
    ensures |r| == |posts|
    ensures forall j :: 0 <= j < |r| && j != i ==> r[j] == posts[j]
    ensures r[i].(likes := posts[i].likes) == posts[i]
    ensures r[i].likes == Toggle(posts[i].likes, actor)
  {
    posts[i := posts[i].(likes := Toggle(posts[i].likes, actor))]
  }

  /** Two toggles by the same user on the same post restore every post, and so every
      like count. */
  lemma LikeTwiceRestores(posts: seq<Post>, i: nat, actor: UserId)
    requires i < |posts|
    ensures ToggleLikeAt(ToggleLikeAt(posts, i, actor), i, actor) == posts
  {
    var once := ToggleLikeAt(posts, i, actor);
    var twice := ToggleLikeAt(once, i, actor);
    assert Toggle(Toggle(posts[i].likes, actor), actor) == posts[i].likes;
    assert twice[i] == posts[i];
  }

  /** `PostViewSet.like`: the requesting user likes the post `pk`, or removes the like. */
  method Like(cs: ContentStore, actor: UserId, pk: PostId, text: Option<string>) returns (r: Response)
    requires cs.Valid()
    modifies cs`posts
    ensures cs.Valid()
    ensures !Listed(old(cs.posts), pk, text) ==> r == PostNotFound && cs.posts == old(cs.posts)
    ensures Listed(old(cs.posts), pk, text) ==>
      var i := IndexOf(old(cs.posts), pk).value;
      && cs.posts == ToggleLikeAt(old(cs.posts), i, actor)
      && r == (if actor in old(cs.posts)[i].likes then LikeRemoved else LikeAdded)
  {
    var found := IndexOf(cs.posts, pk);
    if found.None? || !TextMatches(cs.posts[found.value], text) {
      return PostNotFound;
    }
    var i := found.value;
    var post := cs.posts[i];
    if actor in post.likes {
      cs.posts := cs.posts[i := post.(likes := post.likes - {actor})];
      return LikeRemoved;
    }
    cs.posts := cs.posts[i := post.(likes := post.likes + {actor})];
    r := LikeAdded;
  }

  /** DRF `CharField(max_length=255)` on the post text: required, not blank once stripped,
      at most 255 characters and no NUL once stripped; the stored value is the stripped text. */
  function CleanText(text: Option<string>): (r: Result<string>)
    ensures r.Ok? <==>
      && text.Some?
      && (exists i :: 0 <= i < |text.value| && !IsSpace(text.value[i]))
      && |Trim(text.value)| <= TextMaxLength
      && '\0' !in Trim(text.value)
    ensures r.Ok? ==> r.value == Trim(text.value) && r.value != [] && |r.value| <= TextMaxLength
    ensures r.Err? ==> r.error.ValidationError?
  {
    if text == None then Err(ValidationError(RequiredMessage))
    else
      TrimShape(text.value);
      CleanChar(text.value, false, 0, TextMaxLength)
  }

  /** `PostViewSet.perform_create`: a valid post is stored under the next key, owned by the
      requesting user whatever the request says, posted at `now`, with the image (if any)
      uploaded under `post-images/`. The unpublished fields take the model defaults given. */
  method CreatePost(cs: ContentStore, actor: UserId, text: Option<string>, imageName: Option<string>,
                    uuid: string, now: int, isPublished: bool, scheduledAt: Option<int>)
    returns (r: Result<PostId>)
    requires cs.Valid() && IsUuidText(uuid)
    modifies cs`posts, cs`nextPostId
    ensures cs.Valid()
    ensures CleanText(text).Err? ==>
      r == Err(CleanText(text).error) && cs.posts == old(cs.posts) && cs.nextPostId == old(cs.nextPostId)
    ensures CleanText(text).Ok? ==>
      var p := Post(old(cs.nextPostId), CleanText(text).value,
                    if imageName.Some? then PostImagePath(None, uuid, imageName.value) else "",
                    actor, now, isPublished, scheduledAt, {});
      && r == Ok(p.id)
      && cs.posts == InsertNewestFirst(old(cs.posts), p)
      && cs.nextPostId == old(cs.nextPostId) + 1
  {
    var clean := CleanText(text);
    if clean.Err? {
      return Err(clean.error);
    }
    var image := if imageName.Some? then PostImagePath(None, uuid, imageName.value) else "";
    var id := cs.InsertPost(Post(0, clean.value, image, actor, now, isPublished, scheduledAt, {}));
    r := Ok(id);
  }

  /** `CommentViewSet.get_queryset`: the comments of post `pk`. */
  function CommentsOf(comments: seq<Comment>, pk: PostId): (r: seq<Comment>)
    ensures forall c :: c in r <==> c in comments && c.postId == pk
  {
    Filter(comments, (c: Comment) => c.postId == pk)
  }

  /** A new comment shows up at the end of its own post's list and of no other. */
  lemma CommentsAfterAppend(comments: seq<Comment>, c: Comment, pk: PostId)
    ensures CommentsOf(comments + [c], pk) == CommentsOf(comments, pk) + (if c.postId == pk then [c] else [])
  {
    FilterAppend(comments, c, (d: Comment) => d.postId == pk);
  }

  /** `CommentViewSet.perform_create`: the post is looked up by the key in the URL
      (`Post.objects.get`, unfiltered); the comment is owned by the requesting user and
      attached to that post. */
  method CreateComment(cs: ContentStore, actor: UserId, pk: PostId, text: string, now: int)
    returns (r: Result<CommentId>)
    requires cs.Valid()
    modifies cs`comments, cs`nextCommentId
    ensures cs.Valid()
    ensures IndexOf(cs.posts, pk).None? ==>
      && r == Err(DoesNotExist("Post"))
      && cs.comments == old(cs.comments) && cs.nextCommentId == old(cs.nextCommentId)
    ensures IndexOf(cs.posts, pk).Some? ==>
      && r == Ok(old(cs.nextCommentId))
      && cs.comments == old(cs.comments) + [Comment(old(cs.nextCommentId), text, actor, pk, now)]
      && cs.nextCommentId == old(cs.nextCommentId) + 1
    ensures forall q :: q != pk ==> CommentsOf(cs.comments, q) == CommentsOf(old(cs.comments), q)
  {
    if IndexOf(cs.posts, pk).None? {
      return Err(DoesNotExist("Post"));
    }
    var c := Comment(cs.nextCommentId, text, actor, pk, now);
    forall q
      ensures CommentsOf(cs.comments + [c], q) == CommentsOf(cs.comments, q) + (if pk == q then [c] else [])
    {
      CommentsAfterAppend(cs.comments, c, q);
    }
    cs.comments := cs.comments + [c];
    cs.nextCommentId := cs.nextCommentId + 1;
    r := Ok(c.id);
  }
}
