/** `publish_scheduled_posts`: the periodic batch update that publishes every unpublished post
    whose scheduled time has come (content/tasks.py). `now` is a parameter. */
module Tasks {

  import opened Common
  import opened ContentModels

  /** The filter `is_published=False & scheduled_at <= now`; a post with no scheduled time
      (SQL NULL) never matches. */
  predicate Due(p: Post, now: int) {
    !p.isPublished && p.scheduledAt.Some? && p.scheduledAt.value <= now
  }

  /** What the UPDATE does to one row. */
  function PublishDue(p: Post, now: int): (r: Post)
    ensures r.(isPublished := p.isPublished) == p
    ensures r.isPublished <==> p.isPublished || Due(p, now)
    ensures !Due(r, now)
  {
    if Due(p, now) then p.(isPublished := true) else p
  }

  /** The table after the UPDATE: every row passed through `PublishDue`. */
  function PublishAll(posts: seq<Post>, now: int): (r: seq<Post>)
    ensures |r| == |posts|
    ensures forall i :: 0 <= i < |r| ==> r[i] == PublishDue(posts[i], now)
  {
    seq(|posts|, i requires 0 <= i < |posts| => PublishDue(posts[i], now))
  }

  /** After a run every post that was due is published, and nothing is due any more; a post
      that was not due (already published, scheduled later or not scheduled) is untouched;
      and no field but `is_published` is written. */
  lemma PublishAllEffect(posts: seq<Post>, now: int)
    ensures forall i :: 0 <= i < |posts| && Due(posts[i], now) ==> PublishAll(posts, now)[i].isPublished
    ensures forall i :: 0 <= i < |posts| && !Due(posts[i], now) ==> PublishAll(posts, now)[i] == posts[i]
    ensures forall i :: 0 <= i < |posts| ==>
      PublishAll(posts, now)[i].(isPublished := posts[i].isPublished) == posts[i]
    ensures forall p :: p in PublishAll(posts, now) ==> !Due(p, now)
  {
    var r := PublishAll(posts, now);
    forall p | p in r
      ensures !Due(p, now)
    {
      var i :| 0 <= i < |r| && r[i] == p;
      assert p == PublishDue(posts[i], now);
    }
  }

  /** Running the task twice with the same `now` leaves the table as one run does. */
  lemma {:induction false} PublishAllIdempotent(posts: seq<Post>, now: int)
    ensures PublishAll(PublishAll(posts, now), now) == PublishAll(posts, now)
  {
    var once := PublishAll(posts, now);
    var twice := PublishAll(once, now);
    forall i | 0 <= i < |once|
      ensures twice[i] == once[i]
    {
      assert !Due(once[i], now);
    }
  }

  /** The task itself: one pass over the stored posts, publishing each due row in place. */
  method PublishScheduled(cs: ContentStore, now: int)
    requires cs.Valid()
    modifies cs`posts
    ensures cs.Valid()
    ensures cs.posts == PublishAll(old(cs.posts), now)
  {
    var i := 0;
    while i < |cs.posts|
      invariant 0 <= i <= |cs.posts| == |old(cs.posts)|
      invariant forall j :: 0 <= j < i ==> cs.posts[j] == PublishDue(old(cs.posts)[j], now)
      invariant forall j :: i <= j < |cs.posts| ==> cs.posts[j] == old(cs.posts)[j]
    {
      if Due(cs.posts[i], now) {
        cs.posts := cs.posts[i := cs.posts[i].(isPublished := true)];
      }
      i := i + 1;
    }
    RewriteKeepsValid(old(cs.posts), cs.posts, cs.nextPostId);
  }
}
