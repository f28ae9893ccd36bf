/**
 * PostDetail.jsx: one forum post with its replies. The post is a snapshot
 * taken when the page opens; likes, replies and the reply counter are written
 * through the store.
 */
module PostDetail {
  import opened Wrappers
  import opened Entities
  import opened Text
  import Fixtures
  import opened Storage
  import Community
  import Seqs

  /** The post lookup: the stored posts first, and the seed posts only when no stored post has the id. */
  function LookupPost(saved: seq<Post>, seeds: seq<Post>, postId: int): (r: Option<Post>)
    ensures FindPost(saved, postId).Some? ==> r == Some(saved[FindPost(saved, postId).value])
    ensures FindPost(saved, postId).None? && FindPost(seeds, postId).Some? ==> r == Some(seeds[FindPost(seeds, postId).value])
    ensures r.None? <==> FindPost(saved, postId).None? && FindPost(seeds, postId).None?
    ensures r.Some? ==> r.value.id == postId
  {
    match FindPost(saved, postId)
    case Some(k) => Some(saved[k])
    case None =>
      match FindPost(seeds, postId)
      case Some(k) => Some(seeds[k])
      case None => None
  }

  /** A stored post shadows the seed post with the same id. */
  lemma StoredShadowsSeed(saved: seq<Post>, k: nat)
    requires k < |saved| && forall j :: 0 <= j < k ==> saved[j].id != saved[k].id
    ensures LookupPost(saved, Fixtures.SeedPosts, saved[k].id) == Some(saved[k])
  {
    assert FindPost(saved, saved[k].id).Some?;
  }

  /** `replyTo?.id || null`: no target, and also a target whose id is 0, give null. */
  function TargetId(replyTo: Option<Reply>): (r: Option<int>)
    ensures r.None? <==> replyTo.None? || replyTo.value.id == 0
    ensures r.Some? ==> r.value == replyTo.value.id
  {
    if replyTo.Some? && replyTo.value.id != 0 then Some(replyTo.value.id) else None
  }

  /** `replyTo?.author || null`: no target, and also a target with an empty author, give null. */
  function TargetAuthor(replyTo: Option<Reply>): (r: Option<string>)
    ensures r.None? <==> replyTo.None? || replyTo.value.author == ""
    ensures r.Some? ==> r.value == replyTo.value.author
  {
    if replyTo.Some? && replyTo.value.author != "" then Some(replyTo.value.author) else None
  }

  /** The map in `handleLikeReply`: one more like on every reply with that id, the rest untouched. */
  function LikeReplies(replies: seq<Reply>, replyId: int): (r: seq<Reply>)
    ensures |r| == |replies|
    ensures forall k :: 0 <= k < |replies| && replies[k].id != replyId ==> r[k] == replies[k]
    ensures forall k :: 0 <= k < |replies| && replies[k].id == replyId ==> r[k] == replies[k].(likes := replies[k].likes + 1)
  {
    seq(|replies|, k requires 0 <= k < |replies| =>
      if replies[k].id == replyId then replies[k].(likes := replies[k].likes + 1) else replies[k])
  }

  function TotalLikes(replies: seq<Reply>): int
  {
    if replies == [] then 0 else replies[0].likes + TotalLikes(replies[1..])
  }

  /** A reply like adds one like per reply carrying the id: one when ids are unique, none for an unknown id. */
  lemma {:induction false} LikeRepliesAddsOnePerMatch(replies: seq<Reply>, replyId: int)
    ensures TotalLikes(LikeReplies(replies, replyId)) == TotalLikes(replies) + Seqs.CountOf(replies, (r: Reply) => r.id == replyId)
  {
    if replies != [] {
      LikeRepliesAddsOnePerMatch(replies[1..], replyId);
      assert LikeReplies(replies, replyId)[1..] == LikeReplies(replies[1..], replyId);
    }
  }

  /**
   * `formatTime` of this page: the community buckets and one more, days below
   * thirty days. `None` is an unparseable time string.
   */
  function Bucket(diff: Option<int>): (e: Community.Elapsed)
    ensures e == Community.JustNow <==> diff.Some? && diff.value < 60000
    ensures e.MinutesAgo? <==> diff.Some? && 60000 <= diff.value < 3600000
    ensures e.HoursAgo? <==> diff.Some? && 3600000 <= diff.value < 86400000
    ensures e.DaysAgo? <==> diff.Some? && 86400000 <= diff.value < 2592000000
    ensures e == Community.Absolute <==> diff.None? || diff.value >= 2592000000
    ensures e.MinutesAgo? ==> 1 <= e.n < 60 && e.n * 60000 <= diff.value < (e.n + 1) * 60000
    ensures e.HoursAgo? ==> 1 <= e.n < 24 && e.n * 3600000 <= diff.value < (e.n + 1) * 3600000
    ensures e.DaysAgo? ==> 1 <= e.n < 30 && e.n * 86400000 <= diff.value < (e.n + 1) * 86400000
  {
    match diff
    case None => Community.Absolute
    case Some(d) =>
      if d < 60000 then Community.JustNow
      else if d < 3600000 then Community.MinutesAgo(d / 60000)
      else if d < 86400000 then Community.HoursAgo(d / 3600000)
      else if d < 2592000000 then Community.DaysAgo(d / 86400000)
      else Community.Absolute
  }

  /** The publish time as this page shows it: the forum's text, with whole days below thirty days. */
  function FormatTime(raw: string, diff: Option<int>): (r: string)
    ensures diff.None? || diff.value >= 2592000000 ==> r == raw
    ensures diff.Some? && diff.value < 60000 ==> r == "刚刚"
    ensures diff.Some? && 60000 <= diff.value < 3600000 ==> Community.ReadsAs(r, diff.value / 60000, "分钟前")
    ensures diff.Some? && 3600000 <= diff.value < 86400000 ==> Community.ReadsAs(r, diff.value / 3600000, "小时前")
    ensures diff.Some? && 86400000 <= diff.value < 2592000000 ==> Community.ReadsAs(r, diff.value / 86400000, "天前")
  {
    Community.Render(Bucket(diff), raw)
  }

  /**
   * The two pages show the same text for anything under a day old and for an
   * unparseable time; between one and thirty days only this page says "days ago".
   */
  lemma BucketsAgreeBelowOneDay(raw: string, diff: Option<int>)
    ensures diff.None? || diff.value < 86400000 ==> FormatTime(raw, diff) == Community.FormatTime(raw, diff)
    ensures diff.Some? && 86400000 <= diff.value < 2592000000 ==>
      Community.FormatTime(raw, diff) == raw && Bucket(diff).DaysAgo?
  {
  }

  /** One post's page. `clicks` counts like clicks by a signed-in user. */
  class PostDetailPage {
    const store: LocalStore
    const currentUser: Option<SessionUser>
    const postId: int
    const post: Option<Post>
    var replies: seq<Reply>
    var replyTo: Option<Reply>
    var isLiked: bool
    ghost var clicks: nat

    /** The like button toggles: it is lit after an odd number of clicks. */
    ghost predicate Valid()
      reads this
    {
      isLiked <==> clicks % 2 == 1
    }

    /** The lazy initialisers; replies are read only when the post exists. */
    constructor (store: LocalStore, currentUser: Option<SessionUser>, postId: int)
      ensures Valid()
      ensures this.store == store && this.currentUser == currentUser && this.postId == postId
      ensures post == LookupPost(store.GetPosts(), Fixtures.SeedPosts, postId)
      ensures replies == if post.Some? then store.GetPostReplies(postId) else []
      ensures replyTo == None && !isLiked && clicks == 0
    {
      this.store := store;
      this.currentUser := currentUser;
      this.postId := postId;
      var found := LookupPost(store.GetPosts(), Fixtures.SeedPosts, postId);
      post := found;
      replies := if found.Some? then store.GetPostReplies(postId) else [];
      replyTo := None;
      isLiked := false;
      clicks := 0;
    }

    /** The count on the like button: the snapshot's likes, plus one while lit. */
    function ShownLikes(): (n: int)
      requires Valid() && post.Some?
      reads this
      ensures n == post.value.likes + clicks % 2
      ensures post.value.likes <= n <= post.value.likes + 1
    {
      post.value.likes + if isLiked then 1 else 0
    }

    /**
     * `handleLike`: without a user nothing happens. Otherwise every click,
     * lighting or unlighting the button, adds a like to the stored post when
     * one with that id is stored; the button toggles.
     */
    method Like()
      requires Valid()
      modifies this`isLiked, this`clicks, store`posts
      ensures Valid()
      ensures currentUser.None? ==> isLiked == old(isLiked) && clicks == old(clicks) && store.posts == old(store.posts)
      ensures currentUser.Some? ==>
        && isLiked == !old(isLiked) && clicks == old(clicks) + 1
        && (FindPost(old(store.GetPosts()), postId).None? ==> store.posts == old(store.posts))
        && (FindPost(old(store.GetPosts()), postId).Some? ==>
              store.posts == Some(LikeFirst(old(store.GetPosts()), postId).0))
    {
      if currentUser.None? {
        return;
      }
      var _ := store.LikePost(postId);
      isLiked := !isLiked;
      clicks := clicks + 1;
    }

    /** `handleReplyToReply`: the next reply answers this one. */
    method ReplyToReply(reply: Reply)
      modifies this`replyTo
      ensures replyTo == Some(reply)
    {
      replyTo := Some(reply);
    }

    /**
     * `handleSubmitReply`: without a user, or with blank content, nothing is
     * written. Otherwise the reply is appended to the stored and the shown
     * replies, the target is cleared, and the stored post's reply counter goes
     * up by exactly one.
     */
    method SubmitReply(content: string, id: int, publishTime: string) returns (saved: Option<Reply>)
      modifies this`replies, this`replyTo, store`postReplies, store`posts
      ensures currentUser.None? || IsBlank(content) ==>
        && saved == None && replies == old(replies) && replyTo == old(replyTo)
        && store.postReplies == old(store.postReplies) && store.posts == old(store.posts)
      ensures currentUser.Some? && !IsBlank(content) ==>
        && saved == Some(Reply(id, content, currentUser.value.username, currentUser.value.avatar,
                               TargetId(old(replyTo)), TargetAuthor(old(replyTo)), publishTime, 0))
        && replies == old(replies) + [saved.value]
        && replyTo == None
        && store.postReplies == old(store.postReplies)[postId := old(store.GetPostReplies(postId)) + [saved.value]]
        && (FindPost(old(store.GetPosts()), postId).None? ==> store.posts == old(store.posts))
        && (FindPost(old(store.GetPosts()), postId).Some? ==> store.posts == Some(BumpReplies(old(store.GetPosts()), postId)))
      ensures old(replies) == old(store.GetPostReplies(postId)) ==> replies == store.GetPostReplies(postId)
    {
      if currentUser.None? || Trim(content) == "" {
        return None;
      }
      var draft := ReplyDraft(content, currentUser.value.username, currentUser.value.avatar,
                              TargetId(replyTo), TargetAuthor(replyTo));
      var r := store.AddPostReply(postId, draft, id, publishTime);
      replies := replies + [r];
      replyTo := None;
      store.IncrementPostReplies(postId);
      saved := Some(r);
    }

    /**
     * `handleLikeReply`: without a user nothing happens; otherwise the shown
     * replies get one more like on that reply and the whole shown list
     * replaces the stored one.
     */
    method LikeReply(replyId: int)
      modifies this`replies, store`postReplies
      ensures currentUser.None? ==> replies == old(replies) && store.postReplies == old(store.postReplies)
      ensures currentUser.Some? ==>
        && replies == LikeReplies(old(replies), replyId)
        && store.postReplies == old(store.postReplies)[postId := replies]
        && store.GetPostReplies(postId) == replies
    {
      if currentUser.None? {
        return;
      }
      var updated := LikeReplies(replies, replyId);
      replies := updated;
      store.UpdatePostReplies(postId, updated);
    }
  }
}
