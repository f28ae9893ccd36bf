/**
 * Community.jsx: the forum list. Filtering by category and search term, the
 * tag string of the new-post form, the guards and the write of a new post,
 * liking, and the relative publish time.
 */
module Community {
  import opened Wrappers
  import opened Entities
  import opened Text
  import opened Seqs
  import Fixtures
  import opened Storage

  /** The list the page starts with: the stored posts, or the seed posts when none are stored. */
  function InitialPosts(saved: seq<Post>): (r: seq<Post>)
    ensures |saved| == 0 ==> r == Fixtures.SeedPosts
    ensures |saved| > 0 ==> r == saved
  {
    if |saved| == 0 then Fixtures.SeedPosts else saved
  }

  /** `'all'` selects every category. */
  predicate CategoryMatches(selected: string, category: string)
  {
    selected == "all" || category == selected
  }

  /** Some tag includes the (already lower-cased) term. */
  predicate SomeTagIncludes(tags: seq<string>, lowered: string)
  {
    exists k :: 0 <= k < |tags| && Includes(ToLower(tags[k]), lowered)
  }

  /** The search test: the lower-cased term occurs in the title, the content or some tag, each lower-cased. */
  predicate SearchMatches(post: Post, term: string)
  {
    var t := ToLower(term);
    Includes(ToLower(post.title), t) || Includes(ToLower(post.content), t) || SomeTagIncludes(post.tags, t)
  }

  predicate Shown(post: Post, selected: string, term: string)
  {
    CategoryMatches(selected, post.category) && SearchMatches(post, term)
  }

  /** `filteredPosts`: the posts that pass both tests, in their original order. */
  function FilterPosts(posts: seq<Post>, selected: string, term: string): (r: seq<Post>)
    ensures IsSubseq(r, posts)
    ensures |r| == CountOf(posts, (p: Post) => Shown(p, selected, term))
    ensures forall k :: 0 <= k < |r| ==> r[k] in posts && Shown(r[k], selected, term)
    ensures forall k :: 0 <= k < |posts| && Shown(posts[k], selected, term) ==> posts[k] in r
  {
    Filter(posts, (p: Post) => Shown(p, selected, term))
  }

  /** With an empty search box the list is filtered by category alone. */
  lemma EmptySearchFiltersByCategory(posts: seq<Post>, selected: string)
    ensures FilterPosts(posts, selected, "") == Filter(posts, (p: Post) => CategoryMatches(selected, p.category))
  {
    forall k | 0 <= k < |posts|
      ensures Shown(posts[k], selected, "") == CategoryMatches(selected, posts[k].category)
    {
      assert ToLower("") == "";
      IncludesEmpty(ToLower(posts[k].title));
    }
    FilterSameTest(posts, (p: Post) => Shown(p, selected, ""), (p: Post) => CategoryMatches(selected, p.category));
  }

  /** Trim every piece. */
  function TrimAll(pieces: seq<string>): (r: seq<string>)
    ensures |r| == |pieces|
    ensures forall k :: 0 <= k < |r| ==> r[k] == Trim(pieces[k])
  {
    seq(|pieces|, k requires 0 <= k < |pieces| => Trim(pieces[k]))
  }

  /**
   * `tags.split(',').map(t => t.trim()).filter(t => t)`: no tag is empty, holds
   * a comma, or starts or ends with whitespace, and every non-blank piece of
   * the input gives its trimmed tag, in order.
   */
  function ParseTags(raw: string): (tags: seq<string>)
    ensures forall k :: 0 <= k < |tags| ==> tags[k] != "" && ',' !in tags[k]
    ensures forall k :: 0 <= k < |tags| ==> !IsSpace(tags[k][0]) && !IsSpace(tags[k][|tags[k]| - 1])
    ensures IsSubseq(tags, TrimAll(Split(raw, ',')))
    ensures |tags| == CountOf(TrimAll(Split(raw, ',')), (t: string) => t != "")
    ensures forall k :: 0 <= k < |Split(raw, ',')| && !IsBlank(Split(raw, ',')[k]) ==> Trim(Split(raw, ',')[k]) in tags
  {
    var pieces := Split(raw, ',');
    var trimmed := TrimAll(pieces);
    var tags := Filter(trimmed, (t: string) => t != "");
    CleanTags(pieces, trimmed, tags);
    tags
  }

  /** Non-empty trimmings of comma-free pieces are comma-free and have no space at either end. */
  lemma CleanTags(pieces: seq<string>, trimmed: seq<string>, tags: seq<string>)
    requires forall k :: 0 <= k < |pieces| ==> ',' !in pieces[k]
    requires |trimmed| == |pieces| && forall k :: 0 <= k < |trimmed| ==> trimmed[k] == Trim(pieces[k])
    requires forall k :: 0 <= k < |tags| ==> tags[k] in trimmed && tags[k] != ""
    ensures forall k :: 0 <= k < |tags| ==> ',' !in tags[k] && !IsSpace(tags[k][0]) && !IsSpace(tags[k][|tags[k]| - 1])
  {
    forall k | 0 <= k < |tags|
      ensures ',' !in tags[k] && !IsSpace(tags[k][0]) && !IsSpace(tags[k][|tags[k]| - 1])
    {
      var j :| 0 <= j < |trimmed| && trimmed[j] == tags[k];
      assert tags[k] == Trim(pieces[j]);
    }
  }

  /** A tag string without commas gives its trimmed self, or nothing when blank. */
  lemma SingleTag(raw: string)
    requires ',' !in raw
    ensures ParseTags(raw) == if IsBlank(raw) then [] else [Trim(raw)]
  {
    assert Seqs.IndexOf(raw, ',') == |raw|;
    assert Split(raw, ',') == [raw];
    assert TrimAll([raw]) == [Trim(raw)];
  }

  /** The page's map over the shown list after a like: every post with that id shows `likes`, the others are kept. */
  function ShowLikes(posts: seq<Post>, postId: int, likes: int): (r: seq<Post>)
    ensures |r| == |posts|
    ensures forall k :: 0 <= k < |posts| && posts[k].id != postId ==> r[k] == posts[k]
    ensures forall k :: 0 <= k < |posts| && posts[k].id == postId ==> r[k] == posts[k].(likes := likes)
  {
    seq(|posts|, k requires 0 <= k < |posts| => if posts[k].id == postId then posts[k].(likes := likes) else posts[k])
  }

  predicate UniqueIds(posts: seq<Post>)
  {
    forall i, j :: 0 <= i < j < |posts| ==> posts[i].id != posts[j].id
  }

  /**
   * When the page shows exactly the stored posts and ids are unique, the shown
   * list after a like is the stored list after the like.
   */
  lemma ShownLikesFollowStore(posts: seq<Post>, postId: int)
    requires UniqueIds(posts)
    ensures ShowLikes(posts, postId, LikeFirst(posts, postId).1) == LikeFirst(posts, postId).0
  {
    var shown, stored := ShowLikes(posts, postId, LikeFirst(posts, postId).1), LikeFirst(posts, postId).0;
    forall k | 0 <= k < |posts| ensures shown[k] == stored[k] {
      if posts[k].id == postId {
        assert FindPost(posts, postId) == Some(k);
      }
    }
  }

  /** A post that is shown but not stored (a seed post while storage is empty) shows 0 likes after a like. */
  lemma LikingUnstoredPostShowsZero()
    ensures ShowLikes(Fixtures.SeedPosts, 1, LikeFirst([], 1).1)[0].likes == 0
    ensures Fixtures.SeedPosts[0].likes == 15
  {
  }

  /** The buckets of the relative publish time. */
  datatype Elapsed = JustNow | MinutesAgo(n: nat) | HoursAgo(n: nat) | DaysAgo(n: nat) | Absolute

  /**
   * `formatTime` of this page, on the elapsed milliseconds (`None` when the
   * time string does not parse, so that every comparison with NaN fails).
   */
  function Bucket(diff: Option<int>): (e: Elapsed)
    ensures e == JustNow <==> diff.Some? && diff.value < 60000
    ensures e.MinutesAgo? <==> diff.Some? && 60000 <= diff.value < 3600000
    ensures e.HoursAgo? <==> diff.Some? && 3600000 <= diff.value < 86400000
    ensures e == Absolute <==> diff.None? || diff.value >= 86400000
    ensures e.MinutesAgo? ==> 1 <= e.n < 60 && e.n * 60000 <= diff.value < (e.n + 1) * 60000
    ensures e.HoursAgo? ==> 1 <= e.n < 24 && e.n * 3600000 <= diff.value < (e.n + 1) * 3600000
  {
    match diff
    case None => Absolute
    case Some(d) =>
      if d < 60000 then JustNow
      else if d < 3600000 then MinutesAgo(d / 60000)
      else if d < 86400000 then HoursAgo(d / 3600000)
      else Absolute
  }

  /** `r` is a decimal number without a leading zero that reads back as `n`, followed by `unit`. */
  predicate ReadsAs(r: string, n: nat, unit: string)
  {
    && |r| > |unit| && r[|r| - |unit|..] == unit && IsDigits(r[..|r| - |unit|]) && DigitsValue(r[..|r| - |unit|]) == n
    && (r[0] == '0' ==> |r| == |unit| + 1)
  }

  lemma NumberThenUnit(n: nat, unit: string)
    ensures ReadsAs(NatToString(n) + unit, n, unit)
  {
    var r := NatToString(n) + unit;
    assert r[..|r| - |unit|] == NatToString(n);
    assert r[|r| - |unit|..] == unit;
    assert r[0] == NatToString(n)[0];
    NatToStringValue(n);
  }

  /** The text shown for a bucket; `raw` is the stored time string. */
  function Render(e: Elapsed, raw: string): (r: string)
    ensures e.Absolute? ==> r == raw
    ensures e.JustNow? ==> r == "刚刚"
    ensures e.MinutesAgo? ==> ReadsAs(r, e.n, "分钟前")
    ensures e.HoursAgo? ==> ReadsAs(r, e.n, "小时前")
    ensures e.DaysAgo? ==> ReadsAs(r, e.n, "天前")
  {
    match e
    case JustNow => "刚刚"
    case MinutesAgo(n) => NumberThenUnit(n, "分钟前"); NatToString(n) + "分钟前"
    case HoursAgo(n) => NumberThenUnit(n, "小时前"); NatToString(n) + "小时前"
    case DaysAgo(n) => NumberThenUnit(n, "天前"); NatToString(n) + "天前"
    case Absolute => raw
  }

  /**
   * The publish time as the list shows it: "just now" below a minute, whole
   * minutes below an hour, whole hours below a day, else the stored string.
   */
  function FormatTime(raw: string, diff: Option<int>): (r: string)
    ensures diff.None? || diff.value >= 86400000 ==> r == raw
    ensures diff.Some? && diff.value < 60000 ==> r == "刚刚"
    ensures diff.Some? && 60000 <= diff.value < 3600000 ==> ReadsAs(r, diff.value / 60000, "分钟前")
    ensures diff.Some? && 3600000 <= diff.value < 86400000 ==> ReadsAs(r, diff.value / 3600000, "小时前")
  {
    Render(Bucket(diff), raw)
  }

  /** The forum page: the shown list is component state, the stored list lives in `store`. */
  class CommunityPage {
    const store: LocalStore
    const currentUser: Option<SessionUser>
    var posts: seq<Post>

    /** The lazy initialiser: reads the stored posts, writes nothing. */
    constructor (store: LocalStore, currentUser: Option<SessionUser>)
      ensures this.store == store && this.currentUser == currentUser
      ensures posts == InitialPosts(store.GetPosts())
    {
      this.store := store;
      this.currentUser := currentUser;
      posts := InitialPosts(store.GetPosts());
    }

    /**
     * `handleSubmitPost`: without a user, or with a title or content that is
     * blank after trimming, nothing is written; otherwise the post (with the
     * untrimmed title and content and the parsed tags) is stored in front of
     * the stored posts and shown in front of the shown ones.
     */
    method SubmitPost(title: string, content: string, category: string, tags: string, id: int, publishTime: string)
      returns (created: Option<Post>)
      modifies this`posts, store`posts
      ensures currentUser.None? || IsBlank(title) || IsBlank(content) ==>
        created == None && posts == old(posts) && store.posts == old(store.posts)
      ensures currentUser.Some? && !IsBlank(title) && !IsBlank(content) ==>
        && created == Some(Post(id, title, content, currentUser.value.username, currentUser.value.avatar,
                                category, ParseTags(tags), publishTime, 0, 0, 0))
        && posts == [created.value] + old(posts)
        && store.posts == Some([created.value] + old(store.GetPosts()))
    {
      if currentUser.None? {
        return None;
      }
      if Trim(title) == "" || Trim(content) == "" {
        return None;
      }
      var parsed := ParseTags(tags);
      var draft := PostDraft(title, content, category, parsed,
                             currentUser.value.username, currentUser.value.avatar);
      var post := store.AddPost(draft, id, publishTime);
      posts := [post] + posts;
      created := Some(post);
    }

    /**
     * `handleLikePost`: without a user nothing happens; otherwise the store
     * likes the post and every shown post with that id shows the count the
     * store returned (0 when the post is not stored).
     */
    method LikePost(postId: int)
      modifies this`posts, store`posts
      ensures currentUser.None? ==> posts == old(posts) && store.posts == old(store.posts)
      ensures currentUser.Some? ==>
        && posts == ShowLikes(old(posts), postId, LikeFirst(old(store.GetPosts()), postId).1)
        && (FindPost(old(store.GetPosts()), postId).None? ==> store.posts == old(store.posts))
        && (FindPost(old(store.GetPosts()), postId).Some? ==>
              store.posts == Some(LikeFirst(old(store.GetPosts()), postId).0))
    {
      if currentUser.None? {
        return;
      }
      var likes := store.LikePost(postId);
      posts := ShowLikes(posts, postId, likes);
    }
  }
}
