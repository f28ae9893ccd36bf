/**
 * The browser's key-value storage and the helper class that reads and writes
 * it. Every write replaces a whole key: a mutator reads the collection under
 * the key, changes one element or adds one at the front or back, and stores
 * the collection again.
 */
module Storage {
  import opened Wrappers
  import opened Entities
  import Seqs

  /** The raw `currentUser` entry: missing, a decodable session, or text that `JSON.parse` rejects. */
  datatype StoredSession = Absent | Present(user: SessionUser) | Malformed

  /** The outcome of `JSON.parse`: a value, or the exception it throws. */
  datatype Parsed<T> = Parsed(value: T) | ParseError

  /** `JSON.parse` applied to the `currentUser` entry: null when the key is missing, an exception when the text is malformed. */
  function ParseSession(stored: StoredSession): (r: Parsed<Option<SessionUser>>)
    ensures r == Parsed(None) <==> stored.Absent?
    ensures r.Parsed? && r.value.Some? <==> stored.Present?
    ensures stored.Present? ==> r == Parsed(Some(stored.user))
    ensures r.ParseError? <==> stored.Malformed?
  {
    match stored
    case Absent => Parsed(None)
    case Present(u) => Parsed(Some(u))
    case Malformed => ParseError
  }

  /** The settings a user has before saving any. */
  const DefaultSettings: UserSettings := UserSettings("light", "zh-CN", true, false)

  /** `x ? JSON.parse(x) : []` for a key that holds a list. */
  function OrEmpty<T>(stored: Option<seq<T>>): seq<T>
  {
    if stored.Some? then stored.value else []
  }

  /** The same read for a key family indexed by `k`. */
  function ListAt<K, T>(m: map<K, seq<T>>, k: K): seq<T>
  {
    if k in m then m[k] else []
  }

  /** `posts.find(p => p.id === id)`, as a position. */
  function FindPost(posts: seq<Post>, id: int): Option<nat>
  {
    Seqs.FindFirst(posts, (p: Post) => p.id == id)
  }

  /** `questions.find(q => q.id === id)`, as a position. */
  function FindQuestion(questions: seq<Question>, id: int): Option<nat>
  {
    Seqs.FindFirst(questions, (q: Question) => q.id == id)
  }

  /** Two post lists with the same ids in the same places find the same first match. */
  lemma SameIdsSamePost(a: seq<Post>, b: seq<Post>, id: int)
    requires |a| == |b| && forall j :: 0 <= j < |a| ==> a[j].id == b[j].id
    ensures FindPost(a, id) == FindPost(b, id)
  {
  }

  /**
   * The list and the returned count after `likePost(id)`: the first post with that id
   * gains one like, every other post is untouched; with no such post the
   * list is unchanged and the count is 0.
   */
  function LikeFirst(posts: seq<Post>, id: int): (r: (seq<Post>, int))
    ensures |r.0| == |posts|
    ensures forall j :: 0 <= j < |posts| && FindPost(posts, id) != Some(j) ==> r.0[j] == posts[j]
    ensures FindPost(posts, id).None? ==> r.1 == 0
    ensures FindPost(posts, id).Some? ==>
      var i := FindPost(posts, id).value;
      r.0[i] == posts[i].(likes := posts[i].likes + 1) && r.1 == r.0[i].likes
  {
    match FindPost(posts, id)
    case None => (posts, 0)
    case Some(i) => (posts[i := posts[i].(likes := posts[i].likes + 1)], posts[i].likes + 1)
  }

  /** Liking is not idempotent: a second like of the same post raises the count again. */
  lemma LikeTwiceAddsTwo(posts: seq<Post>, id: int)
    requires FindPost(posts, id).Some?
    ensures LikeFirst(LikeFirst(posts, id).0, id).1 == LikeFirst(posts, id).1 + 1
    ensures LikeFirst(LikeFirst(posts, id).0, id).1 == posts[FindPost(posts, id).value].likes + 2
  {
    var once := LikeFirst(posts, id).0;
    SameIdsSamePost(posts, once, id);
  }

  /** The list after `incrementPostReplies(id)`: the first post with that id gains one reply, nothing else changes. */
  function BumpReplies(posts: seq<Post>, id: int): (r: seq<Post>)
    ensures |r| == |posts|
    ensures forall j :: 0 <= j < |posts| && FindPost(posts, id) != Some(j) ==> r[j] == posts[j]
    ensures FindPost(posts, id).None? ==> r == posts
    ensures FindPost(posts, id).Some? ==>
      var i := FindPost(posts, id).value;
      r[i] == posts[i].(replies := posts[i].replies + 1)
  {
    match FindPost(posts, id)
    case None => posts
    case Some(i) => posts[i := posts[i].(replies := posts[i].replies + 1)]
  }

  /** Counting a reply leaves every like counter alone, so likes and replies are independent counters. */
  lemma BumpRepliesKeepsLikes(posts: seq<Post>, id: int)
    ensures forall j :: 0 <= j < |posts| ==> BumpReplies(posts, id)[j].likes == posts[j].likes
    ensures FindPost(BumpReplies(posts, id), id) == FindPost(posts, id)
  {
    SameIdsSamePost(posts, BumpReplies(posts, id), id);
  }

  /** The list after `addAnswer(id, ...)`: the first question with that id gets `answer` at the end of its answers. */
  function AnswerFirst(questions: seq<Question>, id: int, answer: Answer): (r: seq<Question>)
    ensures |r| == |questions|
    ensures forall j :: 0 <= j < |questions| && FindQuestion(questions, id) != Some(j) ==> r[j] == questions[j]
    ensures FindQuestion(questions, id).Some? ==>
      var i := FindQuestion(questions, id).value;
      r[i] == questions[i].(answers := questions[i].answers + [answer])
  {
    match FindQuestion(questions, id)
    case None => questions
    case Some(i) => questions[i := questions[i].(answers := questions[i].answers + [answer])]
  }

  /** The whole browser storage of one origin: one field per key family. */
  class LocalStore {
    var currentUser: StoredSession
    var users: Option<seq<User>>
    var courses: Option<seq<Course>>
    var posts: Option<seq<Post>>
    var postReplies: map<int, seq<Reply>>
    var questions: Option<seq<Question>>
    var courseProgress: map<(int, int), CourseProgress>
    var learningRecords: map<int, seq<LearningRecord>>
    var userSettings: map<int, UserSettings>
    var courseComments: map<int, seq<Comment>>

    /** A storage with no keys at all. */
    predicate IsEmpty()
      reads this
    {
      && currentUser == Absent && users == None && courses == None && posts == None
      && postReplies == map[] && questions == None && courseProgress == map[]
      && learningRecords == map[] && userSettings == map[] && courseComments == map[]
    }

    constructor ()
      ensures IsEmpty()
    {
      currentUser, users, courses, posts := Absent, None, None, None;
      postReplies, questions, courseProgress := map[], None, map[];
      learningRecords, userSettings, courseComments := map[], map[], map[];
    }

    // ---- current user

    method SetCurrentUser(user: SessionUser)
      modifies this`currentUser
      ensures currentUser == Present(user)
      ensures GetCurrentUser() == Parsed(Some(user))
    {
      currentUser := Present(user);
    }

    /** `getCurrentUser()`. */
    function GetCurrentUser(): (r: Parsed<Option<SessionUser>>)
      reads this
      ensures r == Parsed(None) <==> currentUser.Absent?
      ensures currentUser.Present? ==> r == Parsed(Some(currentUser.user))
      ensures r.ParseError? <==> currentUser.Malformed?
    {
      ParseSession(currentUser)
    }

    method RemoveCurrentUser()
      modifies this`currentUser
      ensures currentUser == Absent
      ensures GetCurrentUser() == Parsed(None)
    {
      currentUser := Absent;
    }

    // ---- registered users and the course catalogue (written by the pages directly)

    /** `JSON.parse(localStorage.getItem('users') || '[]')`: a missing key reads as no users. */
    function RegisteredUsers(): (r: seq<User>)
      reads this
      ensures users.None? ==> r == []
      ensures users.Some? ==> r == users.value
    {
      OrEmpty(users)
    }

    method SetUsers(list: seq<User>)
      modifies this`users
      ensures users == Some(list)
    {
      users := Some(list);
    }

    method SetCourses(list: seq<Course>)
      modifies this`courses
      ensures courses == Some(list)
    {
      courses := Some(list);
    }

    // ---- course progress

    /** `getCourseProgress(u, c)`: the record stored for that pair, or null. */
    function GetCourseProgress(userId: int, courseId: int): (r: Option<CourseProgress>)
      reads this
      ensures r.None? <==> (userId, courseId) !in courseProgress
      ensures r.Some? ==> r.value == courseProgress[(userId, courseId)]
    {
      if (userId, courseId) in courseProgress then Some(courseProgress[(userId, courseId)]) else None
    }

    /** `setCourseProgress(u, c, p)`: afterwards the pair reads back `p`, and every other pair reads as before. */
    method SetCourseProgress(userId: int, courseId: int, progress: CourseProgress)
      modifies this`courseProgress
      ensures courseProgress == old(courseProgress)[(userId, courseId) := progress]
      ensures GetCourseProgress(userId, courseId) == Some(progress)
      ensures forall u, c :: (u, c) != (userId, courseId) ==> GetCourseProgress(u, c) == old(GetCourseProgress(u, c))
    {
      courseProgress := courseProgress[(userId, courseId) := progress];
    }

    // ---- learning records

    /** `getLearningRecords(u)`: the user's log, empty when the key is missing. */
    function GetLearningRecords(userId: int): (r: seq<LearningRecord>)
      reads this
      ensures userId !in learningRecords ==> r == []
      ensures userId in learningRecords ==> r == learningRecords[userId]
    {
      ListAt(learningRecords, userId)
    }

    /** `addLearningRecord(u, r)`: exactly one record, stamped with `timestamp`, goes at the end of that user's log. */
    method AddLearningRecord(userId: int, kind: RecordKind, timestamp: string)
      modifies this`learningRecords
      ensures learningRecords == old(learningRecords)[userId := old(GetLearningRecords(userId)) + [LearningRecord(kind, timestamp)]]
      ensures |GetLearningRecords(userId)| == |old(GetLearningRecords(userId))| + 1
    {
      var records := GetLearningRecords(userId);
      records := records + [LearningRecord(kind, timestamp)];
      learningRecords := learningRecords[userId := records];
    }

    // ---- community posts

    /** `getPosts()`: newest first, empty when the key is missing. */
    function GetPosts(): (r: seq<Post>)
      reads this
      ensures posts.None? ==> r == []
      ensures posts.Some? ==> r == posts.value
    {
      OrEmpty(posts)
    }

    /**
     * `addPost(draft)`: the new post, numbered `id` and stamped `publishTime`,
     * starts with no likes, replies or views and goes in front of the old posts.
     */
    method AddPost(draft: PostDraft, id: int, publishTime: string) returns (newPost: Post)
      modifies this`posts
      ensures newPost == Post(id, draft.title, draft.content, draft.author, draft.authorAvatar,
                              draft.category, draft.tags, publishTime, 0, 0, 0)
      ensures posts == Some([newPost] + old(GetPosts()))
      ensures |GetPosts()| == |old(GetPosts())| + 1 && GetPosts()[0] == newPost && GetPosts()[1..] == old(GetPosts())
    {
      var list := GetPosts();
      newPost := Post(id, draft.title, draft.content, draft.author, draft.authorAvatar,
                      draft.category, draft.tags, publishTime, 0, 0, 0);
      list := [newPost] + list;
      posts := Some(list);
    }

    /** `likePost(id)`: one more like on the first post with that id, returning its new count; 0 and no write when there is none. */
    method LikePost(postId: int) returns (likes: int)
      modifies this`posts
      ensures FindPost(old(GetPosts()), postId).None? ==> likes == 0 && posts == old(posts)
      ensures FindPost(old(GetPosts()), postId).Some? ==>
        posts == Some(LikeFirst(old(GetPosts()), postId).0) && likes == LikeFirst(old(GetPosts()), postId).1
    {
      var list := GetPosts();
      var found := FindPost(list, postId);
      if found.Some? {
        var i := found.value;
        list := list[i := list[i].(likes := list[i].likes + 1)];
        posts := Some(list);
        likes := list[i].likes;
      } else {
        likes := 0;
      }
    }

    // ---- replies

    /** `getPostReplies(id)`: oldest first, empty when the key is missing. */
    function GetPostReplies(postId: int): (r: seq<Reply>)
      reads this
      ensures postId !in postReplies ==> r == []
      ensures postId in postReplies ==> r == postReplies[postId]
    {
      ListAt(postReplies, postId)
    }

    /**
     * `addPostReply(id, draft)`: the reply, with no likes, goes at the end of that
     * post's reply list only; the post's own `replies` counter is not touched.
     */
    method AddPostReply(postId: int, draft: ReplyDraft, id: int, publishTime: string) returns (newReply: Reply)
      modifies this`postReplies
      ensures newReply == Reply(id, draft.content, draft.author, draft.authorAvatar,
                                draft.replyToId, draft.replyToAuthor, publishTime, 0)
      ensures postReplies == old(postReplies)[postId := old(GetPostReplies(postId)) + [newReply]]
    {
      var list := GetPostReplies(postId);
      newReply := Reply(id, draft.content, draft.author, draft.authorAvatar,
                        draft.replyToId, draft.replyToAuthor, publishTime, 0);
      list := list + [newReply];
      postReplies := postReplies[postId := list];
    }

    /** `updatePostReplies(id, list)`: the post's reply list becomes `list`. */
    method UpdatePostReplies(postId: int, list: seq<Reply>)
      modifies this`postReplies
      ensures postReplies == old(postReplies)[postId := list]
    {
      postReplies := postReplies[postId := list];
    }

    /** `incrementPostReplies(id)`: one more on the matching post's counter; a missing post means no write. */
    method IncrementPostReplies(postId: int)
      modifies this`posts
      ensures FindPost(old(GetPosts()), postId).None? ==> posts == old(posts)
      ensures FindPost(old(GetPosts()), postId).Some? ==> posts == Some(BumpReplies(old(GetPosts()), postId))
    {
      var list := GetPosts();
      var found := FindPost(list, postId);
      if found.Some? {
        var i := found.value;
        list := list[i := list[i].(replies := list[i].replies + 1)];
        posts := Some(list);
      }
    }

    // ---- questions and answers

    /** `getQuestions()`: newest first, empty when the key is missing. */
    function GetQuestions(): (r: seq<Question>)
      reads this
      ensures questions.None? ==> r == []
      ensures questions.Some? ==> r == questions.value
    {
      OrEmpty(questions)
    }

    /** `addQuestion(draft)`: the new question, with no likes and no answers, goes in front. */
    method AddQuestion(draft: QuestionDraft, id: int, publishTime: string) returns (newQuestion: Question)
      modifies this`questions
      ensures newQuestion == Question(id, draft.title, draft.content, draft.author, draft.authorAvatar,
                                      draft.category, publishTime, 0, [])
      ensures questions == Some([newQuestion] + old(GetQuestions()))
    {
      var list := GetQuestions();
      newQuestion := Question(id, draft.title, draft.content, draft.author, draft.authorAvatar,
                              draft.category, publishTime, 0, []);
      list := [newQuestion] + list;
      questions := Some(list);
    }

    /**
     * `addAnswer(id, draft)`: an answer with no likes, not marked best, goes at
     * the end of the first matching question's answers; null and no write when
     * no question has that id.
     */
    method AddAnswer(questionId: int, draft: AnswerDraft, id: int, publishTime: string) returns (r: Option<Answer>)
      modifies this`questions
      ensures FindQuestion(old(GetQuestions()), questionId).None? ==> r == None && questions == old(questions)
      ensures FindQuestion(old(GetQuestions()), questionId).Some? ==>
        && r == Some(Answer(id, draft.content, draft.author, draft.authorAvatar, publishTime, 0, false))
        && questions == Some(AnswerFirst(old(GetQuestions()), questionId, r.value))
    {
      var list := GetQuestions();
      var found := FindQuestion(list, questionId);
      if found.Some? {
        var i := found.value;
        var answer := Answer(id, draft.content, draft.author, draft.authorAvatar, publishTime, 0, false);
        list := list[i := list[i].(answers := list[i].answers + [answer])];
        questions := Some(list);
        r := Some(answer);
      } else {
        r := None;
      }
    }

    // ---- settings

    /** `getUserSettings(u)`: what was saved, or light theme, zh-CN, notifications on, e-mail updates off. */
    function GetUserSettings(userId: int): (r: UserSettings)
      reads this
      ensures userId !in userSettings ==> r == UserSettings("light", "zh-CN", true, false)
      ensures userId in userSettings ==> r == userSettings[userId]
    {
      if userId in userSettings then userSettings[userId] else DefaultSettings
    }

    method SetUserSettings(userId: int, settings: UserSettings)
      modifies this`userSettings
      ensures userSettings == old(userSettings)[userId := settings]
      ensures GetUserSettings(userId) == settings
    {
      userSettings := userSettings[userId := settings];
    }

    // ---- course comments

    /** `getCourseComments(c)`: newest first, empty when the key is missing. */
    function GetCourseComments(courseId: int): (r: seq<Comment>)
      reads this
      ensures courseId !in courseComments ==> r == []
      ensures courseId in courseComments ==> r == courseComments[courseId]
    {
      ListAt(courseComments, courseId)
    }

    /** `addCourseComment(c, draft)`: exactly one comment, with no likes, goes in front of that course's comments. */
    method AddCourseComment(courseId: int, draft: CommentDraft, id: int, publishTime: string) returns (newComment: Comment)
      modifies this`courseComments
      ensures newComment == Comment(id, draft.content, draft.author, draft.authorAvatar, draft.rating, publishTime, 0)
      ensures courseComments == old(courseComments)[courseId := [newComment] + old(GetCourseComments(courseId))]
    {
      var list := GetCourseComments(courseId);
      newComment := Comment(id, draft.content, draft.author, draft.authorAvatar, draft.rating, publishTime, 0);
      list := [newComment] + list;
      courseComments := courseComments[courseId := list];
    }

    /** `clearAll()`: every key is removed. */
    method ClearAll()
      modifies this
      ensures IsEmpty()
    {
      currentUser, users, courses, posts := Absent, None, None, None;
      postReplies, questions, courseProgress := map[], None, map[];
      learningRecords, userSettings, courseComments := map[], map[], map[];
    }
  }
}
