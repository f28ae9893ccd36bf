/**
 * The records the platform keeps in the browser's key-value storage. Every
 * value is stored as JSON; here each is a typed value and encoding followed by
 * decoding is the identity. Ids are the client clock in milliseconds.
 */
module Entities {
  import opened Wrappers

  /** A registered or seed account, password in plain text. */
  datatype User = User(
    id: int, username: string, email: string, password: string, role: string,
    avatar: string, joinDate: string, coursesCompleted: int, totalScore: int, level: string)

  /** What the login page hands to the session: the account without its password and counters. */
  datatype SessionUser = SessionUser(
    id: int, username: string, email: string, role: string, avatar: string, level: string)

  datatype Lesson = Lesson(id: int, title: string, duration: string, completed: bool, videoUrl: string)

  datatype Course = Course(
    id: int, title: string, description: string, instructor: string, duration: string,
    difficulty: string, category: string, enrolledStudents: int, rating: real,
    thumbnail: string, lessons: seq<Lesson>)

  /** The value under `course_progress_{userId}_{courseId}`. */
  datatype CourseProgress = CourseProgress(
    courseId: int, completedLessons: int, totalLessons: int, currentLessonId: int, lastStudyTime: string)

  /** The fields a page supplies when it creates a post; the store adds the rest. */
  datatype PostDraft = PostDraft(
    title: string, content: string, category: string, tags: seq<string>, author: string, authorAvatar: string)

  datatype Post = Post(
    id: int, title: string, content: string, author: string, authorAvatar: string, category: string,
    tags: seq<string>, publishTime: string, likes: int, replies: int, views: int)

  datatype ReplyDraft = ReplyDraft(
    content: string, author: string, authorAvatar: string, replyToId: Option<int>, replyToAuthor: Option<string>)

  /** A reply; the post it belongs to is the key it is stored under. */
  datatype Reply = Reply(
    id: int, content: string, author: string, authorAvatar: string,
    replyToId: Option<int>, replyToAuthor: Option<string>, publishTime: string, likes: int)

  datatype QuestionDraft = QuestionDraft(
    title: string, content: string, author: string, authorAvatar: string, category: string)

  datatype AnswerDraft = AnswerDraft(content: string, author: string, authorAvatar: string)

  datatype Answer = Answer(
    id: int, content: string, author: string, authorAvatar: string, publishTime: string, likes: int, isBest: bool)

  datatype Question = Question(
    id: int, title: string, content: string, author: string, authorAvatar: string, category: string,
    publishTime: string, likes: int, answers: seq<Answer>)

  datatype CommentDraft = CommentDraft(content: string, author: string, authorAvatar: string, rating: int)

  /** A course comment. */
  datatype Comment = Comment(
    id: int, content: string, author: string, authorAvatar: string, rating: int, publishTime: string, likes: int)

  /** The two kinds of learning record the pages write. */
  datatype RecordKind =
    | CourseEnrolled(courseId: int, titleIfFound: Option<string>)
    | LessonCompleted(courseId: int, courseTitle: string, lessonId: int, lessonTitle: string)

  /** An entry of the append-only log `learning_records_{userId}`, stamped with an ISO time. */
  datatype LearningRecord = LearningRecord(kind: RecordKind, timestamp: string)

  datatype UserSettings = UserSettings(theme: string, language: string, notifications: bool, emailUpdates: bool)
}
