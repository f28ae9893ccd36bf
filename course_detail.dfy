/**
 * CourseDetail.jsx: one course's page. The course and its lessons come from
 * the in-memory seed catalogue, whose lesson objects the page mutates; the
 * progress record and the comments live in the store.
 */
module CourseDetail {
  import opened Wrappers
  import opened Entities
  import opened Text
  import opened Seqs
  import opened Storage

  /**
   * A course of the in-memory catalogue. Its lessons are shared objects: a
   * lesson marked completed stays completed for every later page on that
   * catalogue, whoever is signed in.
   */
  class CourseFixture {
    const id: int
    const title: string
    const lessons: array<Lesson>

    constructor (course: Course)
      ensures id == course.id && title == course.title
      ensures fresh(lessons) && lessons[..] == course.lessons
    {
      id := course.id;
      title := course.title;
      lessons := new Lesson[|course.lessons|](k requires 0 <= k < |course.lessons| => course.lessons[k]);
    }
  }

  /** `mockCourses.find(c => c.id === courseId)`. */
  function FindFixture(catalogue: seq<CourseFixture>, courseId: int): (r: Option<CourseFixture>)
    ensures r.None? <==> forall k :: 0 <= k < |catalogue| ==> catalogue[k].id != courseId
    ensures r.Some? ==> exists k :: && 0 <= k < |catalogue| && catalogue[k] == r.value && r.value.id == courseId
                                    && forall j :: 0 <= j < k ==> catalogue[j].id != courseId
  {
    match FindFirst(catalogue, (f: CourseFixture) => f.id == courseId)
    case None => None
    case Some(k) => Some(catalogue[k])
  }

  /** `lessons.findIndex(l => l.id === lessonId)`, `None` for -1. */
  function LessonIndex(lessons: seq<Lesson>, lessonId: int): (r: Option<nat>)
    ensures r.None? <==> forall k :: 0 <= k < |lessons| ==> lessons[k].id != lessonId
    ensures r.Some? ==> r.value < |lessons| && lessons[r.value].id == lessonId
    ensures r.Some? ==> forall k :: 0 <= k < r.value ==> lessons[k].id != lessonId
  {
    FindFirst(lessons, (l: Lesson) => l.id == lessonId)
  }

  /** With distinct lesson ids, looking a lesson up by its id finds its own position. */
  lemma LessonIndexOfOwnId(lessons: seq<Lesson>, k: nat)
    requires k < |lessons|
    requires forall i, j :: 0 <= i < j < |lessons| ==> lessons[i].id != lessons[j].id
    ensures LessonIndex(lessons, lessons[k].id) == Some(k)
  {
  }

  predicate Done(lesson: Lesson)
  {
    lesson.completed
  }

  /** `updatedLessons.filter(l => l.completed).length`. */
  function CompletedCount(lessons: seq<Lesson>): (n: nat)
    ensures n <= |lessons|
    ensures n == 0 <==> forall k :: 0 <= k < |lessons| ==> !lessons[k].completed
  {
    var done := Filter(lessons, Done);
    assert done != [] ==> done[0].completed;
    |done|
  }

  /** The lesson at `idx` marked completed. */
  function MarkCompleted(lessons: seq<Lesson>, idx: nat): (r: seq<Lesson>)
    requires idx < |lessons|
    ensures |r| == |lessons| && r[idx].completed
    ensures forall k :: 0 <= k < |lessons| && k != idx ==> r[k] == lessons[k]
    ensures r[idx] == lessons[idx].(completed := true)
  {
    lessons[idx := lessons[idx].(completed := true)]
  }

  /**
   * The count is recomputed, not incremented: completing a lesson raises it by
   * one when the lesson was not completed yet and leaves it alone otherwise, and
   * completing the same lesson twice is the same as completing it once.
   */
  lemma CompletionCount(lessons: seq<Lesson>, idx: nat)
    requires idx < |lessons|
    ensures CompletedCount(MarkCompleted(lessons, idx)) == CompletedCount(lessons) + (if lessons[idx].completed then 0 else 1)
    ensures MarkCompleted(MarkCompleted(lessons, idx), idx) == MarkCompleted(lessons, idx)
  {
    if lessons[idx].completed {
      assert MarkCompleted(lessons, idx) == lessons;
    } else {
      FilterGrowsByOne(lessons, Done, idx, lessons[idx].(completed := true));
    }
  }

  /** The record after a lesson click: only the current lesson and the study time change. */
  function MovedTo(p: CourseProgress, lessonId: int, now: string): (r: CourseProgress)
    ensures r.courseId == p.courseId && r.completedLessons == p.completedLessons && r.totalLessons == p.totalLessons
    ensures r.currentLessonId == lessonId && r.lastStudyTime == now
  {
    p.(currentLessonId := lessonId, lastStudyTime := now)
  }

  /** The record a first visit creates: nothing completed, every lesson counted, the first lesson current. */
  function FirstVisit(courseId: int, lessons: seq<Lesson>, now: string): (r: CourseProgress)
    requires |lessons| > 0
    ensures r.courseId == courseId && r.completedLessons == 0 && r.totalLessons == |lessons|
    ensures r.currentLessonId == lessons[0].id && r.lastStudyTime == now
  {
    CourseProgress(courseId, 0, |lessons|, lessons[0].id, now)
  }

  /** What `handleCompleteLesson` reports. */
  datatype CompleteOutcome = NotSignedIn | Advanced | CourseFinished

  /** The page of one course. `currentLesson` is the position of the current lesson object in the course's lessons. */
  class CourseDetailPage {
    const store: LocalStore
    const currentUser: Option<SessionUser>
    const courseId: int
    const course: Option<CourseFixture>
    var currentLesson: Option<nat>
    var progress: Option<CourseProgress>
    var comments: seq<Comment>

    /** There is a progress record exactly when there are a user and a course, and a current lesson exactly when there is a course. */
    predicate Valid()
      reads this
    {
      && (progress.Some? <==> currentUser.Some? && course.Some?)
      && (course.Some? ==> course.value.lessons.Length > 0 && currentLesson.Some?)
      && (currentLesson.Some? ==> course.Some? && currentLesson.value < course.value.lessons.Length)
    }

    /**
     * The lazy initialisers. Without a user or a course there is no progress
     * record; a saved record is used as it is; otherwise a first-visit record
     * is created and stored. Comments are read only when the course exists.
     */
    constructor (store: LocalStore, currentUser: Option<SessionUser>, courseId: int,
                 catalogue: seq<CourseFixture>, now: string)
      requires forall k :: 0 <= k < |catalogue| ==> catalogue[k].lessons.Length > 0
      modifies store`courseProgress
      ensures Valid()
      ensures this.store == store && this.currentUser == currentUser && this.courseId == courseId
      ensures course == FindFixture(catalogue, courseId)
      ensures currentLesson == if course.Some? then Some(0) else None
      ensures comments == if course.Some? then store.GetCourseComments(courseId) else []
      ensures currentUser.None? || course.None? ==> progress == None && store.courseProgress == old(store.courseProgress)
      ensures currentUser.Some? && course.Some? && old(store.GetCourseProgress(currentUser.value.id, courseId)).Some? ==>
        progress == old(store.GetCourseProgress(currentUser.value.id, courseId)) && store.courseProgress == old(store.courseProgress)
      ensures currentUser.Some? && course.Some? && old(store.GetCourseProgress(currentUser.value.id, courseId)).None? ==>
        && progress == Some(FirstVisit(courseId, course.value.lessons[..], now))
        && store.courseProgress == old(store.courseProgress)[(currentUser.value.id, courseId) := progress.value]
    {
      var found := FindFixture(catalogue, courseId);
      var p: Option<CourseProgress> := None;
      if currentUser.Some? && found.Some? {
        var saved := store.GetCourseProgress(currentUser.value.id, courseId);
        if saved.Some? {
          p := saved;
        } else {
          var initial := FirstVisit(courseId, found.value.lessons[..], now);
          store.SetCourseProgress(currentUser.value.id, courseId, initial);
          p := Some(initial);
        }
      }
      this.store := store;
      this.currentUser := currentUser;
      this.courseId := courseId;
      course := found;
      currentLesson := if found.Some? then Some(0) else None;
      progress := p;
      comments := if found.Some? then store.GetCourseComments(courseId) else [];
    }

    /**
     * `handleLessonClick`: the clicked lesson becomes current; with a user,
     * the record moves to it and is stored, and nothing else in it changes.
     */
    method LessonClick(k: nat, now: string)
      requires Valid() && course.Some? && k < course.value.lessons.Length
      modifies this`currentLesson, this`progress, store`courseProgress
      ensures Valid()
      ensures currentLesson == Some(k)
      ensures currentUser.None? ==> progress == old(progress) && store.courseProgress == old(store.courseProgress)
      ensures currentUser.Some? ==>
        && progress == Some(MovedTo(old(progress).value, course.value.lessons[k].id, now))
        && store.courseProgress == old(store.courseProgress)[(currentUser.value.id, courseId) := progress.value]
    {
      currentLesson := Some(k);
      if currentUser.Some? && progress.Some? {
        var updated := MovedTo(progress.value, course.value.lessons[k].id, now);
        progress := Some(updated);
        store.SetCourseProgress(currentUser.value.id, courseId, updated);
      }
    }

    /**
     * `handleCompleteLesson`: without a user nothing changes. Otherwise the
     * lesson found by the current lesson's id is marked completed in the shared
     * catalogue, the record's count becomes the number of completed lessons and
     * is stored, one `lesson_completed` record is logged, and the next lesson
     * becomes current unless this was the last.
     */
    method CompleteLesson(now: string) returns (outcome: CompleteOutcome)
      requires Valid() && course.Some?
      modifies this`currentLesson, this`progress, store`courseProgress, store`learningRecords, course.value.lessons
      ensures Valid()
      ensures currentUser.None? ==>
        && outcome == NotSignedIn
        && course.value.lessons[..] == old(course.value.lessons[..])
        && currentLesson == old(currentLesson) && progress == old(progress)
        && store.courseProgress == old(store.courseProgress) && store.learningRecords == old(store.learningRecords)
      ensures currentUser.Some? ==>
        var ls := course.value.lessons;
        var current := old(ls[currentLesson.value]);
        var idx := LessonIndex(old(ls[..]), current.id).value;
        && ls[..] == MarkCompleted(old(ls[..]), idx)
        && progress == Some(old(progress).value.(completedLessons := CompletedCount(ls[..]), lastStudyTime := now))
        && progress.value.completedLessons <= ls.Length
        && store.courseProgress == old(store.courseProgress)[(currentUser.value.id, courseId) := progress.value]
        && store.learningRecords == old(store.learningRecords)[currentUser.value.id :=
             old(store.GetLearningRecords(currentUser.value.id))
             + [LearningRecord(LessonCompleted(courseId, course.value.title, current.id, current.title), now)]]
        && (idx < ls.Length - 1 ==> outcome == Advanced && currentLesson == Some(idx + 1))
        && (idx == ls.Length - 1 ==> outcome == CourseFinished && currentLesson == old(currentLesson))
    {
      if currentUser.None? {
        return NotSignedIn;
      }
      var ls := course.value.lessons;
      var current := ls[currentLesson.value];
      var idx := LessonIndex(ls[..], current.id).value;
      ls[idx] := ls[idx].(completed := true);
      assert ls[..] == MarkCompleted(old(ls[..]), idx);
      var updated := progress.value.(completedLessons := CompletedCount(ls[..]), lastStudyTime := now);
      progress := Some(updated);
      store.SetCourseProgress(currentUser.value.id, courseId, updated);
      store.AddLearningRecord(currentUser.value.id,
                              LessonCompleted(courseId, course.value.title, current.id, current.title), now);
      if idx < ls.Length - 1 {
        currentLesson := Some(idx + 1);
        outcome := Advanced;
      } else {
        outcome := CourseFinished;
      }
    }

    /** `handleVideoEnded`: the same as clicking the next lesson, unless the current one is the last. */
    method VideoEnded(now: string)
      requires Valid() && course.Some?
      modifies this`currentLesson, this`progress, store`courseProgress
      ensures Valid()
      ensures
        var ls := course.value.lessons;
        var idx := LessonIndex(ls[..], ls[old(currentLesson).value].id).value;
        && (idx < ls.Length - 1 ==>
              && currentLesson == Some(idx + 1)
              && (currentUser.Some? ==>
                    && progress == Some(MovedTo(old(progress).value, ls[idx + 1].id, now))
                    && store.courseProgress == old(store.courseProgress)[(currentUser.value.id, courseId) := progress.value])
              && (currentUser.None? ==> progress == old(progress) && store.courseProgress == old(store.courseProgress)))
        && (idx >= ls.Length - 1 ==>
              currentLesson == old(currentLesson) && progress == old(progress) && store.courseProgress == old(store.courseProgress))
    {
      var ls := course.value.lessons;
      var idx := LessonIndex(ls[..], ls[currentLesson.value].id).value;
      if idx < ls.Length - 1 {
        LessonClick(idx + 1, now);
      }
    }

    /**
     * `handleSubmitComment`: without a user, or with a blank comment, nothing is
     * written; otherwise the comment is stored in front of the course's comments
     * and shown in front of the shown ones, so a page that showed the stored
     * list still does.
     */
    method SubmitComment(content: string, rating: int, id: int, publishTime: string) returns (saved: Option<Comment>)
      modifies this`comments, store`courseComments
      ensures currentUser.None? || IsBlank(content) ==>
        saved == None && comments == old(comments) && store.courseComments == old(store.courseComments)
      ensures currentUser.Some? && !IsBlank(content) ==>
        && saved == Some(Comment(id, content, currentUser.value.username, currentUser.value.avatar, rating, publishTime, 0))
        && comments == [saved.value] + old(comments)
        && store.courseComments == old(store.courseComments)[courseId := [saved.value] + old(store.GetCourseComments(courseId))]
      ensures old(comments) == old(store.GetCourseComments(courseId)) ==> comments == store.GetCourseComments(courseId)
    {
      if currentUser.None? || Trim(content) == "" {
        return None;
      }
      var draft := CommentDraft(content, currentUser.value.username, currentUser.value.avatar, rating);
      var c := store.AddCourseComment(courseId, draft, id, publishTime);
      comments := [c] + comments;
      saved := Some(c);
    }
  }

  /** `Math.trunc`: the integer next to `x` on the side of zero. */
  function Trunc(x: real): (r: int)
    ensures x >= 0.0 ==> 0 <= r && r as real <= x < r as real + 1.0
    ensures x < 0.0 ==> r <= 0 && r as real - 1.0 < x <= r as real
  {
    if x >= 0.0 then x.Floor else -((-x).Floor)
  }

  /** JavaScript's `x % 60`: the remainder takes the sign of `x`. */
  function JsRem60(x: real): (r: real)
    ensures x >= 0.0 ==> 0.0 <= r < 60.0 && r == x - 60.0 * ((x / 60.0).Floor as real)
    ensures x < 0.0 ==> -60.0 < r <= 0.0
  {
    var q := Trunc(x / 60.0);
    x - 60.0 * (q as real)
  }

  /** `Math.floor(s / 60)` and `Math.floor(s % 60)`. */
  function ClockParts(seconds: real): (r: (int, int))
    ensures seconds >= 0.0 ==> r.0 >= 0 && 0 <= r.1 < 60
    ensures seconds >= 0.0 ==> ((r.0 * 60 + r.1) as real) <= seconds < ((r.0 * 60 + r.1 + 1) as real)
    ensures seconds < 0.0 ==> r.0 < 0 && -60 <= r.1 <= 0
  {
    ((seconds / 60.0).Floor, JsRem60(seconds).Floor)
  }

  /**
   * `String(i)` for an integer: a minus sign exactly for negative numbers, then
   * digits without a leading zero that read back as `|i|`.
   */
  function IntToString(i: int): (r: string)
    ensures |r| >= 1 && (r[0] == '-' <==> i < 0)
    ensures i >= 0 ==> IsDigits(r) && DigitsValue(r) == i && (r[0] == '0' <==> i == 0)
    ensures i < 0 ==> |r| >= 2 && r[1] != '0' && IsDigits(r[1..]) && DigitsValue(r[1..]) == -i
  {
    if i < 0 then
      NatToStringValue(-i);
      assert ("-" + NatToString(-i))[1..] == NatToString(-i);
      "-" + NatToString(-i)
    else
      NatToStringValue(i);
      NatToString(i)
  }

  /**
   * `formatTime`: `None` stands for NaN, shown as `0:00`; any other time is
   * the minutes, a colon, and the seconds padded to at least two characters.
   */
  function FormatClock(seconds: Option<real>): (r: string)
    ensures seconds.None? ==> r == "0:00"
    ensures seconds.Some? ==> |r| >= 4 && ':' in r
  {
    match seconds
    case None => "0:00"
    case Some(s) =>
      var parts := ClockParts(s);
      var r := IntToString(parts.0) + ":" + PadStart(IntToString(parts.1), 2, '0');
      assert r[|IntToString(parts.0)|] == ':';
      r
  }

  /** The two-digit seconds field. */
  lemma TwoDigits(n: nat)
    requires n < 60
    ensures var t := PadStart(NatToString(n), 2, '0'); |t| == 2 && IsDigits(t) && DigitsValue(t) == n
  {
    if n < 10 {
      OneDigitPadded(n);
    } else {
      NatToStringValue(n);
      var d := NatToString(n);
      assert d == NatToString(n / 10) + [DigitChar(n % 10)];
      assert |d| == 2;
    }
  }

  lemma OneDigitPadded(n: nat)
    requires n < 10
    ensures PadStart(NatToString(n), 2, '0') == ['0', DigitChar(n)]
    ensures DigitsValue(['0', DigitChar(n)]) == n
  {
    var t := ['0', DigitChar(n)];
    assert DigitChar(n) as int - '0' as int == n;
    assert t[..1] == ['0'];
    assert t[..1][..0] == [];
    assert DigitsValue(t[..1]) == 0;
  }

  /**
   * `r` reads back as minutes, a colon and two digits of seconds, and those
   * two numbers are the whole minutes and the whole seconds left over in `s`.
   */
  predicate ReadsBackAsClock(r: string, s: real)
  {
    && |r| >= 4 && r[|r| - 3] == ':'
    && IsDigits(r[..|r| - 3]) && IsDigits(r[|r| - 2..])
    && DigitsValue(r[|r| - 2..]) < 60
    && ((DigitsValue(r[..|r| - 3]) * 60 + DigitsValue(r[|r| - 2..])) as real) <= s
    && s < ((DigitsValue(r[..|r| - 3]) * 60 + DigitsValue(r[|r| - 2..]) + 1) as real)
    && (r[0] == '0' ==> |r| == 4)
  }

  /** Gluing minutes, a colon and a two-character field: the pieces are found again at fixed offsets from the end. */
  lemma ClockTextPieces(m: string, t: string)
    requires |m| >= 1 && |t| == 2
    ensures var r := m + ":" + t; |r| >= 4 && r[|r| - 3] == ':' && r[..|r| - 3] == m && r[|r| - 2..] == t
  {
    var r := m + ":" + t;
    assert r[..|r| - 3] == m;
    assert r[|r| - 2..] == t;
  }

  /** For a non-negative time the clock text reads back as its whole minutes and seconds. */
  lemma FormatClockReadsBack(s: real)
    requires s >= 0.0
    ensures ReadsBackAsClock(FormatClock(Some(s)), s)
  {
    var parts := ClockParts(s);
    var m := NatToString(parts.0);
    var t := PadStart(NatToString(parts.1), 2, '0');
    TwoDigits(parts.1);
    NatToStringValue(parts.0);
    var r := m + ":" + t;
    ClockTextPieces(m, t);
    assert DigitsValue(r[..|r| - 3]) == parts.0 && DigitsValue(r[|r| - 2..]) == parts.1;
    assert ReadsBackAsClock(r, s);
    assert IntToString(parts.0) == m && IntToString(parts.1) == NatToString(parts.1);
    assert FormatClock(Some(s)) == r;
  }
}
