/**
 * Courses.jsx: the catalogue page. Seeding the stored catalogue, the category
 * list, filtering, enrolment, and the progress figure behind "enrolled".
 */
module Courses {
  import opened Wrappers
  import opened Entities
  import opened Text
  import opened Seqs
  import Fixtures
  import opened Storage

  /** Each course's category, in catalogue order. */
  function CategoryList(courses: seq<Course>): (r: seq<string>)
    ensures |r| == |courses|
    ensures forall k :: 0 <= k < |courses| ==> r[k] == courses[k].category
  {
    seq(|courses|, k requires 0 <= k < |courses| => courses[k].category)
  }

  /** The category menu: `'all'`, then each course category once, in order of first appearance. */
  function Categories(courses: seq<Course>): (r: seq<string>)
    ensures |r| >= 1 && r[0] == "all"
    ensures forall k :: 0 <= k < |courses| ==> courses[k].category in r[1..]
    ensures forall i :: 1 <= i < |r| ==> r[i] in CategoryList(courses)
    ensures forall i, j :: 1 <= i < j < |r| ==> r[i] != r[j]
    ensures forall i, j :: 1 <= i < j < |r| ==> IndexOf(CategoryList(courses), r[i]) < IndexOf(CategoryList(courses), r[j])
  {
    var cats := CategoryList(courses);
    var d := Distinct(cats);
    assert forall k :: 0 <= k < |courses| ==> courses[k].category in d by {
      forall k | 0 <= k < |courses| ensures courses[k].category in d {
        assert cats[k] in d;
      }
    }
    ["all"] + d
  }

  /** The fixed difficulty menu. */
  const Difficulties: seq<string> := ["all", "初级", "中级", "高级"]

  /** `'all'` selects every value. */
  predicate Selects(selected: string, value: string)
  {
    selected == "all" || value == selected
  }

  predicate SearchMatches(course: Course, term: string)
  {
    var t := ToLower(term);
    Includes(ToLower(course.title), t) || Includes(ToLower(course.description), t)
  }

  predicate Shown(course: Course, category: string, difficulty: string, term: string)
  {
    Selects(category, course.category) && Selects(difficulty, course.difficulty) && SearchMatches(course, term)
  }

  /** `filteredCourses`: the courses that pass all three tests, in catalogue order. */
  function FilterCourses(courses: seq<Course>, category: string, difficulty: string, term: string): (r: seq<Course>)
    ensures IsSubseq(r, courses)
    ensures |r| == CountOf(courses, (c: Course) => Shown(c, category, difficulty, term))
    ensures forall k :: 0 <= k < |r| ==> r[k] in courses && Shown(r[k], category, difficulty, term)
    ensures forall k :: 0 <= k < |courses| && Shown(courses[k], category, difficulty, term) ==> courses[k] in r
  {
    Filter(courses, (c: Course) => Shown(c, category, difficulty, term))
  }

  /** The page's initial filters show the whole catalogue. */
  lemma DefaultFiltersShowAll(courses: seq<Course>)
    ensures FilterCourses(courses, "all", "all", "") == courses
  {
    forall k | 0 <= k < |courses| ensures Shown(courses[k], "all", "all", "") {
      assert ToLower("") == "";
      IncludesEmpty(ToLower(courses[k].title));
    }
    FilterKeepsAll(courses, (c: Course) => Shown(c, "all", "all", ""));
  }

  /** The map in `handleEnrollCourse`: one more student on every course with that id, the rest untouched. */
  function EnrollIn(courses: seq<Course>, courseId: int): (r: seq<Course>)
    ensures |r| == |courses|
    ensures forall k :: 0 <= k < |courses| && courses[k].id != courseId ==> r[k] == courses[k]
    ensures forall k :: 0 <= k < |courses| && courses[k].id == courseId ==>
      r[k] == courses[k].(enrolledStudents := courses[k].enrolledStudents + 1)
  {
    seq(|courses|, k requires 0 <= k < |courses| =>
      if courses[k].id == courseId then courses[k].(enrolledStudents := courses[k].enrolledStudents + 1)
      else courses[k])
  }

  /** Total of `enrolledStudents` over the catalogue. */
  function TotalEnrolled(courses: seq<Course>): int
  {
    if courses == [] then 0 else courses[0].enrolledStudents + TotalEnrolled(courses[1..])
  }

  /** Enrolling adds one student per course carrying the id, so exactly one when ids are unique, none for an unknown id. */
  lemma {:induction false} EnrollAddsOnePerMatch(courses: seq<Course>, courseId: int)
    ensures TotalEnrolled(EnrollIn(courses, courseId)) == TotalEnrolled(courses) + CountOf(courses, (c: Course) => c.id == courseId)
  {
    if courses != [] {
      EnrollAddsOnePerMatch(courses[1..], courseId);
      assert EnrollIn(courses, courseId)[1..] == EnrollIn(courses[1..], courseId);
    }
  }

  /** Enrolling changes no id, title, category or difficulty, so the menus and the filter see the same catalogue. */
  lemma EnrollKeepsCategories(courses: seq<Course>, courseId: int)
    ensures Categories(EnrollIn(courses, courseId)) == Categories(courses)
  {
    var after := EnrollIn(courses, courseId);
    assert seq(|after|, k requires 0 <= k < |after| => after[k].category)
        == seq(|courses|, k requires 0 <= k < |courses| => courses[k].category);
  }

  /** `courses.find(c => c.id === courseId)?.title`: `None` stands for `undefined`. */
  function TitleOf(courses: seq<Course>, courseId: int): (r: Option<string>)
    ensures r.None? <==> forall k :: 0 <= k < |courses| ==> courses[k].id != courseId
    ensures r.Some? ==> exists k :: && 0 <= k < |courses| && courses[k].id == courseId && courses[k].title == r.value
                                    && forall j :: 0 <= j < k ==> courses[j].id != courseId
  {
    match FindFirst(courses, (c: Course) => c.id == courseId)
    case None => None
    case Some(k) => Some(courses[k].title)
  }

  /** A JavaScript number that results from dividing two integers. */
  datatype Number = Finite(value: real) | PlusInfinity | MinusInfinity | NaN

  /** `a / b * 100` with JavaScript's rules for a zero divisor. */
  function Percent(a: int, b: int): (r: Number)
    ensures b != 0 ==> r == Finite(a as real / b as real * 100.0)
    ensures b == 0 ==> (r == PlusInfinity <==> a > 0) && (r == MinusInfinity <==> a < 0) && (r == NaN <==> a == 0)
  {
    if b != 0 then Finite(a as real / b as real * 100.0)
    else if a > 0 then PlusInfinity
    else if a < 0 then MinusInfinity
    else NaN
  }

  /** `x > 0` on a JavaScript number. */
  predicate Positive(x: Number)
  {
    (x.Finite? && x.value > 0.0) || x.PlusInfinity?
  }

  /** `getProgress`: 0 with no user or no saved record, otherwise completed over total as a percentage. */
  function Progress(user: Option<SessionUser>, saved: Option<CourseProgress>): (r: Number)
    ensures user.None? || saved.None? ==> r == Finite(0.0)
    ensures user.Some? && saved.Some? ==> r == Percent(saved.value.completedLessons, saved.value.totalLessons)
  {
    if user.None? || saved.None? then Finite(0.0)
    else Percent(saved.value.completedLessons, saved.value.totalLessons)
  }

  /** `isEnrolled`: a user and a positive progress figure. */
  predicate IsEnrolled(user: Option<SessionUser>, saved: Option<CourseProgress>)
    ensures IsEnrolled(user, saved) ==> user.Some? && saved.Some? && saved.value.completedLessons != 0
  {
    user.Some? && Positive(Progress(user, saved))
  }

  /** With a non-negative lesson total, a course counts as enrolled exactly when some lesson of it was completed. */
  lemma EnrolledIffLessonCompleted(user: Option<SessionUser>, saved: Option<CourseProgress>)
    requires saved.Some? ==> saved.value.totalLessons >= 0
    ensures IsEnrolled(user, saved) <==> user.Some? && saved.Some? && saved.value.completedLessons > 0
  {
    if user.Some? && saved.Some? && saved.value.totalLessons > 0 {
      var c, t := saved.value.completedLessons as real, saved.value.totalLessons as real;
      assert c / t * 100.0 > 0.0 <==> c > 0.0 by {
        if c > 0.0 { assert c / t > 0.0; }
        if c <= 0.0 { assert c / t <= 0.0; }
      }
    }
  }

  /** A record written by this page's enrolment does not make a course count as enrolled. */
  lemma EnrolmentAloneIsNotProgress(user: SessionUser)
    ensures !IsEnrolled(Some(user), None)
  {
  }

  /** The stored progress record of a user and course, as `getCourseProgress` reads it from `saved`. */
  function SavedProgress(saved: map<(int, int), CourseProgress>, user: Option<SessionUser>, courseId: int): (r: Option<CourseProgress>)
    ensures user.None? ==> r.None?
    ensures user.Some? ==> (r.Some? <==> (user.value.id, courseId) in saved)
    ensures r.Some? ==> r.value == saved[(user.value.id, courseId)]
  {
    if user.Some? && (user.value.id, courseId) in saved then Some(saved[(user.value.id, courseId)]) else None
  }

  /** The "learned" count of the stats bar: how many catalogue courses count as enrolled; none without a user. */
  function LearnedCount(courses: seq<Course>, user: Option<SessionUser>, saved: map<(int, int), CourseProgress>): (n: nat)
    ensures n <= |courses|
    ensures user.None? ==> n == 0
  {
    var shown := Filter(courses, (c: Course) => IsEnrolled(user, SavedProgress(saved, user, c.id)));
    |shown|
  }

  /** The catalogue page. */
  class CoursesPage {
    const store: LocalStore
    const currentUser: Option<SessionUser>
    var courses: seq<Course>

    /** The lazy initialiser: the stored catalogue, or the seed catalogue, which is then stored. */
    constructor (store: LocalStore, currentUser: Option<SessionUser>)
      modifies store`courses
      ensures this.store == store && this.currentUser == currentUser
      ensures old(store.courses).Some? ==> courses == old(store.courses).value && store.courses == old(store.courses)
      ensures old(store.courses).None? ==> courses == Fixtures.SeedCourses && store.courses == Some(Fixtures.SeedCourses)
    {
      this.store := store;
      this.currentUser := currentUser;
      if store.courses.Some? {
        courses := store.courses.value;
      } else {
        store.SetCourses(Fixtures.SeedCourses);
        courses := Fixtures.SeedCourses;
      }
    }

    /**
     * `handleEnrollCourse`: without a user nothing changes; otherwise the shown
     * and the stored catalogue both become the catalogue with one more student
     * on that course, and one `course_enrolled` record, carrying the title found
     * before the change, is appended to the user's log.
     */
    method Enroll(courseId: int, timestamp: string)
      modifies this`courses, store`courses, store`learningRecords
      ensures currentUser.None? ==>
        courses == old(courses) && store.courses == old(store.courses) && store.learningRecords == old(store.learningRecords)
      ensures currentUser.Some? ==>
        && courses == EnrollIn(old(courses), courseId)
        && store.courses == Some(courses)
        && store.learningRecords == old(store.learningRecords)[currentUser.value.id :=
             old(store.GetLearningRecords(currentUser.value.id))
             + [LearningRecord(CourseEnrolled(courseId, TitleOf(old(courses), courseId)), timestamp)]]
    {
      if currentUser.None? {
        return;
      }
      var title := TitleOf(courses, courseId);
      var updated := EnrollIn(courses, courseId);
      courses := updated;
      store.SetCourses(updated);
      store.AddLearningRecord(currentUser.value.id, CourseEnrolled(courseId, title), timestamp);
    }
  }
}
