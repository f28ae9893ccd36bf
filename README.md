# Financial-education web app: a Dafny model of its storage, session and pages

The application is a React single-page site where students sign in, browse a
course catalogue, follow lessons and take part in a forum. Everything it keeps
between visits lives in the browser's key-value storage, reached through the
`StorageUtil` helper class. This project models:

- that storage (`Storage.LocalStore`, one field per key family) and every
  `StorageUtil` operation;
- the session held by `App` (in component state and under the `currentUser`
  key);
- the sign-in and registration forms;
- the forum list and the post page;
- the catalogue and the course page.

Each page with state that lives past one event is a class: the forum list,
the post page, the catalogue and the course page. Its state hooks are fields,
its event handlers are methods with field-level `modifies` clauses, and what a
handler computes is a function with its own contract. The sign-in and
registration forms keep only their text fields and error messages between
events, so each is a module-level `Submit` method over the store and the
session. Seed data (`mockData.js`) is in `Fixtures`.

The router in `src/App.jsx` (lines 40-47) declares no route for a single post
or a single course, although the forum list navigates to `/community/<id>`
(`src/pages/Community.jsx`, lines 254 and 278). As shipped, the post page and
the course page are therefore never mounted; they are modelled as the pages
their own source describes.

The lists the pages show are read from, and written back to, a key of the
store, with two exceptions. The course page's lessons and their completion
marks live in the in-memory seed courses (`CourseDetail.CourseFixture`) and are
never written to a key. When no post is stored, the forum list shows the seed
posts, and liking one of those writes nothing (`Community.LikingUnstoredPostShowsZero`).
At each handler the model states:

- the exact new state of both the page and the store;
- the guards under which nothing changes;
- how the shown copy and the stored copy stay in step.

The lemmas beside the handlers state what the pages promise across calls. A
few examples:

- a seed account shadows a registered one;
- a just-registered account can sign in;
- liking is not idempotent;
- a lesson's completion count is recomputed, so completing a lesson twice
  counts once;
- the clock text reads back as minutes and seconds;
- the two relative-time formats agree below one day.

Helper modules: `Wrappers` (Option), `Seqs` (the array methods `find`,
`filter`, `indexOf` and `new Set`), `Text` (`trim`, `toLowerCase`, `includes`,
`split`, `length`, number-to-string, `padStart`) and `Entities` (the records).

The model follows the code wherever the code and its documentation part, for
example:

- the username and e-mail duplicate checks look only at registered accounts,
  not at the seed accounts;
- the forum like button and the post page's like button stay out of step with
  the store in the ways the lemmas below state.

## Model

| member | source | states |
|---|---|---|
| `Seqs.FindFirst` | src/pages/Login.jsx:32-35 | `find`: the position returned matches and no earlier element does; none only when no element matches |
| `Seqs.Filter` | src/pages/Community.jsx:32-38 | `filter`: as many elements as pass, each of them passing, every passing element present, as a subsequence of the input |
| `Seqs.FilterGrowsByOne` | src/pages/CourseDetail.jsx:148 | turning one failing element into a passing one lengthens the filtered list by exactly one |
| `Seqs.Distinct` | src/pages/Courses.jsx:21 | `[...new Set(s)]`: every element once, nothing new, in order of first appearance |
| `Text.Trim` | src/pages/Register.jsx:35 | `trim()`: a middle slice of the input with only whitespace cut off on either side; empty exactly for whitespace-only input; no leading or trailing whitespace remains |
| `Text.Utf16Length` | src/pages/Register.jsx:37 | `length`: the character count plus the number of characters above U+FFFF, so between the character count and twice it, and equal to the character count exactly when no character lies above U+FFFF |
| `Text.IncludesEmpty` | src/pages/Community.jsx:34 | every string includes the empty string, so an empty search term matches everything |
| `Text.Split` | src/pages/Community.jsx:57 | `split(',')`: at least one piece, no piece holds the separator, joining the pieces gives the input back |
| `Text.SplitJoin` | src/pages/Community.jsx:57 | splitting a join of separator-free pieces gives the pieces back |
| `Text.NatToString` | src/pages/Community.jsx:97 | decimal digits without a leading zero |
| `Text.NatToStringValue` | src/pages/Community.jsx:97 | the digits read back as the number |
| `Text.PadStart` | src/pages/CourseDetail.jsx:119 | `padStart`: the input right-aligned to the width, filled with the pad character |
| `Storage.ParseSession` | src/utils/storage.js:8-11 | `getCurrentUser`: null for a missing key, the user for a stored session, an exception for malformed text |
| `Storage.SameIdsSamePost` | src/utils/storage.js:69 | lists with the same ids in the same places find the same post |
| `Storage.LikeFirst` | src/utils/storage.js:67-76 | `likePost`: one more like on the first post with the id and its new count returned; no write and 0 when there is none |
| `Storage.LikeTwiceAddsTwo` | src/utils/storage.js:67-76 | liking twice adds two likes: the operation is not idempotent |
| `Storage.BumpReplies` | src/utils/storage.js:104-111 | `incrementPostReplies`: one more reply on the first post with the id, all else unchanged |
| `Storage.BumpRepliesKeepsLikes` | src/utils/storage.js:104-111 | counting a reply touches no like counter and no id |
| `Storage.AnswerFirst` | src/utils/storage.js:133-149 | `addAnswer`: the answer goes at the end of the first matching question's answers only |
| `Storage.LocalStore.constructor` | src/utils/storage.js:2-3 | a fresh origin's storage holds no key |
| `Storage.LocalStore.SetCurrentUser` | src/utils/storage.js:4-6 | the `currentUser` key holds the session, and `getCurrentUser` then reads it back |
| `Storage.LocalStore.GetCurrentUser` | src/utils/storage.js:8-11 | null exactly when the key is missing, the stored session when there is one, an exception exactly for malformed text |
| `Storage.LocalStore.RemoveCurrentUser` | src/utils/storage.js:13-15 | the `currentUser` key is gone, and `getCurrentUser` then reads null |
| `Storage.LocalStore.RegisteredUsers` | src/pages/Register.jsx:88 | the `users` key, `[]` when missing |
| `Storage.LocalStore.SetUsers` | src/pages/Register.jsx:106 | the `users` key holds the list |
| `Storage.LocalStore.SetCourses` | src/pages/Courses.jsx:51 | the `courses` key holds the list |
| `Storage.LocalStore.GetCourseProgress` | src/utils/storage.js:18-22 | the record for the user and course, null when missing |
| `Storage.LocalStore.SetCourseProgress` | src/utils/storage.js:24-27 | the pair reads back the record and every other pair is unchanged |
| `Storage.LocalStore.GetLearningRecords` | src/utils/storage.js:30-34 | the user's log, `[]` when missing |
| `Storage.LocalStore.AddLearningRecord` | src/utils/storage.js:36-44 | exactly one time-stamped record appended to that user's log |
| `Storage.LocalStore.GetPosts` | src/utils/storage.js:47-50 | the stored posts, `[]` when missing |
| `Storage.LocalStore.AddPost` | src/utils/storage.js:52-65 | the new post, with zero likes, replies and views, goes in front |
| `Storage.LocalStore.LikePost` | src/utils/storage.js:67-76 | writes and returns exactly what `LikeFirst` describes; no write when the post is not stored |
| `Storage.LocalStore.GetPostReplies` | src/utils/storage.js:79-83 | the post's replies, `[]` when missing |
| `Storage.LocalStore.AddPostReply` | src/utils/storage.js:85-97 | the reply, with no likes, appended to that post's replies only |
| `Storage.LocalStore.UpdatePostReplies` | src/utils/storage.js:99-102 | the post's replies become the list |
| `Storage.LocalStore.IncrementPostReplies` | src/utils/storage.js:104-111 | writes `BumpReplies`; no write for a missing post |
| `Storage.LocalStore.GetQuestions` | src/utils/storage.js:114-117 | the stored questions, `[]` when missing |
| `Storage.LocalStore.AddQuestion` | src/utils/storage.js:119-131 | the new question, with no likes and no answers, goes in front |
| `Storage.LocalStore.AddAnswer` | src/utils/storage.js:133-149 | the answer, not best and with no likes, goes to the matching question; null and no write otherwise |
| `Storage.LocalStore.GetUserSettings` | src/utils/storage.js:152-161 | saved settings, else light theme, zh-CN, notifications on, e-mail updates off |
| `Storage.LocalStore.SetUserSettings` | src/utils/storage.js:163-166 | the user's settings read back as saved |
| `Storage.LocalStore.GetCourseComments` | src/utils/storage.js:169-173 | the course's comments, `[]` when missing |
| `Storage.LocalStore.AddCourseComment` | src/utils/storage.js:175-187 | the comment, with no likes, goes in front of that course's comments |
| `Storage.LocalStore.ClearAll` | src/utils/storage.js:190-192 | every key is removed |
| `Session.Hydrate` | src/App.jsx:15-23 | a parse failure becomes no session; a parsed value is used as it is |
| `Session.HydrateStored` | src/App.jsx:15-23 | at start-up there is a session exactly when a well-formed one is stored; a malformed entry gives none |
| `Session.App.constructor` | src/App.jsx:15-23 | the initial session is the decoded stored one, and the two copies agree |
| `Session.App.HandleLogin` | src/App.jsx:25-28 | both copies become the user |
| `Session.App.HandleLogout` | src/App.jsx:30-34 | both copies are cleared |
| `Login.Authenticate` | src/pages/Login.jsx:32-44 | the result matches the credentials; the first matching seed account wins, else the first matching registered one; none exactly when neither list matches |
| `Login.SeedShadowsRegistered` | src/pages/Login.jsx:32-44 | a seed account's credentials always sign in as that seed account, whatever is registered |
| `Login.StudentDemoLogin` | src/pages/Login.jsx:32-35 | `student01` / `123456` signs in as the student with id 1 |
| `Login.RegisteredAccountSignsIn` | src/pages/Login.jsx:37-44 | a just-registered account signs in with its credentials unless a seed account has the same ones |
| `Login.ToSession` | src/pages/Login.jsx:48-55 | `userData`: the session keeps the account's id, username, e-mail, role, avatar and level (and, having no such field, no password) |
| `Login.Submit` | src/pages/Login.jsx:30-64 | on success both session copies become the account without its password and the error is empty; on failure nothing changes and the error is the fixed message |
| `Registration.EmailLikeMatchesPattern` | src/pages/Register.jsx:43 | what the scan accepts, the e-mail regular expression matches |
| `Registration.PatternIsEmailLike` | src/pages/Register.jsx:43 | what the e-mail regular expression matches, the scan accepts |
| `Registration.EmailLikeIffPattern` | src/pages/Register.jsx:43 | the scan accepts exactly what the regular expression matches |
| `Registration.UsernameRule` | src/pages/Register.jsx:35-39 | "empty" for a blank username, else "too short" under 3 UTF-16 units, else no message |
| `Registration.EmailRule` | src/pages/Register.jsx:41-45 | "empty" for a blank e-mail, else "invalid" when the pattern fails, else no message |
| `Registration.PasswordRule` | src/pages/Register.jsx:47-51 | "empty" for an empty password, else "too short" under 6 UTF-16 units, else no message |
| `Registration.AstralPasswordAccepted` | src/pages/Register.jsx:49 | three characters above U+FFFF are six units, so such a password is long enough |
| `Registration.KeyCount` | src/pages/Register.jsx:58 | the error object has no key exactly when no field has a message |
| `Registration.ValidateForm` | src/pages/Register.jsx:32-59 | each field's message as its rule gives it, a mismatch message exactly when the passwords differ, and valid exactly when every rule holds |
| `Registration.LevelFor` | src/pages/Register.jsx:83-84 | student gives 新学员, teacher 讲师, any other role 管理员 |
| `Registration.NewUser` | src/pages/Register.jsx:73-85 | the account carries the given id and join date, the form's fields, the avatar URL built from the username, the role's level and zero counters |
| `Registration.Submit` | src/pages/Register.jsx:61-106 | an invalid form fails with the validation messages of `ValidateForm`, the mismatch message included, and writes nothing; then a registered username, and after that a registered e-mail, fails with its message; only otherwise is the account appended to `users` |
| `Community.InitialPosts` | src/pages/Community.jsx:11-19 | the stored posts, or the seed posts when none are stored |
| `Community.FilterPosts` | src/pages/Community.jsx:32-38 | a post is shown exactly when its category matches ('all' matches any) and the lower-cased term occurs in its title, content or a tag; order is kept and so is every matching occurrence |
| `Community.EmptySearchFiltersByCategory` | src/pages/Community.jsx:32-38 | with an empty search the list is filtered by category alone |
| `Community.ParseTags` | src/pages/Community.jsx:57 | no tag is empty, holds a comma or has outer whitespace; every non-blank piece gives its trimmed tag, in order, and there are exactly as many tags as non-blank pieces, repeats included |
| `Community.SingleTag` | src/pages/Community.jsx:57 | a comma-free string gives its trimmed self, or no tag when blank |
| `Community.ShowLikes` | src/pages/Community.jsx:84-86 | every shown post with the id shows the returned count; the others are kept |
| `Community.ShownLikesFollowStore` | src/pages/Community.jsx:77-87 | with unique ids, a page showing the stored list still shows the stored list after a like |
| `Community.LikingUnstoredPostShowsZero` | src/pages/Community.jsx:77-87 | liking a seed post that the store does not hold shows 0 likes instead of its 15 |
| `Community.Bucket` | src/pages/Community.jsx:89-103 | just now below a minute, whole minutes below an hour, whole hours below a day, the raw string beyond that or for an unparseable time |
| `Community.Render` | src/pages/Community.jsx:94-102 | the raw string for the absolute bucket, "just now" for the first, and otherwise a number without a leading zero that reads back as the bucket's count, followed by its unit |
| `Community.FormatTime` | src/pages/Community.jsx:89-103 | "just now" below a minute, a number of whole minutes below an hour and of whole hours below a day, each without a leading zero and reading back as the elapsed time divided by the unit, else the raw string |
| `Community.CommunityPage.constructor` | src/pages/Community.jsx:11-19 | the page starts from the stored posts, or the seeds, and writes nothing |
| `Community.CommunityPage.SubmitPost` | src/pages/Community.jsx:40-75 | no user, or a blank title or content, writes nothing; otherwise the post with the parsed tags is stored and shown in front |
| `Community.CommunityPage.LikePost` | src/pages/Community.jsx:77-87 | no user changes nothing; otherwise the store likes the post and the shown posts with that id show the returned count |
| `Courses.Categories` | src/pages/Courses.jsx:21 | 'all', then each category once, nothing else, in order of first appearance |
| `Courses.FilterCourses` | src/pages/Courses.jsx:24-31 | a course is shown exactly when category, difficulty and search (title or description) all match; order is kept and so is every matching occurrence |
| `Courses.DefaultFiltersShowAll` | src/pages/Courses.jsx:17-31 | the initial filters show the whole catalogue |
| `Courses.EnrollIn` | src/pages/Courses.jsx:40-48 | one more student on the courses with the id, length and order kept, every other course untouched |
| `Seqs.CountOf` | src/pages/Courses.jsx:41 | how many elements pass the test (courses or replies carrying an id): at most all of them, none exactly when no element does |
| `Courses.EnrollAddsOnePerMatch` | src/pages/Courses.jsx:40-48 | the total of enrolled students grows by exactly the number of courses with that id |
| `Courses.EnrollKeepsCategories` | src/pages/Courses.jsx:21-48 | enrolling leaves the category menu unchanged |
| `Courses.TitleOf` | src/pages/Courses.jsx:57 | the title of a course with the id that no earlier course shares; undefined exactly when no course has the id |
| `Courses.Percent` | src/pages/Courses.jsx:66 | completed over total times 100, with JavaScript's infinities and NaN for a zero total |
| `Courses.Progress` | src/pages/Courses.jsx:63-67 | 0 without a user or a record, otherwise the percentage of the record |
| `Courses.IsEnrolled` | src/pages/Courses.jsx:127 | counting as enrolled needs a user, a saved record and a non-zero completed count |
| `Courses.EnrolledIffLessonCompleted` | src/pages/Courses.jsx:63-67 | with a non-negative total, a course counts as enrolled exactly when a lesson of it is completed |
| `Courses.EnrolmentAloneIsNotProgress` | src/pages/Courses.jsx:63-67 | without a progress record a course does not count as enrolled (that enrolling writes no record is the `modifies` frame of `Courses.CoursesPage.Enroll`, which leaves `courseProgress` out) |
| `Courses.SavedProgress` | src/pages/Courses.jsx:65 | the record for the user and course, none without a user |
| `Courses.LearnedCount` | src/pages/Courses.jsx:119 | at most the catalogue size, and 0 without a user |
| `Courses.CoursesPage.constructor` | src/pages/Courses.jsx:8-16 | the stored catalogue, or the seed catalogue, which is then stored |
| `Courses.CoursesPage.Enroll` | src/pages/Courses.jsx:33-61 | no user changes nothing; otherwise the shown and the stored catalogue both become `EnrollIn` of it, and one enrolment record with the title found beforehand is logged |
| `CourseDetail.CourseFixture.constructor` | src/pages/CourseDetail.jsx:21-23 | a catalogue course whose lessons are a fresh shared array |
| `CourseDetail.FindFixture` | src/pages/CourseDetail.jsx:21-23 | the first catalogue course with the id, none exactly when no course has it |
| `CourseDetail.LessonIndex` | src/pages/CourseDetail.jsx:144 | `findIndex`: the first lesson with the id; -1 exactly when none has it |
| `CourseDetail.LessonIndexOfOwnId` | src/pages/CourseDetail.jsx:144 | with distinct ids, looking a lesson up by its id finds its own position |
| `CourseDetail.CompletedCount` | src/pages/CourseDetail.jsx:148 | at most the number of lessons; 0 exactly when none is completed |
| `CourseDetail.MarkCompleted` | src/pages/CourseDetail.jsx:145-146 | only the lesson at the index changes, and it becomes completed |
| `CourseDetail.CompletionCount` | src/pages/CourseDetail.jsx:144-153 | completing adds one only for a lesson not yet completed; completing twice is completing once |
| `CourseDetail.MovedTo` | src/pages/CourseDetail.jsx:128-132 | only the current lesson and the study time of the record change |
| `CourseDetail.FirstVisit` | src/pages/CourseDetail.jsx:36-42 | nothing completed, every lesson counted, the first lesson current |
| `CourseDetail.CourseDetailPage.constructor` | src/pages/CourseDetail.jsx:21-50 | no record without a user or a course; a saved record as it is; otherwise a first-visit record, which is stored; comments only for a known course |
| `CourseDetail.CourseDetailPage.LessonClick` | src/pages/CourseDetail.jsx:122-136 | the lesson becomes current; with a user the moved record is kept and stored |
| `CourseDetail.CourseDetailPage.CompleteLesson` | src/pages/CourseDetail.jsx:138-173 | no user changes nothing; otherwise the shared lesson is marked completed, the count is recomputed and stored, one completion record is logged, and the next lesson becomes current unless this was the last |
| `CourseDetail.CourseDetailPage.VideoEnded` | src/pages/CourseDetail.jsx:91-98 | the effect of clicking the next lesson, or nothing at the last lesson |
| `CourseDetail.CourseDetailPage.SubmitComment` | src/pages/CourseDetail.jsx:175-198 | no user or a blank comment writes nothing; otherwise the comment is stored and shown in front, keeping the shown list equal to the stored one |
| `CourseDetail.Trunc` | src/pages/CourseDetail.jsx:118 | `Math.trunc`: the integer within one of the input on the side of zero |
| `CourseDetail.JsRem60` | src/pages/CourseDetail.jsx:118 | `% 60` with the sign of the dividend, below 60 in size |
| `CourseDetail.ClockParts` | src/pages/CourseDetail.jsx:117-118 | for a non-negative time, whole minutes and 0 to 59 whole seconds that together make up the time, rounded down |
| `CourseDetail.IntToString` | src/pages/CourseDetail.jsx:119 | `String(i)`: a minus sign exactly for a negative number, then digits without a leading zero that read back as its magnitude |
| `CourseDetail.FormatClock` | src/pages/CourseDetail.jsx:115-120 | NaN shows `0:00`; any other time gives at least four characters with a colon |
| `CourseDetail.TwoDigits` | src/pages/CourseDetail.jsx:119 | seconds below 60 padded to exactly two digits that read back as the seconds |
| `CourseDetail.OneDigitPadded` | src/pages/CourseDetail.jsx:119 | a single digit is padded with one leading zero |
| `CourseDetail.FormatClockReadsBack` | src/pages/CourseDetail.jsx:115-120 | minutes without a leading zero, a colon and two digits, which read back as the whole minutes and seconds of the time |
| `PostDetail.LookupPost` | src/pages/PostDetail.jsx:12-23 | the stored post with the id, else the seed post, else none |
| `PostDetail.StoredShadowsSeed` | src/pages/PostDetail.jsx:12-23 | a stored post hides the seed post with the same id |
| `PostDetail.TargetId` | src/pages/PostDetail.jsx:60 | null without a target and also for a target with id 0 |
| `PostDetail.TargetAuthor` | src/pages/PostDetail.jsx:61 | null without a target and also for a target with an empty author |
| `PostDetail.LikeReplies` | src/pages/PostDetail.jsx:85-90 | one more like on the replies with the id, every other reply untouched |
| `PostDetail.LikeRepliesAddsOnePerMatch` | src/pages/PostDetail.jsx:85-92 | the replies' total likes grow by exactly the number of replies with that id |
| `PostDetail.Bucket` | src/pages/PostDetail.jsx:95-111 | the forum buckets plus whole days below thirty days; the raw string beyond that or for an unparseable time |
| `PostDetail.FormatTime` | src/pages/PostDetail.jsx:95-111 | the forum's texts below a day, a number of whole days, without a leading zero, reading back as the elapsed time over a day below thirty days, else the raw string |
| `PostDetail.BucketsAgreeBelowOneDay` | src/pages/PostDetail.jsx:95-111 | the same text as the forum list below one day; between one and thirty days only this page shows days |
| `PostDetail.PostDetailPage.constructor` | src/pages/PostDetail.jsx:12-31 | the looked-up post, its stored replies only when it exists, no target, not liked |
| `PostDetail.PostDetailPage.ShownLikes` | src/pages/PostDetail.jsx:168 | the snapshot's likes, plus one after an odd number of clicks |
| `PostDetail.PostDetailPage.Like` | src/pages/PostDetail.jsx:33-41 | no user changes nothing; otherwise every click, lighting or unlighting, adds a stored like, and the button toggles |
| `PostDetail.PostDetailPage.ReplyToReply` | src/pages/PostDetail.jsx:73-77 | the next reply answers the chosen one |
| `PostDetail.PostDetailPage.SubmitReply` | src/pages/PostDetail.jsx:43-71 | no user or blank content writes nothing; otherwise the reply is appended to the stored and the shown replies, the target is cleared, and the post's reply counter goes up once |
| `PostDetail.PostDetailPage.LikeReply` | src/pages/PostDetail.jsx:79-93 | no user changes nothing; otherwise the shown replies get the like and replace the stored ones |

## Left out

- Timers, `alert`, `navigate`, scrolling and loading flags are left out. A page handler's delayed callback is modelled as if it ran at once, and its alerts as returned outcomes.
- Video playback is left out (play, pause, mute, speed, fullscreen, time updates). `handleVideoEnded` is kept.
- The clock, `Date.now()` ids and the ISO and locale time strings are parameters.
- `formatTime`'s elapsed time is a parameter, with `None` for a time string the browser cannot parse.
- `JSON.parse` is trusted as well-formed for every key except `currentUser`, whose malformed case the session start-up catches.
- Form text state and form resets are left out. Handlers take the submitted values as parameters.
- The route parameter `parseInt(courseId)` / `parseInt(postId)` is an integer parameter. A non-numeric parameter behaves like an unknown id.
- `Text.IsSpace` and `Text.LowerChar`: whitespace and lower-casing cover ASCII and the usual control spaces only, not the full Unicode tables behind `trim`, `\s` and `toLowerCase`. String lengths do follow JavaScript: `Text.Utf16Length` counts UTF-16 units.
- `Text.ToLower` states only that the length is kept; the per-character mapping is its body.
- `Courses.LearnedCount` states only its bounds: the count itself is the length of a filter whose membership `Seqs.Filter` states.
- Floating-point numbers are left out: progress percentages are exact reals, and `toFixed(1)` on the course page is left out. The clock's time is a real, with `None` for NaN; an infinite duration is left out.
- `CourseDetail.CourseDetailPage.constructor` requires every catalogue course to have a lesson, as the seed catalogue does. On a course without lessons the code throws only when a user is signed in and has no saved record for it: the first-visit record reads the first lesson's id. Without a user, or with a saved record, it shows no lesson and does not throw.
- `CourseDetail.CourseDetailPage.CompleteLesson` and `VideoEnded` require a known course, because the page renders their buttons only then.
- The lesson objects are shared through `CourseFixture.lessons`. This shared array is the only aliasing modelled: a lesson completed by one page stays completed for the next page and user. Nothing else is shared.
- Questions, answers, settings and learning records have no page in the modelled core. Only their storage operations are modelled.
- Dashboard, Profile, Home, Sidebar and Header are not part of this model.
- Concurrent tabs writing the same storage are left out.
