# Gradebook rules engine

A model of the rules underneath a browser gradebook (`main.js`): the grading
policy that turns a midterm and a final score into a letter, the pass test, the
GPA mean, the in-memory roster of courses and students with its add and delete
handlers, the filter behind the student table, the text search, and the
statistics shown under a course card. The page's markup, its event wiring and
its demo data are not part of the model.

Files:

- `Sequences.dfy` — `Filter` and `Find`, the behaviour of the array builtins
  `filter` and `find` the page uses everywhere, with the order, partition,
  idempotence and lookup facts the rest relies on.
- `Grading.dfy` — `calculateGrade`, `isPassingGrade`, `calculateGPA`.
- `Records.dfy` — the `Course` and `Student` records and the lookups by id.
- `RosterStore.dfy` — the module-level `courses` and `students` arrays as a
  `Roster` class whose methods are the roster halves of the add-course,
  add-student, delete-student, delete-course and edit handlers, with the
  invariant they keep: every student's course exists and every stored grade is
  the one its scores earn under that course's grading system.
- `Queries.dfy` — the course-and-outcome filter of the student table and the
  search predicate.
- `Statistics.dfy` — the per-course counts and mean.

Modelling choices:

- Scores are exact reals and the weighted total is exactly
  `midterm * 0.4 + final * 0.6`. The page computes it in double precision, so
  at a threshold it may fall on the other side: for midterm 6 and final 96 the
  double total is 59.99999999999999 and the page gives F (main.js:13), while
  the exact total is 60, which the model grades D under "10".
- The grading system is the string the page stores. Only `"10"` selects the
  90/80/70/60 table; every other value, including `"7"`, selects 93/85/77/69.
- The filter type is a string: `"passed"` and `"failed"` filter, anything else
  shows the whole course scope. An empty selected course id means "all
  courses", as an empty string is false in the page's test.
- The global grading-system toggle is a parameter, `currentSystem`. The
  student-table filter recomputes grades under it; the statistics use the grade
  stored in each record, computed under the student's own course's table when
  the record was added. Both paths are kept; `StoredAndDisplayedScalesDiffer`
  shows one student on whom they disagree.
- The handlers validate nothing: there is no check for empty or duplicate
  course names, duplicate student ids, or scores outside [0, 100], so the
  roster may hold equal records and repeated ids. The lookups return the first
  match and the removals drop every match.
- Editing removes every student with that id and hands the record to the form; submitting the
  form appends it again at the end of the list.
- The GPA of an empty list is 0/0 (NaN), so `CalculateGPA` requires a
  non-empty list.
- Statistics count pass and fail by the stored grade, which is the verdict of
  the student's own course table while the roster invariant holds
  (`StoredVerdictIsOwnCourseVerdict`).

## Model

| member | source | states |
|---|---|---|
| `Grading.TotalScore` | main.js:7 | with both scores in [0, 100] the weighted total lies in [0, 100]; equal scores give that score as total |
| `Grading.CalculateGrade` | main.js:6-22 | under "10" the letter is A from 90, B in [80, 90), C in [70, 80), D in [60, 70), F below 60; under any other system the same bands at 93/85/77/69 |
| `Grading.GradeMonotone` | main.js:9-21 | a higher weighted total never earns a letter with fewer grade points, under either table |
| `Grading.StricterScale` | main.js:9-21 | for the same scores, a system other than "10" never gives a better letter than "10" |
| `Grading.IsPassingGrade` | main.js:145-152 | the result is `grade != F` whatever the total and the grading system |
| `Grading.PassingMeansPassMark` | main.js:145-152 | a computed grade passes exactly when the total reaches 60 under "10" or 69 under any other table, whichever system is handed to the pass test |
| `Grading.GradePoints` | main.js:25-31 | points lie in [0, 4]; 4 only for A and 0 only for F |
| `Grading.SumPoints` | main.js:33 | the folded sum of n letters lies in [0, 4n], is 4n exactly when all are A and 0 exactly when all are F |
| `Grading.CalculateGPA` | main.js:24-35 | for a non-empty list the mean lies in [0, 4], is 4 exactly when every grade is A and 0 exactly when every grade is F |
| `Records.CourseById` | main.js:128 | returns the first course in the list with the requested id, and nothing exactly when no course has that id |
| `Records.StudentById` | main.js:326 | returns the first student in the list with the requested id, and nothing exactly when no student has that id |
| `RosterStore.CoursesWithoutId` | main.js:312 | every course whose id differs, with all its copies, and no other, as an order-preserving subsequence |
| `RosterStore.StudentsWithoutId` | main.js:307 | every student whose id differs, with all its copies, and no other, as an order-preserving subsequence |
| `RosterStore.StudentsOutsideCourse` | main.js:313 | every student of another course, with all its copies, and no other, as an order-preserving subsequence |
| `RosterStore.AddCourseKeepsConsistent` | main.js:115 | appending a course leaves the course every existing student finds unchanged and keeps the roster invariant |
| `RosterStore.AddStudentKeepsConsistent` | main.js:137-140 | appending a student whose course exists and whose grade is computed from it keeps the roster invariant |
| `RosterStore.DeleteCourseKeepsConsistent` | main.js:312-313 | deleting a course with its students leaves every surviving student finding the same course as before, so no reference dangles and every stored grade stays current |
| `RosterStore.DeleteStudentIdempotent` | main.js:307 | deleting a student id a second time changes nothing |
| `RosterStore.DeleteCourseIdempotent` | main.js:312-313 | deleting a course id a second time changes neither collection |
| `RosterStore.DeleteAbsentStudentIsNoOp` | main.js:325-337 | removing an id no student has returns the same list, so the early return of the edit handler and the removal agree |
| `RosterStore.Roster.constructor` | main.js:2-3 | both collections start empty and the invariant holds |
| `RosterStore.Roster.AddCourse` | main.js:109-115 | the new course is appended, students are unchanged, the invariant is kept |
| `RosterStore.Roster.AddStudent` | main.js:125-140 | given an existing course, the new student is appended with the grade of its scores under the first matching course's system; courses unchanged; invariant kept |
| `RosterStore.Roster.DeleteStudent` | main.js:306-309 | students become those without the id, courses unchanged, invariant kept |
| `RosterStore.Roster.DeleteCourse` | main.js:311-313 | courses lose that id and students lose that course, invariant kept |
| `RosterStore.Roster.EditStudent` | main.js:325-337 | returns the first student with the id; when there is none nothing changes, otherwise every student with the id is removed; invariant kept |
| `Queries.CourseStudents` | main.js:74 | every student of the course, with all its copies, and no other, in their original order |
| `Queries.ScopeToCourse` | main.js:200-202 | an empty selection keeps the list; otherwise exactly the selected course's students, in order |
| `Queries.FilteredStudents` | main.js:200-212 | an order-preserving subsequence of the students, within the selected course; "passed" keeps exactly the scoped students not failing under the global table, each as often as in the scope, "failed" likewise the failing ones, anything else the whole scope |
| `Queries.PassedFailedPartition` | main.js:205-211 | the "passed" and "failed" views together hold every scoped student exactly as often as the scope does |
| `Queries.IncludesAt` | main.js:263-265 | the substring test holds exactly when the term occurs at some index of the text |
| `Queries.IncludesToLower` | main.js:251-264 | an occurrence stays an occurrence after lower-casing text and term |
| `Queries.Search` | main.js:250-267 | an empty term gives no results; otherwise the students whose lower-cased name or surname, or literal id, contains the lower-cased term, within the selected course, each with all its copies, in original order |
| `Queries.SearchCaseInsensitive` | main.js:251 | two terms that lower-case to the same string give the same results |
| `Queries.SearchIgnoresNameCase` | main.js:251-264 | a student whose name or surname contains the term written in any letter case is found |
| `Statistics.SumTotalsWithin` | main.js:86 | with all scores in [0, 100], the summed totals of n students lie in [0, 100n] |
| `Statistics.ClassMean` | main.js:85-87 | the mean of the weighted totals is 0 for no students and lies in [0, 100] when every score does |
| `Statistics.CourseStats` | main.js:74-87 | total is the number of the course's students, passed counts stored grades other than F, passed + failed = total, and the mean is the class mean of the course's students, 0 when the course is empty |
| `Statistics.MeanWithinScoreRange` | main.js:85-87 | when the course's scores lie in [0, 100], the mean lies in [0, 100] |
| `Statistics.StoredAndDisplayedScalesDiffer` | main.js:83-84 | one student (midterm 65, final 65) stored as D under "10" counts as passed in the statistics but is missing from the "passed" view under the global "7" |
| `Statistics.StoredVerdictIsOwnCourseVerdict` | main.js:137 | on a consistent roster the stored verdict is the pass test under the student's own course's table |

## Left out

- The page's markup and events: `showSection`, `updateCourseSelect`, `displayCourses`, `updateCourseFilter`, `updateAllGrades`, the HTML templating of `displayStudents` and `handleSearch`, and the toggle that hides an already shown statistics panel. They only render.
- Reading form fields and the `Number` conversion of the scores: the handlers take plain arguments instead.
- `createInitialData`: it seeds demo data with `Math.random` and `Date.now`.
- Id generation from the clock: ids are opaque arguments.
- `toFixed(2)` formatting of the GPA, totals and the mean, and the double-precision rounding of `* 0.4` and `* 0.6`: all arithmetic is exact.
- `Grading.CalculateGPA`: requires a non-empty list, because the code divides 0 by 0 and yields "NaN" for an empty one.
- `RosterStore.Roster.AddStudent`: requires the course to exist, because the code throws when no course has the selected id and pushes nothing.
- The throws when a listed or searched student's course is missing (the course name is read for display); the filter and search results are modelled without that lookup.
- `Queries.ToLower`: lower-cases ASCII letters only; the language's full Unicode case mapping is not modelled.
- `calculateGPA` and `isPassingGrade` are never called by the page (the student-table filter tests `grade !== 'F'` inline at main.js:209); both are modelled on their own.
