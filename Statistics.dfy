/**
  The statistics shown under a course card: how many students the course has,
  how many pass and fail by the grade stored in their records, and the mean of
  their weighted totals.
 */
module Statistics {
  import opened Sequences
  import opened Grading
  import opened Records
  import opened Queries
  import opened RosterStore

  datatype CourseStatistics = CourseStatistics(total: nat, passed: nat, failed: nat, mean: real)

  /** The stored grade passes: anything but an F. */
  predicate StoredPass(s: Student)
  {
    s.grade != F
  }

  /** The stored grade fails: an F. */
  predicate StoredFail(s: Student)
  {
    s.grade == F
  }

  /** The running sum of weighted totals, folded from the left as `reduce` does. */
  function SumTotals(students: seq<Student>): (sum: real)
  {
    if students == [] then 0.0
    else
      var last := students[|students| - 1];
      SumTotals(students[..|students| - 1]) + TotalScore(last.midterm, last.final)
  }

  /** Both exam scores of a student lie in [0, 100]. */
  predicate ScoresInRange(s: Student)
  {
    0.0 <= s.midterm <= 100.0 && 0.0 <= s.final <= 100.0
  }

  /** With every score in [0, 100], the summed totals of n students lie in [0, 100 n]. */
  lemma {:induction false} SumTotalsWithin(students: seq<Student>)
    requires forall s :: s in students ==> ScoresInRange(s)
    ensures 0.0 <= SumTotals(students) <= 100.0 * |students| as real
    decreases |students|
  {
    if students != [] {
      var init := students[..|students| - 1];
      assert forall s :: s in init ==> s in students;
      SumTotalsWithin(init);
      assert ScoresInRange(students[|students| - 1]);
    }
  }

  /**
    The class mean of a list of students: the mean of their weighted totals,
    or 0 for an empty list. It stays within [0, 100] when every score does.
   */
  function ClassMean(students: seq<Student>): (mean: real)
    ensures students == [] ==> mean == 0.0
    ensures (forall s :: s in students ==> ScoresInRange(s)) ==> 0.0 <= mean <= 100.0
  {
    if |students| > 0 then
      MeanOfScoresWithin(students);
      SumTotals(students) / |students| as real
    else 0.0
  }

  lemma MeanOfScoresWithin(students: seq<Student>)
    requires |students| > 0
    ensures (forall s :: s in students ==> ScoresInRange(s)) ==>
      0.0 <= SumTotals(students) / |students| as real <= 100.0
  {
    if forall s :: s in students ==> ScoresInRange(s) {
      SumTotalsWithin(students);
      MeanWithin(SumTotals(students), |students| as real, 100.0);
    }
  }

  /**
    The statistics of one course. Pass and fail come from the grade stored in
    each record; the mean is 0 for a course without students.
   */
  function CourseStats(students: seq<Student>, courseId: string): (r: CourseStatistics)
    ensures r.total == |CourseStudents(students, courseId)|
    ensures r.passed + r.failed == r.total
    ensures r.total == 0 ==> r.mean == 0.0
    ensures r.passed == |Filter(CourseStudents(students, courseId), StoredPass)|
    ensures r.mean == ClassMean(CourseStudents(students, courseId))
  {
    var courseStudents := CourseStudents(students, courseId);
    var passed := |Filter(courseStudents, StoredPass)|;
    var failed := |Filter(courseStudents, StoredFail)|;
    var mean := ClassMean(courseStudents);
    FilterPartition(courseStudents, StoredPass, StoredFail);
    CourseStatistics(|courseStudents|, passed, failed, mean)
  }

  /** When every student of the course scored within [0, 100], so does the class mean. */
  lemma MeanWithinScoreRange(students: seq<Student>, courseId: string)
    requires forall s :: s in students && s.courseId == courseId ==> ScoresInRange(s)
    ensures 0.0 <= CourseStats(students, courseId).mean <= 100.0
  {
  }

  /**
    The statistics and the student table can disagree about the same student:
    in a course on table "10" a total of 65 is stored as a D and counts as
    passed, while the "passed" view under the global table "7" leaves it out.
   */
  lemma StoredAndDisplayedScalesDiffer()
    ensures var s := Student("1", "Ada", "Lovelace", "c", 65.0, 65.0, CalculateGrade(65.0, 65.0, "10"));
      && CourseStats([s], "c").passed == 1
      && FilteredStudents([s], "passed", "c", "7") == []
  {
  }

  /**
    On a consistent roster the stored pass/fail of a student is the verdict of
    its own course's table, which the global toggle need not match.
   */
  lemma StoredVerdictIsOwnCourseVerdict(courses: seq<Course>, students: seq<Student>, s: Student)
    requires Consistent(courses, students) && s in students
    ensures CourseById(courses, s.courseId).Some?
    ensures StoredPass(s) <==> PassesOnDisplay(s, CourseById(courses, s.courseId).value.gradingSystem)
  {
  }
}
