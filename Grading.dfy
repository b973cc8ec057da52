/**
  The grading policy of the gradebook: the weighted total of the two exam
  scores, its mapping to a letter under one of two threshold tables, the pass
  test, and the GPA mean of a list of letters.

  Scores are exact reals, so `midterm * 0.4 + final * 0.6` is the exact weighted
  total rather than its nearest double.
 */
module Grading {

  datatype Letter = A | B | C | D | F

  /** The weighted total of a student's two exam scores. */
  function TotalScore(midterm: real, final: real): (total: real)
    ensures 0.0 <= midterm <= 100.0 && 0.0 <= final <= 100.0 ==> 0.0 <= total <= 100.0
    ensures midterm == final ==> total == midterm
  {
    midterm * 0.4 + final * 0.6
  }

  /**
    The letter for a pair of scores. The table "10" is used only for that exact
    string; every other value of `gradingSystem` selects the stricter table.
   */
  function CalculateGrade(midterm: real, final: real, gradingSystem: string): (r: Letter)
    ensures var t := TotalScore(midterm, final);
      gradingSystem == "10" ==>
        && (r == A <==> 90.0 <= t)
        && (r == B <==> 80.0 <= t < 90.0)
        && (r == C <==> 70.0 <= t < 80.0)
        && (r == D <==> 60.0 <= t < 70.0)
        && (r == F <==> t < 60.0)
    ensures var t := TotalScore(midterm, final);
      gradingSystem != "10" ==>
        && (r == A <==> 93.0 <= t)
        && (r == B <==> 85.0 <= t < 93.0)
        && (r == C <==> 77.0 <= t < 85.0)
        && (r == D <==> 69.0 <= t < 77.0)
        && (r == F <==> t < 69.0)
  {
    var totalScore := TotalScore(midterm, final);
    if gradingSystem == "10" then
      if totalScore >= 90.0 then A
      else if totalScore >= 80.0 then B
      else if totalScore >= 70.0 then C
      else if totalScore >= 60.0 then D
      else F
    else
      if totalScore >= 93.0 then A
      else if totalScore >= 85.0 then B
      else if totalScore >= 77.0 then C
      else if totalScore >= 69.0 then D
      else F
  }

  /** The lowest total that passes under a grading system. */
  function PassMark(gradingSystem: string): real
  {
    if gradingSystem == "10" then 60.0 else 69.0
  }

  /** The grade-point value of a letter. */
  function GradePoints(g: Letter): (p: real)
    ensures 0.0 <= p <= 4.0
    ensures p == 4.0 <==> g == A
    ensures p == 0.0 <==> g == F
  {
    match g
    case A => 4.0
    case B => 3.0
    case C => 2.0
    case D => 1.0
    case F => 0.0
  }

  /** A higher total never earns a worse letter. */
  lemma GradeMonotone(m1: real, f1: real, m2: real, f2: real, gradingSystem: string)
    requires TotalScore(m1, f1) <= TotalScore(m2, f2)
    ensures GradePoints(CalculateGrade(m1, f1, gradingSystem)) <= GradePoints(CalculateGrade(m2, f2, gradingSystem))
  {
  }

  /** For the same scores, any table other than "10" never gives a better letter than "10". */
  lemma StricterScale(midterm: real, final: real, gradingSystem: string)
    requires gradingSystem != "10"
    ensures GradePoints(CalculateGrade(midterm, final, gradingSystem)) <= GradePoints(CalculateGrade(midterm, final, "10"))
  {
  }

  /**
    The pass test on a letter. The total and the grading system are accepted
    but neither branch looks at them: only an F fails.
   */
  function IsPassingGrade(grade: Letter, totalScore: real, gradingSystem: string): (r: bool)
    ensures r <==> grade != F
  {
    if gradingSystem == "10" then grade != F
    else grade != F
  }

  /** Applied to a computed grade, the pass test is the pass mark of the grade's own table. */
  lemma PassingMeansPassMark(midterm: real, final: real, gradingSystem: string, anySystem: string)
    ensures IsPassingGrade(CalculateGrade(midterm, final, gradingSystem), TotalScore(midterm, final), anySystem)
        <==> TotalScore(midterm, final) >= PassMark(gradingSystem)
  {
  }

  /** The running sum of grade points, folded from the left as `reduce` does. */
  function SumPoints(grades: seq<Letter>): (sum: real)
    ensures 0.0 <= sum <= 4.0 * |grades| as real
    ensures sum == 4.0 * |grades| as real <==> forall i :: 0 <= i < |grades| ==> grades[i] == A
    ensures sum == 0.0 <==> forall i :: 0 <= i < |grades| ==> grades[i] == F
  {
    if grades == [] then 0.0
    else
      var init := grades[..|grades| - 1];
      var last := grades[|grades| - 1];
      assert forall i :: 0 <= i < |init| ==> init[i] == grades[i];
      SumPoints(init) + GradePoints(last)
  }

  /**
    A mean: a total in [0, hi * n] over n > 0 items lies in [0, hi], reaching
    hi exactly at the top of the range and 0 exactly at the bottom.
   */
  lemma MeanWithin(total: real, n: real, hi: real)
    requires n > 0.0 && 0.0 <= total <= hi * n
    ensures 0.0 <= total / n <= hi
    ensures total / n == hi <==> total == hi * n
    ensures total / n == 0.0 <==> total == 0.0
  {
  }

  /**
    The GPA of a non-empty list of letters: the mean of their grade points. It
    lies in [0, 4], is 4 exactly when every letter is an A and 0 exactly when
    every letter is an F.
   */
  function CalculateGPA(grades: seq<Letter>): (gpa: real)
    requires |grades| > 0
    ensures 0.0 <= gpa <= 4.0
    ensures gpa == 4.0 <==> forall i :: 0 <= i < |grades| ==> grades[i] == A
    ensures gpa == 0.0 <==> forall i :: 0 <= i < |grades| ==> grades[i] == F
  {
    var n := |grades| as real;
    var total := SumPoints(grades);
    MeanWithin(total, n, 4.0);
    total / n
  }
}
