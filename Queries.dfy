/**
  The query side of the student list: the course-and-outcome filter behind the
  student table and the text search. Both are filters over `students` and never
  change it.

  The outcome filter judges pass or fail by recomputing each grade under the
  page's global grading-system toggle (`currentSystem`, "7" when the toggle is
  checked and "10" otherwise), not by the grade stored in the record.
 */
module Queries {
  import opened Sequences
  import opened Grading
  import opened Records

  function InCourse(courseId: string): Student -> bool
  {
    (s: Student) => s.courseId == courseId
  }

  /** `students.filter(s => s.courseId === courseId)`, in order. */
  function CourseStudents(students: seq<Student>, courseId: string): (r: seq<Student>)
    ensures forall s :: s in r ==> s in students && s.courseId == courseId
    ensures forall s :: s in students && s.courseId == courseId ==> s in r
    ensures forall s :: s in students ==> multiset(r)[s] == if s.courseId == courseId then multiset(students)[s] else 0
    ensures IsSubsequence(r, students)
  {
    FilterIsSubsequence(students, InCourse(courseId));
    Filter(students, InCourse(courseId))
  }

  /** The course scope of the student table: an empty selection keeps everyone. */
  function ScopeToCourse(students: seq<Student>, selectedCourseId: string): (r: seq<Student>)
    ensures selectedCourseId == "" ==> r == students
    ensures selectedCourseId != "" ==> forall s :: s in r ==> s.courseId == selectedCourseId
    ensures selectedCourseId != "" ==> forall s :: s in students && s.courseId == selectedCourseId ==> s in r
    ensures selectedCourseId != "" ==> r == CourseStudents(students, selectedCourseId)
    ensures IsSubsequence(r, students)
  {
    SubsequenceReflexive(students);
    if selectedCourseId == "" then students
    else CourseStudents(students, selectedCourseId)
  }

  /** A student passes on display when the global table gives anything but an F. */
  predicate PassesOnDisplay(s: Student, currentSystem: string)
  {
    CalculateGrade(s.midterm, s.final, currentSystem) != F
  }

  /** The outcome test of the student table: "passed" keeps passing students, any other value failing ones. */
  function OutcomeMatches(filterType: string, currentSystem: string): Student -> bool
  {
    (s: Student) =>
      var isPassing := PassesOnDisplay(s, currentSystem);
      if filterType == "passed" then isPassing else !isPassing
  }

  /**
    The rows of the student table: first the course scope, then, only for
    "passed" and "failed", the outcome filter under the global table. Every
    other filter type shows the whole course scope.
   */
  function FilteredStudents(students: seq<Student>, filterType: string, selectedCourseId: string,
                            currentSystem: string): (r: seq<Student>)
    ensures IsSubsequence(r, students)
    ensures selectedCourseId != "" ==> forall s :: s in r ==> s.courseId == selectedCourseId
    ensures filterType == "passed" ==>
      && (forall s :: s in r ==> s in ScopeToCourse(students, selectedCourseId) && PassesOnDisplay(s, currentSystem))
      && (forall s :: s in ScopeToCourse(students, selectedCourseId) && PassesOnDisplay(s, currentSystem) ==> s in r)
      && (forall s :: s in ScopeToCourse(students, selectedCourseId) ==>
            multiset(r)[s] == if PassesOnDisplay(s, currentSystem) then multiset(ScopeToCourse(students, selectedCourseId))[s] else 0)
    ensures filterType == "failed" ==>
      && (forall s :: s in r ==> s in ScopeToCourse(students, selectedCourseId) && !PassesOnDisplay(s, currentSystem))
      && (forall s :: s in ScopeToCourse(students, selectedCourseId) && !PassesOnDisplay(s, currentSystem) ==> s in r)
      && (forall s :: s in ScopeToCourse(students, selectedCourseId) ==>
            multiset(r)[s] == if !PassesOnDisplay(s, currentSystem) then multiset(ScopeToCourse(students, selectedCourseId))[s] else 0)
    ensures filterType != "passed" && filterType != "failed" ==> r == ScopeToCourse(students, selectedCourseId)
  {
    var scoped := ScopeToCourse(students, selectedCourseId);
    if filterType == "passed" || filterType == "failed" then
      var p := OutcomeMatches(filterType, currentSystem);
      FilterIsSubsequence(scoped, p);
      SubsequenceTransitive(Filter(scoped, p), scoped, students);
      Filter(scoped, p)
    else
      scoped
  }

  /**
    The "passed" and "failed" views split the course scope exactly: each
    student of the scope appears in one of them, as often as in the scope.
   */
  lemma PassedFailedPartition(students: seq<Student>, selectedCourseId: string, currentSystem: string)
    ensures var scoped := ScopeToCourse(students, selectedCourseId);
      && multiset(FilteredStudents(students, "passed", selectedCourseId, currentSystem))
         + multiset(FilteredStudents(students, "failed", selectedCourseId, currentSystem)) == multiset(scoped)
      && |FilteredStudents(students, "passed", selectedCourseId, currentSystem)|
         + |FilteredStudents(students, "failed", selectedCourseId, currentSystem)| == |scoped|
  {
    var scoped := ScopeToCourse(students, selectedCourseId);
    FilterPartition(scoped, OutcomeMatches("passed", currentSystem), OutcomeMatches("failed", currentSystem));
  }

  /** ASCII lower-casing of one character. */
  function Lower(c: char): char
  {
    if 'A' <= c <= 'Z' then (c as int - 'A' as int + 'a' as int) as char else c
  }

  /** `toLowerCase()`, letter by letter. */
  function ToLower(s: string): (r: string)
    ensures |r| == |s|
    ensures forall i :: 0 <= i < |s| ==> r[i] == Lower(s[i])
  {
    seq(|s|, i requires 0 <= i < |s| => Lower(s[i]))
  }

  /** `hay.includes(needle)`: some suffix of `hay` starts with `needle`. */
  predicate Includes(hay: string, needle: string)
    decreases |hay|
  {
    if needle <= hay then true
    else if hay == [] then false
    else Includes(hay[1..], needle)
  }

  /** `Includes` agrees with the positional reading: `needle` occurs at some index of `hay`. */
  lemma {:induction false} IncludesAt(hay: string, needle: string)
    ensures Includes(hay, needle) <==> exists i :: 0 <= i <= |hay| && needle <= hay[i..]
    decreases |hay|
  {
    if needle <= hay {
      assert hay[0..] == hay;
    } else if hay == [] {
      forall i | 0 <= i <= |hay|
        ensures !(needle <= hay[i..])
      {
        assert hay[i..] == hay;
      }
    } else {
      IncludesAt(hay[1..], needle);
      if Includes(hay[1..], needle) {
        var i :| 0 <= i <= |hay[1..]| && needle <= hay[1..][i..];
        assert hay[1..][i..] == hay[i + 1..];
      } else {
        forall i | 0 <= i <= |hay|
          ensures !(needle <= hay[i..])
        {
          if i > 0 {
            assert hay[1..][i - 1..] == hay[i..];
          } else {
            assert hay[0..] == hay;
          }
        }
      }
    }
  }

  /** Lower-casing both sides keeps an occurrence an occurrence. */
  lemma IncludesToLower(hay: string, needle: string)
    requires Includes(hay, needle)
    ensures Includes(ToLower(hay), ToLower(needle))
  {
    IncludesAt(hay, needle);
    var i :| 0 <= i <= |hay| && needle <= hay[i..];
    assert ToLower(needle) <= ToLower(hay)[i..];
    IncludesAt(ToLower(hay), ToLower(needle));
  }

  /**
    The search test for one student: the (already lower-cased) term occurs in
    the lower-cased name or surname or, as typed, in the id; and the student is
    in the selected course, if one is selected.
   */
  predicate SearchMatches(s: Student, term: string, selectedCourseId: string)
  {
    && (Includes(ToLower(s.name), term) || Includes(ToLower(s.surname), term) || Includes(s.id, term))
    && (selectedCourseId == "" || s.courseId == selectedCourseId)
  }

  function SearchTest(term: string, selectedCourseId: string): Student -> bool
  {
    (s: Student) => SearchMatches(s, term, selectedCourseId)
  }

  /**
    The search results: nothing for an empty term, otherwise the students
    matching the lower-cased term within the selected course, in order.
   */
  function Search(students: seq<Student>, rawTerm: string, selectedCourseId: string): (r: seq<Student>)
    ensures rawTerm == "" ==> r == []
    ensures rawTerm != "" ==> forall s :: s in r ==> s in students && SearchMatches(s, ToLower(rawTerm), selectedCourseId)
    ensures rawTerm != "" ==> forall s :: s in students && SearchMatches(s, ToLower(rawTerm), selectedCourseId) ==> s in r
    ensures rawTerm != "" ==> forall s :: s in students ==>
      multiset(r)[s] == if SearchMatches(s, ToLower(rawTerm), selectedCourseId) then multiset(students)[s] else 0
    ensures selectedCourseId != "" ==> forall s :: s in r ==> s.courseId == selectedCourseId
    ensures IsSubsequence(r, students)
  {
    var searchTerm := ToLower(rawTerm);
    if searchTerm == "" then
      EmptyIsSubsequence(students);
      []
    else
      FilterIsSubsequence(students, SearchTest(searchTerm, selectedCourseId));
      Filter(students, SearchTest(searchTerm, selectedCourseId))
  }

  /** The results depend on the typed term only through its lower-cased form. */
  lemma SearchCaseInsensitive(students: seq<Student>, term1: string, term2: string, selectedCourseId: string)
    requires ToLower(term1) == ToLower(term2)
    ensures Search(students, term1, selectedCourseId) == Search(students, term2, selectedCourseId)
  {
  }

  /**
    A student whose name or surname contains the term written in some letter
    case (`typed` lower-cases to the same string as the search term) is found.
   */
  lemma SearchIgnoresNameCase(students: seq<Student>, rawTerm: string, typed: string, selectedCourseId: string,
                              s: Student)
    requires rawTerm != "" && s in students
    requires ToLower(typed) == ToLower(rawTerm)
    requires Includes(s.name, typed) || Includes(s.surname, typed)
    requires selectedCourseId == "" || s.courseId == selectedCourseId
    ensures s in Search(students, rawTerm, selectedCourseId)
  {
    if Includes(s.name, typed) {
      IncludesToLower(s.name, typed);
    } else {
      IncludesToLower(s.surname, typed);
    }
  }
}
