/**
  The roster store: the page's two module-level arrays, `courses` and
  `students`, and the handlers that change them. Each handler is a method of
  `Roster` taking the values the page would read from its form; the removals
  are the filter-and-reassign the handlers perform, specified by the pure
  functions below.
 */
module RosterStore {
  import opened Sequences
  import opened Grading
  import opened Records

  function CourseIdIsNot(courseId: string): Course -> bool
  {
    (c: Course) => c.id != courseId
  }

  function StudentIdIsNot(studentId: string): Student -> bool
  {
    (s: Student) => s.id != studentId
  }

  function NotInCourse(courseId: string): Student -> bool
  {
    (s: Student) => s.courseId != courseId
  }

  /** `courses.filter(c => c.id !== courseId)`: every course but those with that id, in order. */
  function CoursesWithoutId(courses: seq<Course>, courseId: string): (r: seq<Course>)
    ensures forall c :: c in r ==> c in courses && c.id != courseId
    ensures forall c :: c in courses && c.id != courseId ==> c in r
    ensures forall c :: c in courses ==> multiset(r)[c] == if c.id != courseId then multiset(courses)[c] else 0
    ensures IsSubsequence(r, courses)
  {
    FilterIsSubsequence(courses, CourseIdIsNot(courseId));
    Filter(courses, CourseIdIsNot(courseId))
  }

  /** `students.filter(s => s.id !== studentId)`: every student but those with that id, in order. */
  function StudentsWithoutId(students: seq<Student>, studentId: string): (r: seq<Student>)
    ensures forall s :: s in r ==> s in students && s.id != studentId
    ensures forall s :: s in students && s.id != studentId ==> s in r
    ensures forall s :: s in students ==> multiset(r)[s] == if s.id != studentId then multiset(students)[s] else 0
    ensures IsSubsequence(r, students)
  {
    FilterIsSubsequence(students, StudentIdIsNot(studentId));
    Filter(students, StudentIdIsNot(studentId))
  }

  /** `students.filter(s => s.courseId !== courseId)`: the cascade of a course deletion. */
  function StudentsOutsideCourse(students: seq<Student>, courseId: string): (r: seq<Student>)
    ensures forall s :: s in r ==> s in students && s.courseId != courseId
    ensures forall s :: s in students && s.courseId != courseId ==> s in r
    ensures forall s :: s in students ==> multiset(r)[s] == if s.courseId != courseId then multiset(students)[s] else 0
    ensures IsSubsequence(r, students)
  {
    FilterIsSubsequence(students, NotInCourse(courseId));
    Filter(students, NotInCourse(courseId))
  }

  /**
    A student's course can be found and the stored grade is the one its
    scores earn under that course's grading system.
   */
  ghost predicate GradeIsCurrent(courses: seq<Course>, s: Student)
  {
    match CourseById(courses, s.courseId)
    case None => false
    case Some(course) => s.grade == CalculateGrade(s.midterm, s.final, course.gradingSystem)
  }

  /**
    The roster's invariant: no student refers to a missing course, and every
    stored grade is current.
   */
  ghost predicate Consistent(courses: seq<Course>, students: seq<Student>)
  {
    forall s :: s in students ==> GradeIsCurrent(courses, s)
  }

  /**
    Appending a course never changes which course an existing reference finds,
    so the roster stays consistent.
   */
  lemma AddCourseKeepsConsistent(courses: seq<Course>, students: seq<Student>, course: Course)
    requires Consistent(courses, students)
    ensures forall s :: s in students ==> CourseById(courses + [course], s.courseId) == CourseById(courses, s.courseId)
    ensures Consistent(courses + [course], students)
  {
    forall s | s in students
      ensures CourseById(courses + [course], s.courseId) == CourseById(courses, s.courseId)
      ensures GradeIsCurrent(courses + [course], s)
    {
      FindAppend(courses, [course], CourseHasId(s.courseId));
    }
  }

  /** A student whose course exists and whose grade is computed from it keeps the roster consistent. */
  lemma AddStudentKeepsConsistent(courses: seq<Course>, students: seq<Student>, s: Student)
    requires Consistent(courses, students)
    requires GradeIsCurrent(courses, s)
    ensures Consistent(courses, students + [s])
  {
  }

  /**
    Deleting a course together with its students leaves no dangling
    reference, and every surviving student still finds the same course.
   */
  lemma DeleteCourseKeepsConsistent(courses: seq<Course>, students: seq<Student>, courseId: string)
    requires Consistent(courses, students)
    ensures forall s :: s in StudentsOutsideCourse(students, courseId) ==>
      CourseById(CoursesWithoutId(courses, courseId), s.courseId) == CourseById(courses, s.courseId)
    ensures Consistent(CoursesWithoutId(courses, courseId), StudentsOutsideCourse(students, courseId))
  {
    forall s | s in StudentsOutsideCourse(students, courseId)
      ensures CourseById(CoursesWithoutId(courses, courseId), s.courseId) == CourseById(courses, s.courseId)
      ensures GradeIsCurrent(CoursesWithoutId(courses, courseId), s)
    {
      FindAfterFilter(courses, CourseIdIsNot(courseId), CourseHasId(s.courseId));
    }
  }

  /** Deleting the same student id twice ends in the same roster as deleting it once. */
  lemma DeleteStudentIdempotent(students: seq<Student>, studentId: string)
    ensures StudentsWithoutId(StudentsWithoutId(students, studentId), studentId) == StudentsWithoutId(students, studentId)
  {
    FilterIdempotent(students, StudentIdIsNot(studentId));
  }

  /** Deleting a course id twice ends in the same roster as deleting it once. */
  lemma DeleteCourseIdempotent(courses: seq<Course>, students: seq<Student>, courseId: string)
    ensures CoursesWithoutId(CoursesWithoutId(courses, courseId), courseId) == CoursesWithoutId(courses, courseId)
    ensures StudentsOutsideCourse(StudentsOutsideCourse(students, courseId), courseId) == StudentsOutsideCourse(students, courseId)
  {
    FilterIdempotent(courses, CourseIdIsNot(courseId));
    FilterIdempotent(students, NotInCourse(courseId));
  }

  /** Removing an id that no student has leaves the list exactly as it was. */
  lemma DeleteAbsentStudentIsNoOp(students: seq<Student>, studentId: string)
    requires StudentById(students, studentId).None?
    ensures StudentsWithoutId(students, studentId) == students
  {
    FilterKeepsAll(students, StudentIdIsNot(studentId));
  }

  /** The page's two collections. */
  class Roster {
    var courses: seq<Course>
    var students: seq<Student>

    ghost predicate Valid()
      reads this
    {
      Consistent(courses, students)
    }

    constructor ()
      ensures courses == [] && students == []
      ensures Valid()
    {
      courses := [];
      students := [];
    }

    /** The roster half of the add-course handler: `courses.push(course)`. */
    method AddCourse(id: string, name: string, gradingSystem: string)
      modifies this
      ensures courses == old(courses) + [Course(id, name, gradingSystem)]
      ensures students == old(students)
      ensures old(Valid()) ==> Valid()
    {
      ghost var wasValid := Valid();
      var course := Course(id, name, gradingSystem);
      if wasValid {
        AddCourseKeepsConsistent(courses, students, course);
      }
      courses := courses + [course];
    }

    /**
      The roster half of the add-student handler: the grade is computed under
      the grading system of the first course with `courseId`, and the record is
      pushed at the end. The course must exist; the page throws otherwise.
     */
    method AddStudent(id: string, name: string, surname: string, courseId: string, midterm: real, final: real)
      requires CourseById(courses, courseId).Some?
      modifies this
      ensures
        var course := CourseById(old(courses), courseId).value;
        students == old(students) + [Student(id, name, surname, courseId, midterm, final,
                                             CalculateGrade(midterm, final, course.gradingSystem))]
      ensures courses == old(courses)
      ensures old(Valid()) ==> Valid()
    {
      var course := CourseById(courses, courseId);
      var student := Student(id, name, surname, courseId, midterm, final,
                             CalculateGrade(midterm, final, course.value.gradingSystem));
      ghost var wasValid := Valid();
      if wasValid {
        AddStudentKeepsConsistent(courses, students, student);
      }
      students := students + [student];
    }

    /** Deletes every student with `studentId`; the others keep their order. */
    method DeleteStudent(studentId: string)
      modifies this
      ensures students == StudentsWithoutId(old(students), studentId)
      ensures courses == old(courses)
      ensures old(Valid()) ==> Valid()
    {
      students := StudentsWithoutId(students, studentId);
    }

    /** Deletes every course with `courseId` and, in cascade, every student enrolled in it. */
    method DeleteCourse(courseId: string)
      modifies this
      ensures courses == CoursesWithoutId(old(courses), courseId)
      ensures students == StudentsOutsideCourse(old(students), courseId)
      ensures old(Valid()) ==> Valid()
    {
      ghost var wasValid := Valid();
      if wasValid {
        DeleteCourseKeepsConsistent(courses, students, courseId);
      }
      courses := CoursesWithoutId(courses, courseId);
      students := StudentsOutsideCourse(students, courseId);
    }

    /**
      The roster half of the edit handler: when a student with `studentId`
      exists, it is returned (the page copies it into the form) and every
      student with that id is removed, to be added again when the form is
      submitted; otherwise nothing changes.
     */
    method EditStudent(studentId: string) returns (form: Option<Student>)
      modifies this
      ensures form == StudentById(old(students), studentId)
      ensures form.None? ==> students == old(students)
      ensures form.Some? ==> students == StudentsWithoutId(old(students), studentId)
      ensures courses == old(courses)
      ensures old(Valid()) ==> Valid()
    {
      form := StudentById(students, studentId);
      if form.None? {
        return;
      }
      students := StudentsWithoutId(students, studentId);
    }
  }
}
