/**
  The two kinds of record the gradebook keeps, and the lookups by id that the
  handlers perform with `find`.
 */
module Records {
  import opened Sequences
  import opened Grading

  /**
    A course. `id` is an opaque string (a timestamp in the running page);
    `gradingSystem` selects the threshold table, "10" or anything else.
   */
  datatype Course = Course(id: string, name: string, gradingSystem: string)

  /**
    A student enrolment. `grade` is the letter computed when the record was
    added, under the grading system of the course it names.
   */
  datatype Student = Student(
    id: string,
    name: string,
    surname: string,
    courseId: string,
    midterm: real,
    final: real,
    grade: Letter)

  function CourseHasId(courseId: string): Course -> bool
  {
    (c: Course) => c.id == courseId
  }

  function StudentHasId(studentId: string): Student -> bool
  {
    (s: Student) => s.id == studentId
  }

  /** `courses.find(c => c.id === courseId)`: the first course with that id. */
  function CourseById(courses: seq<Course>, courseId: string): (r: Option<Course>)
    ensures r.Some? ==> r.value in courses && r.value.id == courseId
    ensures r.None? <==> forall c :: c in courses ==> c.id != courseId
    ensures r.Some? ==> exists i :: 0 <= i < |courses| && courses[i] == r.value
                                    && forall j :: 0 <= j < i ==> courses[j].id != courseId
  {
    Find(courses, CourseHasId(courseId))
  }

  /** `students.find(s => s.id === studentId)`: the first student with that id. */
  function StudentById(students: seq<Student>, studentId: string): (r: Option<Student>)
    ensures r.Some? ==> r.value in students && r.value.id == studentId
    ensures r.None? <==> forall s :: s in students ==> s.id != studentId
    ensures r.Some? ==> exists i :: 0 <= i < |students| && students[i] == r.value
                                    && forall j :: 0 <= j < i ==> students[j].id != studentId
  {
    Find(students, StudentHasId(studentId))
  }
}
