/**
 What the tables of the ECRO courseware contain after any calls.  A fact is one row of one table,
 with its contents.  Every call adds certain facts, and turns every fact that is there into another
 one, itself, or nothing; this holds of all nineteen operations and all seven tables alike.
 */
module EcroFacts {
  import opened Options
  import opened EcroCourseware

  datatype Fact =
    | Department(department: int)
    | Student(id: int, student: StudentRow)
    | Instructor(id: int, instructor: InstructorRow)
    | Course(id: int, course: CourseRow)
    | Enrolled(courseId: int, studentId: int)
    | Teaching(courseId: int, instructorId: int)
    | Named(name: int, courseId: int)

  predicate Has(t: Tables, f: Fact) {
    match f
    case Department(d) => d in t.departments
    case Student(id, row) => id in t.students && t.students[id] == row
    case Instructor(id, row) => id in t.instructors && t.instructors[id] == row
    case Course(id, row) => id in t.courses && t.courses[id] == row
    case Enrolled(p, s) => (p, s) in t.enroll
    case Teaching(p, i) => (p, i) in t.teach
    case Named(name, p) => name in t.courseNameIndex && t.courseNameIndex[name] == p
  }

  // ---------------------------------------------------------------- what a call does

  /** The call puts the name value2 on course value1. */
  predicate GivesName(t: Tables, c: Call) {
    (c.kind == AddCourseForce && c.value4 in t.departments) || c.kind == UpdateCourseNameForce
  }

  /** The call deletes course p: by its id, or because the index leads to it from a name given to another course. */
  predicate DeletesCourse(t: Tables, c: Call, p: int) {
    || (c.kind == DeleteCourseCascade && p == c.value1)
    || (GivesName(t, c) && p != c.value1 && Has(t, Named(c.value2, p)))
  }

  /** The fact is there after the call, whatever was there before. */
  predicate Adds(t: Tables, c: Call, f: Fact) {
    match f
    case Department(d) => c.kind == AddDepartment && d == c.value1
    case Student(id, row) => c.kind == AddStudentForce && id == c.value1 && row == StudentRow(c.value2, c.value3)
    case Instructor(id, row) =>
      c.kind == AddInstructorForce && c.value4 in t.departments && id == c.value1 && row == InstructorRow(c.value2, c.value3, c.value4)
    case Course(id, row) =>
      c.kind == AddCourseForce && c.value4 in t.departments && id == c.value1 && row == CourseRow(c.value2, c.value3, c.value4)
    case Enrolled(p, s) => c.kind == Enroll && p == c.value1 && s == c.value2 && p in t.courses && s in t.students
    case Teaching(p, i) => c.kind == Teach && p == c.value1 && i == c.value2 && p in t.courses && i in t.instructors
    case Named(name, p) =>
      || (GivesName(t, c) && name == c.value2 && p == c.value1)
      || (c.kind == UpdateCourseIDCascade && c.value1 in t.courses && name == t.courses[c.value1].courseName && p == c.value2)
  }

  /** The ids after a call that changes id a into b. */
  function Renumbered(id: int, a: int, b: int): int {
    if id == a then b else id
  }

  function StudentBecomes(t: Tables, c: Call, id: int, row: StudentRow): Option<Fact> {
    if (c.kind == AddStudentForce || c.kind == DeleteStudentCascade) && id == c.value1 then None
    else if c.kind == UpdateStudentIDCascade && id == c.value2 != c.value1 && c.value1 in t.students then None
    else if c.kind == UpdateStudentIDCascade then Some(Student(Renumbered(id, c.value1, c.value2), row))
    else if c.kind == UpdateStudentOther && id == c.value1 then Some(Student(id, StudentRow(c.value2, c.value3)))
    else Some(Student(id, row))
  }

  function InstructorBecomes(t: Tables, c: Call, id: int, row: InstructorRow): Option<Fact> {
    if c.kind == AddInstructorForce && c.value4 in t.departments && id == c.value1 then None
    else if c.kind == DeleteInstructorCascade && id == c.value1 then None
    else if c.kind == UpdateInstructorIDCascade && id == c.value2 != c.value1 && c.value1 in t.instructors then None
    else if c.kind == UpdateInstructorIDCascade then Some(Instructor(Renumbered(id, c.value1, c.value2), row))
    else if c.kind == UpdateInstructorOther && id == c.value1 then Some(Instructor(id, InstructorRow(c.value2, c.value3, c.value4)))
    else Some(Instructor(id, row))
  }

  function CourseBecomes(t: Tables, c: Call, id: int, row: CourseRow): Option<Fact> {
    if DeletesCourse(t, c, id) then None
    else if c.kind == AddCourseForce && c.value4 in t.departments && id == c.value1 then None
    else if c.kind == UpdateCourseIDCascade && id == c.value2 != c.value1 && c.value1 in t.courses then None
    else if c.kind == UpdateCourseIDCascade then Some(Course(Renumbered(id, c.value1, c.value2), row))
    else if c.kind == UpdateCourseNameForce && id == c.value1 then Some(Course(id, row.(courseName := c.value2)))
    else if c.kind == UpdateCourseOther && id == c.value1 && c.value3 in t.departments then
      Some(Course(id, CourseRow(row.courseName, c.value2, c.value3)))
    else Some(Course(id, row))
  }

  function EnrolledBecomes(t: Tables, c: Call, p: int, s: int): Option<Fact> {
    if DeletesCourse(t, c, p) || (c.kind == DeleteStudentCascade && s == c.value1) then None
    else if c.kind == WithdrawEnrollment && p == c.value1 && s == c.value2 then None
    else if c.kind == UpdateStudentIDCascade then Some(Enrolled(p, Renumbered(s, c.value1, c.value2)))
    else if c.kind == UpdateCourseIDCascade then Some(Enrolled(Renumbered(p, c.value1, c.value2), s))
    else Some(Enrolled(p, s))
  }

  function TeachingBecomes(t: Tables, c: Call, p: int, i: int): Option<Fact> {
    if DeletesCourse(t, c, p) || (c.kind == DeleteInstructorCascade && i == c.value1) then None
    else if c.kind == WithdrawTeaching && p == c.value1 && i == c.value2 then None
    else if c.kind == UpdateInstructorIDCascade then Some(Teaching(p, Renumbered(i, c.value1, c.value2)))
    else if c.kind == UpdateCourseIDCascade then Some(Teaching(Renumbered(p, c.value1, c.value2), i))
    else Some(Teaching(p, i))
  }

  function NamedBecomes(t: Tables, c: Call, name: int, p: int): Option<Fact> {
    if GivesName(t, c) && name == c.value2 then None
    else if (DeletesCourse(t, c, p) || (GivesName(t, c) && p == c.value1)) && p in t.courses && t.courses[p].courseName == name then None
    else if c.kind == UpdateCourseIDCascade && c.value1 in t.courses && t.courses[c.value1].courseName == name then None
    else Some(Named(name, p))
  }

  /** What becomes of a fact that is there. */
  ghost function Becomes(t: Tables, c: Call, f: Fact): Option<Fact> {
    match f
    case Department(d) =>
      if c.kind == DeleteDepartmentNoAction && d == c.value1
         && (forall i :: i in t.instructors ==> t.instructors[i].department != d)
         && (forall p :: p in t.courses ==> t.courses[p].department != d)
      then None else Some(f)
    case Student(id, row) => StudentBecomes(t, c, id, row)
    case Instructor(id, row) => InstructorBecomes(t, c, id, row)
    case Course(id, row) => CourseBecomes(t, c, id, row)
    case Enrolled(p, s) => EnrolledBecomes(t, c, p, s)
    case Teaching(p, i) => TeachingBecomes(t, c, p, i)
    case Named(name, p) => NamedBecomes(t, c, name, p)
  }

  ghost predicate Carried(t: Tables, c: Call, f: Fact) {
    exists g :: Has(t, g) && Becomes(t, c, g) == Some(f)
  }

  lemma CarriedFrom(t: Tables, c: Call, g: Fact, f: Fact)
    requires Has(t, g) && Becomes(t, c, g) == Some(f)
    ensures Carried(t, c, f)
  {
  }

  // ---------------------------------------------------------------- the law, table by table

  lemma DepartmentsAfter(t: Tables, c: Call, d: int)
    ensures Has(Effect(t, c), Department(d)) <==> Adds(t, c, Department(d)) || (Has(t, Department(d)) && Becomes(t, c, Department(d)).Some?)
  {
    if !DepartmentKind(c.kind) {
      DepartmentsKept(t, c);
    }
    hide StudentCall, InstructorCall, CourseCall, LinkCall;
  }

  lemma DepartmentCallFrame(t: Tables, c: Call)
    ensures DepartmentCall(t, c) == t.(departments := DepartmentCall(t, c).departments)
  {
    hide Referenced;
  }

  lemma StudentCallFrame(t: Tables, c: Call)
    ensures StudentCall(t, c) == t.(students := StudentCall(t, c).students, enroll := StudentCall(t, c).enroll)
  {
    hide WithoutSecond, RenameSecond;
  }

  lemma InstructorCallFrame(t: Tables, c: Call)
    ensures InstructorCall(t, c) == t.(instructors := InstructorCall(t, c).instructors, teach := InstructorCall(t, c).teach)
  {
    hide WithoutSecond, RenameSecond;
  }

  lemma FreeNameFrame(t: Tables, name: int, cid: int)
    ensures FreeName(t, name, cid).departments == t.departments
    ensures FreeName(t, name, cid).students == t.students && FreeName(t, name, cid).instructors == t.instructors
  {
    hide WithoutFirst, Unindex;
  }

  lemma CourseCallFrame(t: Tables, c: Call)
    ensures CourseCall(t, c).departments == t.departments
    ensures CourseCall(t, c).students == t.students && CourseCall(t, c).instructors == t.instructors
  {
    FreeNameFrame(t, c.value2, c.value1);
    hide FreeName, RenameFirst, WithoutFirst, Unindex;
  }

  lemma LinkCallFrame(t: Tables, c: Call)
    ensures LinkCall(t, c) == t.(enroll := LinkCall(t, c).enroll, teach := LinkCall(t, c).teach)
  {
  }

  lemma DepartmentsKept(t: Tables, c: Call)
    requires !DepartmentKind(c.kind)
    ensures Effect(t, c).departments == t.departments
  {
    StudentCallFrame(t, c);
    InstructorCallFrame(t, c);
    CourseCallFrame(t, c);
    LinkCallFrame(t, c);
    hide StudentCall, InstructorCall, CourseCall, LinkCall;
  }

  lemma StudentsKept(t: Tables, c: Call)
    requires !StudentKind(c.kind)
    ensures Effect(t, c).students == t.students
  {
    DepartmentCallFrame(t, c);
    InstructorCallFrame(t, c);
    CourseCallFrame(t, c);
    LinkCallFrame(t, c);
    hide DepartmentCall, InstructorCall, CourseCall, LinkCall;
  }

  lemma InstructorsKept(t: Tables, c: Call)
    requires !InstructorKind(c.kind)
    ensures Effect(t, c).instructors == t.instructors
  {
    DepartmentCallFrame(t, c);
    StudentCallFrame(t, c);
    CourseCallFrame(t, c);
    LinkCallFrame(t, c);
    hide DepartmentCall, StudentCall, CourseCall, LinkCall;
  }

  lemma CoursesKept(t: Tables, c: Call)
    requires !CourseKind(c.kind)
    ensures Effect(t, c).courses == t.courses && Effect(t, c).courseNameIndex == t.courseNameIndex
  {
    DepartmentCallFrame(t, c);
    StudentCallFrame(t, c);
    InstructorCallFrame(t, c);
    LinkCallFrame(t, c);
    hide DepartmentCall, StudentCall, InstructorCall, LinkCall;
  }

  lemma StudentsAfter(t: Tables, c: Call, id: int, row: StudentRow)
    ensures Has(Effect(t, c), Student(id, row)) <==> Adds(t, c, Student(id, row)) || Carried(t, c, Student(id, row))
  {
    var f := Student(id, row);
    if StudentKind(c.kind) {
      hide WithoutSecond, RenameSecond;
      StudentCarried(t, c, id, row);
    } else {
      StudentsKept(t, c);
      hide Effect;
      StudentCarried(t, c, id, row);
    }
  }

  /** The student rows that become the given one. */
  lemma StudentCarried(t: Tables, c: Call, id: int, row: StudentRow)
    ensures Carried(t, c, Student(id, row)) <==>
              if c.kind == UpdateStudentIDCascade && c.value1 in t.students then
                (id == c.value2 && t.students[c.value1] == row) || (id != c.value1 && id != c.value2 && id in t.students && t.students[id] == row)
              else if (c.kind == AddStudentForce || c.kind == DeleteStudentCascade) && id == c.value1 then false
              else if c.kind == UpdateStudentOther && id == c.value1 then id in t.students && row == StudentRow(c.value2, c.value3)
              else id in t.students && t.students[id] == row
  {
    var f := Student(id, row);
    if c.kind == UpdateStudentIDCascade && c.value1 in t.students && id == c.value2 {
      if t.students[c.value1] == row {
        CarriedFrom(t, c, Student(c.value1, row), f);
      }
    } else if c.kind == UpdateStudentOther && id == c.value1 {
      if id in t.students && row == StudentRow(c.value2, c.value3) {
        CarriedFrom(t, c, Student(id, t.students[id]), f);
      }
    } else if Has(t, f) && Becomes(t, c, f) == Some(f) {
      CarriedFrom(t, c, f, f);
    }
  }

  lemma InstructorsAfter(t: Tables, c: Call, id: int, row: InstructorRow)
    ensures Has(Effect(t, c), Instructor(id, row)) <==> Adds(t, c, Instructor(id, row)) || Carried(t, c, Instructor(id, row))
  {
    if InstructorKind(c.kind) {
      hide WithoutSecond, RenameSecond;
      InstructorCarried(t, c, id, row);
    } else {
      InstructorsKept(t, c);
      hide Effect;
      InstructorCarried(t, c, id, row);
    }
  }

  lemma InstructorCarried(t: Tables, c: Call, id: int, row: InstructorRow)
    ensures Carried(t, c, Instructor(id, row)) <==>
              if c.kind == UpdateInstructorIDCascade && c.value1 in t.instructors then
                || (id == c.value2 && t.instructors[c.value1] == row)
                || (id != c.value1 && id != c.value2 && id in t.instructors && t.instructors[id] == row)
              else if c.kind == AddInstructorForce && c.value4 in t.departments && id == c.value1 then false
              else if c.kind == DeleteInstructorCascade && id == c.value1 then false
              else if c.kind == UpdateInstructorOther && id == c.value1 then
                id in t.instructors && row == InstructorRow(c.value2, c.value3, c.value4)
              else id in t.instructors && t.instructors[id] == row
  {
    var f := Instructor(id, row);
    if c.kind == UpdateInstructorIDCascade && c.value1 in t.instructors && id == c.value2 {
      if t.instructors[c.value1] == row {
        CarriedFrom(t, c, Instructor(c.value1, row), f);
      }
    } else if c.kind == UpdateInstructorOther && id == c.value1 {
      if id in t.instructors && row == InstructorRow(c.value2, c.value3, c.value4) {
        CarriedFrom(t, c, Instructor(id, t.instructors[id]), f);
      }
    } else if Has(t, f) && Becomes(t, c, f) == Some(f) {
      CarriedFrom(t, c, f, f);
    }
  }

  lemma CoursesAfter(t: Tables, c: Call, id: int, row: CourseRow)
    ensures Has(Effect(t, c), Course(id, row)) <==> Adds(t, c, Course(id, row)) || Carried(t, c, Course(id, row))
  {
    CourseCarried(t, c, id, row);
    hide Carried;
    if GivesName(t, c) {
      FreeNameCourses(t, c.value2, c.value1);
      hide Unindex, FreeName, DepartmentCall, StudentCall, InstructorCall, LinkCall;
    } else if CourseKind(c.kind) {
      hide WithoutFirst, RenameFirst, Unindex, FreeName, DepartmentCall, StudentCall, InstructorCall, LinkCall;
    } else {
      CoursesKept(t, c);
      hide Effect;
    }
  }

  lemma FreeNameCourses(t: Tables, name: int, cid: int)
    ensures forall p :: p in FreeName(t, name, cid).courses <==> p in t.courses && !(p != cid && Has(t, Named(name, p)))
    ensures forall p :: p in FreeName(t, name, cid).courses ==> FreeName(t, name, cid).courses[p] == t.courses[p]
    ensures FreeName(t, name, cid).departments == t.departments
  {
    hide WithoutFirst, Unindex;
  }

  lemma CourseCarried(t: Tables, c: Call, id: int, row: CourseRow)
    ensures Carried(t, c, Course(id, row)) <==>
              if DeletesCourse(t, c, id) then false
              else if c.kind == UpdateCourseIDCascade && c.value1 in t.courses then
                || (id == c.value2 && t.courses[c.value1] == row)
                || (id != c.value1 && id != c.value2 && id in t.courses && t.courses[id] == row)
              else if c.kind == AddCourseForce && c.value4 in t.departments && id == c.value1 then false
              else if c.kind == UpdateCourseNameForce && id == c.value1 then
                id in t.courses && row == t.courses[id].(courseName := c.value2)
              else if c.kind == UpdateCourseOther && id == c.value1 && c.value3 in t.departments then
                id in t.courses && row == CourseRow(t.courses[id].courseName, c.value2, c.value3)
              else id in t.courses && t.courses[id] == row
  {
    var f := Course(id, row);
    hide DeletesCourse;
    NothingDeleted(t, c);
    if DeletesCourse(t, c, id) {
    } else if c.kind == UpdateCourseIDCascade && c.value1 in t.courses && id == c.value2 {
      if t.courses[c.value1] == row {
        CarriedFrom(t, c, Course(c.value1, row), f);
      }
    } else if (c.kind == UpdateCourseNameForce || (c.kind == UpdateCourseOther && c.value3 in t.departments)) && id == c.value1 {
      if id in t.courses && Becomes(t, c, Course(id, t.courses[id])) == Some(f) {
        CarriedFrom(t, c, Course(id, t.courses[id]), f);
      }
    } else if Has(t, f) && Becomes(t, c, f) == Some(f) {
      CarriedFrom(t, c, f, f);
    }
  }

  lemma NothingDeleted(t: Tables, c: Call)
    ensures c.kind == UpdateCourseIDCascade ==> forall p :: !DeletesCourse(t, c, p)
  {
  }

  // ---------------------------------------------------------------- the law for links

  lemma LinksKept(t: Tables, c: Call)
    ensures DepartmentKind(c.kind) ==> Effect(t, c).enroll == t.enroll && Effect(t, c).teach == t.teach
    ensures StudentKind(c.kind) ==> Effect(t, c).teach == t.teach && Effect(t, c).enroll == StudentCall(t, c).enroll
    ensures InstructorKind(c.kind) ==> Effect(t, c).enroll == t.enroll && Effect(t, c).teach == InstructorCall(t, c).teach
    ensures CourseKind(c.kind) ==> Effect(t, c).enroll == CourseCall(t, c).enroll && Effect(t, c).teach == CourseCall(t, c).teach
    ensures !DepartmentKind(c.kind) && !StudentKind(c.kind) && !InstructorKind(c.kind) && !CourseKind(c.kind) ==>
              Effect(t, c).enroll == LinkCall(t, c).enroll && Effect(t, c).teach == LinkCall(t, c).teach
  {
    DepartmentCallFrame(t, c);
    StudentCallFrame(t, c);
    InstructorCallFrame(t, c);
    hide DepartmentCall, StudentCall, InstructorCall, CourseCall, LinkCall;
  }

  lemma CourseCallLinks(t: Tables, c: Call, p: int, x: int)
    requires CourseKind(c.kind) && c.kind != UpdateCourseIDCascade
    ensures (p, x) in CourseCall(t, c).enroll <==> (p, x) in t.enroll && !DeletesCourse(t, c, p)
    ensures (p, x) in CourseCall(t, c).teach <==> (p, x) in t.teach && !DeletesCourse(t, c, p)
  {
    FreeNameLinks(t, c.value2, c.value1, p, x);
    DeleteCourseLinks(t, c.value1, p, x);
    hide Unindex, FreeName, DeleteCourse;
  }

  lemma DeleteCourseLinks(t: Tables, cid: int, p: int, x: int)
    ensures (p, x) in DeleteCourse(t, cid).enroll <==> (p, x) in t.enroll && p != cid
    ensures (p, x) in DeleteCourse(t, cid).teach <==> (p, x) in t.teach && p != cid
  {
    hide Unindex;
  }

  lemma FreeNameLinks(t: Tables, name: int, cid: int, p: int, x: int)
    ensures (p, x) in FreeName(t, name, cid).enroll <==> (p, x) in t.enroll && !(p != cid && Has(t, Named(name, p)))
    ensures (p, x) in FreeName(t, name, cid).teach <==> (p, x) in t.teach && !(p != cid && Has(t, Named(name, p)))
  {
    if name in t.courseNameIndex && t.courseNameIndex[name] != cid {
      DeleteCourseLinks(t, t.courseNameIndex[name], p, x);
    }
    hide DeleteCourse;
  }

  lemma RenamedFirst(links: set<(int, int)>, a: int, b: int, p: int, x: int)
    ensures (p, x) in RenameFirst(links, a, b) <==> (p != a && (p, x) in links) || (p == b && (a, x) in links)
  {
    if p == b && (a, x) in links {
      assert NewFirst((a, x), a, b) == (p, x);
    }
    if p != a && (p, x) in links {
      assert NewFirst((p, x), a, b) == (p, x);
    }
  }

  lemma RenamedSecond(links: set<(int, int)>, a: int, b: int, p: int, x: int)
    ensures (p, x) in RenameSecond(links, a, b) <==> (x != a && (p, x) in links) || (x == b && (p, a) in links)
  {
    if x == b && (p, a) in links {
      assert NewSecond((p, a), a, b) == (p, x);
    }
    if x != a && (p, x) in links {
      assert NewSecond((p, x), a, b) == (p, x);
    }
  }

  lemma EnrolledCarried(t: Tables, c: Call, p: int, s: int)
    ensures Carried(t, c, Enrolled(p, s)) <==>
              if c.kind == UpdateStudentIDCascade then (s != c.value1 && (p, s) in t.enroll) || (s == c.value2 && (p, c.value1) in t.enroll)
              else if c.kind == UpdateCourseIDCascade then (p != c.value1 && (p, s) in t.enroll) || (p == c.value2 && (c.value1, s) in t.enroll)
              else (p, s) in t.enroll && EnrolledBecomes(t, c, p, s).Some?
  {
    var f := Enrolled(p, s);
    if c.kind == UpdateStudentIDCascade && s == c.value2 && (p, c.value1) in t.enroll {
      CarriedFrom(t, c, Enrolled(p, c.value1), f);
    } else if c.kind == UpdateCourseIDCascade && p == c.value2 && (c.value1, s) in t.enroll {
      CarriedFrom(t, c, Enrolled(c.value1, s), f);
    } else if Has(t, f) && Becomes(t, c, f) == Some(f) {
      CarriedFrom(t, c, f, f);
    }
  }

  lemma EnrolledAfter(t: Tables, c: Call, p: int, s: int)
    ensures Has(Effect(t, c), Enrolled(p, s)) <==> Adds(t, c, Enrolled(p, s)) || Carried(t, c, Enrolled(p, s))
  {
    EnrolledCarried(t, c, p, s);
    LinksKept(t, c);
    hide Carried, Effect;
    if CourseKind(c.kind) {
      hide CourseCall;
      if c.kind == UpdateCourseIDCascade {
        RenamedFirst(t.enroll, c.value1, c.value2, p, s);
        RenumberLinks(t, c);
        hide RenameFirst;
      } else {
        CourseCallLinks(t, c, p, s);
      }
    } else if StudentKind(c.kind) {
      RenamedSecond(t.enroll, c.value1, c.value2, p, s);
      hide RenameSecond;
    } else {
      LinkCallLinks(t, c, p, s);
      hide LinkCall;
    }
  }

  lemma LinkCallLinks(t: Tables, c: Call, p: int, x: int)
    ensures (p, x) in LinkCall(t, c).enroll <==>
              Adds(t, c, Enrolled(p, x)) || ((p, x) in t.enroll && !(c.kind == WithdrawEnrollment && p == c.value1 && x == c.value2))
    ensures (p, x) in LinkCall(t, c).teach <==>
              Adds(t, c, Teaching(p, x)) || ((p, x) in t.teach && !(c.kind == WithdrawTeaching && p == c.value1 && x == c.value2))
  {
  }

  lemma RenumberLinks(t: Tables, c: Call)
    requires c.kind == UpdateCourseIDCascade
    ensures CourseCall(t, c).enroll == RenameFirst(t.enroll, c.value1, c.value2)
    ensures CourseCall(t, c).teach == RenameFirst(t.teach, c.value1, c.value2)
  {
    hide RenameFirst;
  }

  lemma TeachingCarried(t: Tables, c: Call, p: int, i: int)
    ensures Carried(t, c, Teaching(p, i)) <==>
              if c.kind == UpdateInstructorIDCascade then (i != c.value1 && (p, i) in t.teach) || (i == c.value2 && (p, c.value1) in t.teach)
              else if c.kind == UpdateCourseIDCascade then (p != c.value1 && (p, i) in t.teach) || (p == c.value2 && (c.value1, i) in t.teach)
              else (p, i) in t.teach && TeachingBecomes(t, c, p, i).Some?
  {
    var f := Teaching(p, i);
    if c.kind == UpdateInstructorIDCascade && i == c.value2 && (p, c.value1) in t.teach {
      CarriedFrom(t, c, Teaching(p, c.value1), f);
    } else if c.kind == UpdateCourseIDCascade && p == c.value2 && (c.value1, i) in t.teach {
      CarriedFrom(t, c, Teaching(c.value1, i), f);
    } else if Has(t, f) && Becomes(t, c, f) == Some(f) {
      CarriedFrom(t, c, f, f);
    }
  }

  lemma TeachingAfter(t: Tables, c: Call, p: int, i: int)
    ensures Has(Effect(t, c), Teaching(p, i)) <==> Adds(t, c, Teaching(p, i)) || Carried(t, c, Teaching(p, i))
  {
    TeachingCarried(t, c, p, i);
    LinksKept(t, c);
    hide Carried, Effect;
    if CourseKind(c.kind) {
      hide CourseCall;
      if c.kind == UpdateCourseIDCascade {
        RenamedFirst(t.teach, c.value1, c.value2, p, i);
        RenumberLinks(t, c);
        hide RenameFirst;
      } else {
        CourseCallLinks(t, c, p, i);
      }
    } else if InstructorKind(c.kind) {
      RenamedSecond(t.teach, c.value1, c.value2, p, i);
      hide RenameSecond;
    } else {
      LinkCallLinks(t, c, p, i);
      hide LinkCall;
    }
  }

  // ---------------------------------------------------------------- the law for the name index

  lemma NamedCarried(t: Tables, c: Call, name: int, p: int)
    ensures Carried(t, c, Named(name, p)) <==> Has(t, Named(name, p)) && NamedBecomes(t, c, name, p).Some?
  {
    var f := Named(name, p);
    if Has(t, f) && Becomes(t, c, f) == Some(f) {
      CarriedFrom(t, c, f, f);
    }
  }

  lemma NamedAfter(t: Tables, c: Call, name: int, p: int)
    ensures Has(Effect(t, c), Named(name, p)) <==> Adds(t, c, Named(name, p)) || Carried(t, c, Named(name, p))
  {
    NamedCarried(t, c, name, p);
    hide Carried;
    if CourseKind(c.kind) {
      CourseCallNames(t, c, name, p);
      hide CourseCall;
    } else {
      CoursesKept(t, c);
      hide Effect;
    }
  }

  lemma CourseCallNames(t: Tables, c: Call, name: int, p: int)
    requires CourseKind(c.kind)
    ensures Has(CourseCall(t, c), Named(name, p)) <==>
              Adds(t, c, Named(name, p)) || (Has(t, Named(name, p)) && NamedBecomes(t, c, name, p).Some?)
  {
    if GivesName(t, c) {
      GivenNames(t, c, name, p);
    } else if c.kind == UpdateCourseIDCascade {
      hide WithoutFirst, RenameFirst;
    } else {
      hide WithoutFirst;
    }
  }

  /** The index after the course that has the name is deleted and the old name of cid is dropped. */
  function FreedIndex(t: Tables, name: int, cid: int): map<int, int> {
    var u := FreeName(t, name, cid);
    if cid in u.courses then Unindex(u.courseNameIndex, u.courses[cid].courseName, cid) else u.courseNameIndex
  }

  lemma FreedNames(t: Tables, name: int, cid: int, n: int, p: int)
    requires n != name
    ensures n in FreedIndex(t, name, cid) && FreedIndex(t, name, cid)[n] == p <==>
              && n in t.courseNameIndex && t.courseNameIndex[n] == p
              && !((p == cid || Has(t, Named(name, p))) && p in t.courses && t.courses[p].courseName == n)
  {
    hide WithoutFirst;
  }

  lemma GivenNames(t: Tables, c: Call, name: int, p: int)
    requires GivesName(t, c)
    ensures Has(CourseCall(t, c), Named(name, p)) <==>
              Adds(t, c, Named(name, p)) || (Has(t, Named(name, p)) && NamedBecomes(t, c, name, p).Some?)
  {
    assert CourseCall(t, c).courseNameIndex == FreedIndex(t, c.value2, c.value1)[c.value2 := c.value1] by {
      FreeNameFrame(t, c.value2, c.value1);
      hide FreeName, Unindex;
    }
    if name != c.value2 {
      FreedNames(t, c.value2, c.value1, name, p);
    }
    hide CourseCall, FreedIndex;
  }

  // ---------------------------------------------------------------- the law

  /** A fact is there after a call exactly if the call adds it, or turns a fact that was there into it. */
  lemma FactsAfter(t: Tables, c: Call, f: Fact)
    ensures Has(Effect(t, c), f) <==> Adds(t, c, f) || Carried(t, c, f)
  {
    hide Has, Effect, Adds, Carried;
    match f
    case Department(d) => DepartmentCarried(t, c, d); DepartmentsAfter(t, c, d);
    case Student(id, row) => StudentsAfter(t, c, id, row);
    case Instructor(id, row) => InstructorsAfter(t, c, id, row);
    case Course(id, row) => CoursesAfter(t, c, id, row);
    case Enrolled(p, s) => EnrolledAfter(t, c, p, s);
    case Teaching(p, i) => TeachingAfter(t, c, p, i);
    case Named(name, p) => NamedAfter(t, c, name, p);
  }

  lemma DepartmentCarried(t: Tables, c: Call, d: int)
    ensures Carried(t, c, Department(d)) <==> Has(t, Department(d)) && Becomes(t, c, Department(d)).Some?
  {
    var f := Department(d);
    if Has(t, f) && Becomes(t, c, f) == Some(f) {
      CarriedFrom(t, c, f, f);
    }
  }

  // ---------------------------------------------------------------- histories

  /** The tables before call i. */
  function Before(s: Store, cs: seq<Call>, i: nat): Tables
    requires i <= |cs|
  {
    Replay(s, cs[..i]).tables
  }

  /** Call i takes effect: no call before it has its id. */
  predicate Effective(s: Store, cs: seq<Call>, i: nat)
    requires i < |cs|
  {
    Id(cs[i]) !in s.applied && forall j :: 0 <= j < i ==> Id(cs[j]) != Id(cs[i])
  }

  /** Call k turns fact a into fact b, or has no effect. */
  ghost predicate Turns(s: Store, cs: seq<Call>, k: nat, a: Fact, b: Fact)
    requires k < |cs|
  {
    if Effective(s, cs, k) then Becomes(Before(s, cs, k), cs[k], a) == Some(b) else a == b
  }

  /** The fact was there at the start, or the call before `from` takes effect and adds it. */
  ghost predicate Starts(s: Store, cs: seq<Call>, from: nat, f: Fact)
    requires from <= |cs|
  {
    if from == 0 then Has(s.tables, f)
    else Effective(s, cs, from - 1) && Adds(Before(s, cs, from - 1), cs[from - 1], f)
  }

  /** The journey of a fact: from its start each call turns trail[m] into trail[m + 1], or has no effect. */
  ghost predicate Journey(s: Store, cs: seq<Call>, from: nat, trail: seq<Fact>) {
    && from <= |cs| && |trail| == |cs| - from + 1
    && Starts(s, cs, from, trail[0])
    && forall m: nat :: m < |trail| - 1 ==> TurnsAt(s, cs, from, trail, m)
  }

  ghost predicate TurnsAt(s: Store, cs: seq<Call>, from: nat, trail: seq<Fact>, m: nat)
    requires from + m < |cs| && m + 1 < |trail|
  {
    Turns(s, cs, from + m, trail[m], trail[m + 1])
  }

  ghost predicate JourneyTo(s: Store, cs: seq<Call>, from: nat, trail: seq<Fact>, f: Fact) {
    Journey(s, cs, from, trail) && trail[|trail| - 1] == f
  }

  lemma EffectiveIs(s: Store, cs: seq<Call>)
    requires cs != []
    ensures Effective(s, cs, |cs| - 1) <==> Id(cs[|cs| - 1]) !in Replay(s, cs[..|cs| - 1]).applied
  {
    var before := cs[..|cs| - 1];
    AppliedAre(s, before, Id(cs[|cs| - 1]));
    assert forall i :: 0 <= i < |before| ==> before[i] == cs[i];
    hide Replay;
  }

  lemma PrefixSame(s: Store, cs: seq<Call>, i: nat)
    requires i < |cs| - 1
    ensures Before(s, cs[..|cs| - 1], i) == Before(s, cs, i) && (Effective(s, cs[..|cs| - 1], i) <==> Effective(s, cs, i))
  {
    var before := cs[..|cs| - 1];
    assert before[..i] == cs[..i];
    assert forall j :: 0 <= j < |before| ==> before[j] == cs[j];
    hide Replay;
  }

  lemma TurnsSame(s: Store, cs: seq<Call>, k: nat, a: Fact, b: Fact)
    requires k < |cs| - 1
    ensures Turns(s, cs[..|cs| - 1], k, a, b) <==> Turns(s, cs, k, a, b)
  {
    PrefixSame(s, cs, k);
    hide Becomes, Effective, Before;
  }

  lemma StartsSame(s: Store, cs: seq<Call>, from: nat, f: Fact)
    requires from < |cs|
    ensures Starts(s, cs[..|cs| - 1], from, f) <==> Starts(s, cs, from, f)
  {
    hide Adds, Has, Effective, Before;
    if from > 0 {
      PrefixSame(s, cs, from - 1);
    }
  }

  /** A journey goes on with one more call. */
  lemma JourneyOn(s: Store, cs: seq<Call>, from: nat, trail: seq<Fact>, f: Fact)
    requires cs != [] && Journey(s, cs[..|cs| - 1], from, trail) && Turns(s, cs, |cs| - 1, trail[|trail| - 1], f)
    ensures Journey(s, cs, from, trail + [f])
  {
    var longer := trail + [f];
    StartsSame(s, cs, from, trail[0]);
    assert TurnsAt(s, cs, from, longer, |trail| - 1);
    hide Starts, Turns, TurnsAt;
    forall m: nat | m < |longer| - 1 ensures TurnsAt(s, cs, from, longer, m) {
      if m < |trail| - 1 {
        TurnsAtOn(s, cs, from, trail, f, m);
      }
    }
  }

  lemma TurnsAtOn(s: Store, cs: seq<Call>, from: nat, trail: seq<Fact>, f: Fact, m: nat)
    requires from + m < |cs| - 1 && m + 1 < |trail| && TurnsAt(s, cs[..|cs| - 1], from, trail, m)
    ensures TurnsAt(s, cs, from, trail + [f], m)
  {
    TurnsSame(s, cs, from + m, trail[m], trail[m + 1]);
    hide Turns;
  }

  lemma JourneyBack(s: Store, cs: seq<Call>, from: nat, trail: seq<Fact>)
    requires cs != [] && Journey(s, cs, from, trail) && from < |cs|
    ensures Journey(s, cs[..|cs| - 1], from, trail[..|trail| - 1])
    ensures Turns(s, cs, |cs| - 1, trail[|trail| - 2], trail[|trail| - 1])
  {
    var before, shorter := cs[..|cs| - 1], trail[..|trail| - 1];
    StartsSame(s, cs, from, trail[0]);
    assert TurnsAt(s, cs, from, trail, |trail| - 2);
    hide Starts, Turns, TurnsAt;
    forall m: nat | m < |shorter| - 1 ensures TurnsAt(s, before, from, shorter, m) {
      TurnsAtBack(s, cs, from, trail, m);
    }
  }

  lemma TurnsAtBack(s: Store, cs: seq<Call>, from: nat, trail: seq<Fact>, m: nat)
    requires from + m < |cs| - 1 && m + 2 < |trail| && TurnsAt(s, cs, from, trail, m)
    ensures TurnsAt(s, cs[..|cs| - 1], from, trail[..|trail| - 1], m)
  {
    TurnsSame(s, cs, from + m, trail[m], trail[m + 1]);
    hide Turns;
  }

  /** The last call turns fact g, which was there before it, into f. */
  ghost predicate LastTurns(s: Store, cs: seq<Call>, g: Fact, f: Fact)
    requires cs != []
  {
    Has(Replay(s, cs[..|cs| - 1]).tables, g) && Turns(s, cs, |cs| - 1, g, f)
  }

  /** What the last call does to the facts. */
  lemma LastCall(s: Store, cs: seq<Call>, f: Fact)
    requires cs != []
    ensures Has(Replay(s, cs).tables, f) <==> Starts(s, cs, |cs|, f) || exists g :: LastTurns(s, cs, g, f)
  {
    var last := |cs| - 1;
    var t := Replay(s, cs[..last]).tables;
    EffectiveIs(s, cs);
    FactsAfter(t, cs[last], f);
    hide Has, Effect, Effective, Adds, Becomes;
    if Effective(s, cs, last) {
      if g :| Has(t, g) && Becomes(t, cs[last], g) == Some(f) {
        assert LastTurns(s, cs, g, f);
      }
      if g :| LastTurns(s, cs, g, f) {
        CarriedFrom(t, cs[last], g, f);
      }
    } else {
      assert Has(t, f) ==> LastTurns(s, cs, f, f);
    }
  }

  /** Whatever a journey leads to is there. */
  lemma {:induction false} JourneyArrives(s: Store, cs: seq<Call>, from: nat, trail: seq<Fact>)
    requires Journey(s, cs, from, trail)
    ensures Has(Replay(s, cs).tables, trail[|trail| - 1])
    decreases |cs|
  {
    var f := trail[|trail| - 1];
    if cs != [] {
      LastCall(s, cs, f);
      if from < |cs| {
        var shorter := trail[..|trail| - 1];
        var g := trail[|trail| - 2];
        assert shorter[|shorter| - 1] == g;
        JourneyBack(s, cs, from, trail);
        hide Journey, Starts, Turns, Has, Replay;
        JourneyArrives(s, cs[..|cs| - 1], from, shorter);
        assert LastTurns(s, cs, g, f);
      } else {
        hide Turns, Has, Replay, LastTurns;
      }
    }
  }

  /** Whatever is there has come by a journey. */
  lemma {:induction false} JourneyExists(s: Store, cs: seq<Call>, f: Fact) returns (from: nat, trail: seq<Fact>)
    requires Has(Replay(s, cs).tables, f)
    ensures JourneyTo(s, cs, from, trail, f)
    decreases |cs|
  {
    if cs == [] {
      from, trail := 0, [f];
    } else {
      LastCall(s, cs, f);
      hide Has, Turns, Starts, Replay;
      if Starts(s, cs, |cs|, f) {
        from, trail := |cs|, [f];
      } else {
        var g :| LastTurns(s, cs, g, f);
        from, trail := JourneyExists(s, cs[..|cs| - 1], g);
        JourneyOn(s, cs, from, trail, f);
        trail := trail + [f];
      }
    }
  }

  /**
   After any calls, duplicates included, a fact is there exactly if it was there at the start or some
   call that takes effect added it, and every later call that takes effect carried it on, through
   renumbering, cascades and forced names, to what it is now.
   */
  lemma FactsOfHistory(s: Store, cs: seq<Call>, f: Fact)
    ensures Has(Replay(s, cs).tables, f) <==> exists from, trail :: JourneyTo(s, cs, from, trail, f)
  {
    hide Has, Replay;
    if Has(Replay(s, cs).tables, f) {
      var from, trail := JourneyExists(s, cs, f);
    }
    if from, trail :| JourneyTo(s, cs, from, trail, f) {
      JourneyArrives(s, cs, from, trail);
    }
  }
}
