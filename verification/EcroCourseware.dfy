/**
 The relational courseware object of ECRO: tables with cascading updates and a unique index of
 course names, rebuilt from a list of calls.
 */
module EcroCourseware {
  datatype Kind =
    | AddDepartment | DeleteDepartmentNoAction
    | AddStudentForce | DeleteStudentCascade | UpdateStudentIDCascade | UpdateStudentOther
    | AddInstructorForce | DeleteInstructorCascade | UpdateInstructorIDCascade | UpdateInstructorOther
    | AddCourseForce | DeleteCourseCascade | UpdateCourseIDCascade | UpdateCourseNameForce | UpdateCourseOther
    | Enroll | WithdrawEnrollment | Teach | WithdrawTeaching
    | Read

  datatype Call = Call(kind: Kind, value1: int, value2: int, value3: int, value4: int, nodeId: int, callId: int)

  datatype StudentRow = StudentRow(firstName: int, lastName: int)

  datatype InstructorRow = InstructorRow(firstName: int, lastName: int, department: int)

  datatype CourseRow = CourseRow(courseName: int, semester: int, department: int)

  /** enroll holds (course, student), teach (course, instructor). */
  datatype Tables = Tables(
    students: map<int, StudentRow>,
    instructors: map<int, InstructorRow>,
    courses: map<int, CourseRow>,
    departments: set<int>,
    enroll: set<(int, int)>,
    teach: set<(int, int)>,
    courseNameIndex: map<int, int>)

  const NO_TABLES := Tables(map[], map[], map[], {}, {}, {}, map[])

  // ---------------------------------------------------------------- the effect of a call

  function WithoutFirst(links: set<(int, int)>, id: int): set<(int, int)> {
    set p | p in links && p.0 != id
  }

  function WithoutSecond(links: set<(int, int)>, id: int): set<(int, int)> {
    set p | p in links && p.1 != id
  }

  function NewFirst(p: (int, int), oldId: int, newId: int): (int, int) {
    if p.0 == oldId then (newId, p.1) else p
  }

  function NewSecond(p: (int, int), oldId: int, newId: int): (int, int) {
    if p.1 == oldId then (p.0, newId) else p
  }

  function RenameFirst(links: set<(int, int)>, oldId: int, newId: int): set<(int, int)> {
    set p | p in links :: NewFirst(p, oldId, newId)
  }

  function RenameSecond(links: set<(int, int)>, oldId: int, newId: int): set<(int, int)> {
    set p | p in links :: NewSecond(p, oldId, newId)
  }

  /** Drops the index entry of a name if it leads to the given course. */
  function Unindex(index: map<int, int>, name: int, cid: int): map<int, int> {
    if name in index && index[name] == cid then index - {name} else index
  }

  function DeleteCourse(t: Tables, cid: int): Tables {
    t.(courseNameIndex := if cid in t.courses then Unindex(t.courseNameIndex, t.courses[cid].courseName, cid) else t.courseNameIndex,
       courses := t.courses - {cid},
       enroll := WithoutFirst(t.enroll, cid),
       teach := WithoutFirst(t.teach, cid))
  }

  /** The course that the index names for a name is deleted, unless it is the given one. */
  function FreeName(t: Tables, name: int, cid: int): Tables {
    if name in t.courseNameIndex && t.courseNameIndex[name] != cid then DeleteCourse(t, t.courseNameIndex[name]) else t
  }

  predicate Referenced(t: Tables, department: int) {
    || (exists i :: i in t.instructors && t.instructors[i].department == department)
    || (exists i :: i in t.courses && t.courses[i].department == department)
  }

  function DepartmentCall(t: Tables, c: Call): Tables {
    if c.kind == AddDepartment then t.(departments := t.departments + {c.value1})
    else if c.kind == DeleteDepartmentNoAction && !Referenced(t, c.value1) then t.(departments := t.departments - {c.value1})
    else t
  }

  function StudentCall(t: Tables, c: Call): Tables {
    if c.kind == AddStudentForce then t.(students := t.students[c.value1 := StudentRow(c.value2, c.value3)])
    else if c.kind == DeleteStudentCascade then
      t.(students := t.students - {c.value1}, enroll := WithoutSecond(t.enroll, c.value1))
    else if c.kind == UpdateStudentIDCascade then
      t.(students := if c.value1 in t.students then (t.students - {c.value1})[c.value2 := t.students[c.value1]] else t.students,
         enroll := RenameSecond(t.enroll, c.value1, c.value2))
    else if c.kind == UpdateStudentOther && c.value1 in t.students then
      t.(students := t.students[c.value1 := StudentRow(c.value2, c.value3)])
    else t
  }

  function InstructorCall(t: Tables, c: Call): Tables {
    if c.kind == AddInstructorForce then
      if c.value4 in t.departments then
        t.(instructors := t.instructors[c.value1 := InstructorRow(c.value2, c.value3, c.value4)])
      else t
    else if c.kind == DeleteInstructorCascade then
      t.(instructors := t.instructors - {c.value1}, teach := WithoutSecond(t.teach, c.value1))
    else if c.kind == UpdateInstructorIDCascade then
      t.(instructors := if c.value1 in t.instructors then (t.instructors - {c.value1})[c.value2 := t.instructors[c.value1]]
                        else t.instructors,
         teach := RenameSecond(t.teach, c.value1, c.value2))
    else if c.kind == UpdateInstructorOther && c.value1 in t.instructors then
      t.(instructors := t.instructors[c.value1 := InstructorRow(c.value2, c.value3, c.value4)])
    else t
  }

  function AddCourse(t: Tables, cid: int, name: int, semester: int, department: int): Tables {
    if department !in t.departments then t
    else
      var u := FreeName(t, name, cid);
      var index := if cid in u.courses then Unindex(u.courseNameIndex, u.courses[cid].courseName, cid) else u.courseNameIndex;
      u.(courseNameIndex := index[name := cid], courses := u.courses[cid := CourseRow(name, semester, department)])
  }

  function RenumberCourse(t: Tables, oldId: int, newId: int): Tables {
    var u := if oldId in t.courses then
               t.(courses := (t.courses - {oldId})[newId := t.courses[oldId]],
                  courseNameIndex := t.courseNameIndex[t.courses[oldId].courseName := newId])
             else t;
    u.(enroll := RenameFirst(t.enroll, oldId, newId), teach := RenameFirst(t.teach, oldId, newId))
  }

  function RenameCourse(t: Tables, cid: int, name: int): Tables {
    var u := FreeName(t, name, cid);
    if cid in u.courses then
      u.(courseNameIndex := Unindex(u.courseNameIndex, u.courses[cid].courseName, cid)[name := cid],
         courses := u.courses[cid := u.courses[cid].(courseName := name)])
    else u.(courseNameIndex := u.courseNameIndex[name := cid])
  }

  function CourseCall(t: Tables, c: Call): Tables {
    if c.kind == AddCourseForce then AddCourse(t, c.value1, c.value2, c.value3, c.value4)
    else if c.kind == DeleteCourseCascade then DeleteCourse(t, c.value1)
    else if c.kind == UpdateCourseIDCascade then RenumberCourse(t, c.value1, c.value2)
    else if c.kind == UpdateCourseNameForce then RenameCourse(t, c.value1, c.value2)
    else if c.kind == UpdateCourseOther && c.value1 in t.courses && c.value3 in t.departments then
      t.(courses := t.courses[c.value1 := t.courses[c.value1].(semester := c.value2, department := c.value3)])
    else t
  }

  function LinkCall(t: Tables, c: Call): Tables {
    if c.kind == Enroll && c.value1 in t.courses && c.value2 in t.students then t.(enroll := t.enroll + {(c.value1, c.value2)})
    else if c.kind == WithdrawEnrollment then t.(enroll := t.enroll - {(c.value1, c.value2)})
    else if c.kind == Teach && c.value1 in t.courses && c.value2 in t.instructors then t.(teach := t.teach + {(c.value1, c.value2)})
    else if c.kind == WithdrawTeaching then t.(teach := t.teach - {(c.value1, c.value2)})
    else t
  }

  predicate DepartmentKind(k: Kind) { k == AddDepartment || k == DeleteDepartmentNoAction }

  predicate StudentKind(k: Kind) {
    k == AddStudentForce || k == DeleteStudentCascade || k == UpdateStudentIDCascade || k == UpdateStudentOther
  }

  predicate InstructorKind(k: Kind) {
    k == AddInstructorForce || k == DeleteInstructorCascade || k == UpdateInstructorIDCascade || k == UpdateInstructorOther
  }

  predicate CourseKind(k: Kind) {
    || k == AddCourseForce || k == DeleteCourseCascade || k == UpdateCourseIDCascade
    || k == UpdateCourseNameForce || k == UpdateCourseOther
  }

  function Effect(t: Tables, c: Call): Tables {
    if DepartmentKind(c.kind) then DepartmentCall(t, c)
    else if StudentKind(c.kind) then StudentCall(t, c)
    else if InstructorKind(c.kind) then InstructorCall(t, c)
    else if CourseKind(c.kind) then CourseCall(t, c)
    else LinkCall(t, c)
  }

  // ---------------------------------------------------------------- integrity

  ghost predicate EnrollOk(t: Tables) {
    forall p :: p in t.enroll ==> p.0 in t.courses && p.1 in t.students
  }

  ghost predicate TeachOk(t: Tables) {
    forall p :: p in t.teach ==> p.0 in t.courses && p.1 in t.instructors
  }

  ghost predicate DepartmentsOk(t: Tables) {
    forall c :: c in t.courses ==> t.courses[c].department in t.departments
  }

  /** The index leads from the name of every course to the course; it may hold more. */
  ghost predicate NamesOk(t: Tables) {
    forall c :: c in t.courses ==> t.courses[c].courseName in t.courseNameIndex && t.courseNameIndex[t.courses[c].courseName] == c
  }

  ghost predicate Integrity(t: Tables) {
    EnrollOk(t) && TeachOk(t) && DepartmentsOk(t) && NamesOk(t)
  }

  lemma DeleteCourseKeeps(t: Tables, cid: int)
    requires Integrity(t)
    ensures Integrity(DeleteCourse(t, cid)) && cid !in DeleteCourse(t, cid).courses
    ensures DeleteCourse(t, cid).departments == t.departments
  {
  }

  lemma DepartmentCallKeeps(t: Tables, c: Call)
    requires Integrity(t)
    ensures Integrity(DepartmentCall(t, c))
  {
  }

  lemma StudentCallKeeps(t: Tables, c: Call)
    requires Integrity(t)
    ensures Integrity(StudentCall(t, c))
  {
  }

  lemma InstructorCallKeeps(t: Tables, c: Call)
    requires Integrity(t)
    ensures Integrity(InstructorCall(t, c))
  {
  }

  /** Afterwards no other course has the name. */
  lemma FreeNameKeeps(t: Tables, name: int, cid: int)
    requires Integrity(t)
    ensures var u := FreeName(t, name, cid);
            && Integrity(u) && u.departments == t.departments
            && (forall d :: d in u.courses && d != cid ==> u.courses[d].courseName != name)
  {
    if name in t.courseNameIndex && t.courseNameIndex[name] != cid {
      DeleteCourseKeeps(t, t.courseNameIndex[name]);
    }
  }

  lemma AddCourseKeeps(t: Tables, cid: int, name: int, semester: int, department: int)
    requires Integrity(t)
    ensures Integrity(AddCourse(t, cid, name, semester, department))
  {
    FreeNameKeeps(t, name, cid);
    hide FreeName;
  }

  lemma RenameCourseKeeps(t: Tables, cid: int, name: int)
    requires Integrity(t)
    ensures Integrity(RenameCourse(t, cid, name))
  {
    FreeNameKeeps(t, name, cid);
    hide FreeName;
  }

  lemma RenumberCourseKeeps(t: Tables, oldId: int, newId: int)
    requires Integrity(t)
    ensures Integrity(RenumberCourse(t, oldId, newId))
  {
    var u := RenumberCourse(t, oldId, newId);
    assert NamesOk(u);
    assert DepartmentsOk(u);
    forall q | q in u.enroll ensures q.0 in u.courses && q.1 in u.students {
      var p :| p in t.enroll && q == NewFirst(p, oldId, newId);
    }
    forall q | q in u.teach ensures q.0 in u.courses && q.1 in u.instructors {
      var p :| p in t.teach && q == NewFirst(p, oldId, newId);
    }
  }

  lemma CourseCallKeeps(t: Tables, c: Call)
    requires Integrity(t)
    ensures Integrity(CourseCall(t, c))
  {
    if c.kind == AddCourseForce {
      AddCourseKeeps(t, c.value1, c.value2, c.value3, c.value4);
    } else if c.kind == DeleteCourseCascade {
      DeleteCourseKeeps(t, c.value1);
    } else if c.kind == UpdateCourseIDCascade {
      RenumberCourseKeeps(t, c.value1, c.value2);
    } else if c.kind == UpdateCourseNameForce {
      RenameCourseKeeps(t, c.value1, c.value2);
    }
  }

  lemma LinkCallKeeps(t: Tables, c: Call)
    requires Integrity(t)
    ensures Integrity(LinkCall(t, c))
  {
  }

  lemma EffectKeepsIntegrity(t: Tables, c: Call)
    requires Integrity(t)
    ensures Integrity(Effect(t, c))
  {
    DepartmentCallKeeps(t, c);
    StudentCallKeeps(t, c);
    InstructorCallKeeps(t, c);
    CourseCallKeeps(t, c);
    LinkCallKeeps(t, c);
    hide Integrity, DepartmentCall, StudentCall, InstructorCall, CourseCall, LinkCall;
  }

  // ---------------------------------------------------------------- replaying lists of calls

  /** applied holds the (callId, nodeId) of the calls that were applied. */
  datatype Store = Store(tables: Tables, applied: set<(int, int)>)

  const EMPTY_STORE := Store(NO_TABLES, {})

  function Id(c: Call): (int, int) {
    (c.callId, c.nodeId)
  }

  function Apply(s: Store, c: Call): Store {
    if Id(c) in s.applied then s else Store(Effect(s.tables, c), s.applied + {Id(c)})
  }

  function Replay(s: Store, cs: seq<Call>): Store
    decreases |cs|
  {
    if cs == [] then s else Apply(Replay(s, cs[..|cs| - 1]), cs[|cs| - 1])
  }

  /** Whatever the order of the calls, and whether or not some occur twice, integrity holds. */
  lemma {:induction false} ReplayKeepsIntegrity(s: Store, cs: seq<Call>)
    requires Integrity(s.tables)
    ensures Integrity(Replay(s, cs).tables)
    decreases |cs|
  {
    if cs != [] {
      var before := Replay(s, cs[..|cs| - 1]);
      ReplayKeepsIntegrity(s, cs[..|cs| - 1]);
      EffectKeepsIntegrity(before.tables, cs[|cs| - 1]);
      hide Integrity, Effect;
    }
  }

  /** recomputeState starts from empty tables. */
  lemma RecomputedIsSound(order: seq<Call>, c: int, d: int)
    ensures var t := Replay(EMPTY_STORE, order).tables;
            && Integrity(t)
            && (c in t.courses && d in t.courses && t.courses[c].courseName == t.courses[d].courseName ==> c == d)
  {
    ReplayKeepsIntegrity(EMPTY_STORE, order);
  }

  lemma {:induction false} ReplayApplies(s: Store, cs: seq<Call>, i: nat)
    requires i < |cs|
    ensures Id(cs[i]) in Replay(s, cs).applied
    decreases |cs|
  {
    if i < |cs| - 1 {
      ReplayApplies(s, cs[..|cs| - 1], i);
    }
  }

  /** A call that occurs again has no effect. */
  lemma DuplicatesAreIgnored(s: Store, cs: seq<Call>, i: nat, c: Call)
    requires i < |cs| && Id(cs[i]) == Id(c)
    ensures Replay(s, cs + [c]) == Replay(s, cs)
  {
    ReplayApplies(s, cs, i);
    assert (cs + [c])[..|cs|] == cs;
  }

  /** setVars: n departments, students, instructors and courses; the source has n = 100. */
  function Prefilled(n: nat): Tables {
    if n == 0 then NO_TABLES
    else
      var t := Prefilled(n - 1);
      var i := n - 1;
      t.(departments := t.departments + {i},
         students := t.students[i := StudentRow(0, 0)],
         instructors := t.instructors[i := InstructorRow(0, 0, i)],
         courses := t.courses[i := CourseRow(i, 0, i)],
         courseNameIndex := t.courseNameIndex[i := i])
  }

  lemma {:induction false} PrefilledIntegrity(n: nat)
    ensures Integrity(Prefilled(n)) && Prefilled(n).enroll == Prefilled(n).teach == {}
    ensures forall i :: i in Prefilled(n).courses ==> 0 <= i < n && Prefilled(n).courses[i].courseName == i
  {
    if n > 0 {
      PrefilledIntegrity(n - 1);
    }
  }

  lemma PrefilledIsSound(n: nat, cs: seq<Call>)
    ensures Integrity(Replay(Store(Prefilled(n), {}), cs).tables)
  {
    PrefilledIntegrity(n);
    ReplayKeepsIntegrity(Store(Prefilled(n), {}), cs);
  }

  ghost predicate Departmentless(t: Tables) {
    t.departments == {} && t.courses == map[] && t.instructors == map[]
  }

  lemma EffectDepartmentless(t: Tables, c: Call)
    requires Departmentless(t) && c.kind != AddDepartment
    ensures Departmentless(Effect(t, c))
  {
    hide WithoutFirst, WithoutSecond, RenameFirst, RenameSecond;
    if CourseKind(c.kind) {
      CourseDepartmentless(t, c);
    }
    hide CourseCall;
  }

  lemma CourseDepartmentless(t: Tables, c: Call)
    requires Departmentless(t)
    ensures Departmentless(CourseCall(t, c))
  {
    hide WithoutFirst, RenameFirst;
    assert forall cid :: t.courses - {cid} == t.courses;
  }

  /** The i-th call takes effect: no call before it has its id. */
  ghost predicate TakesEffect(order: seq<Call>, i: nat)
    requires i < |order|
  {
    forall j :: 0 <= j < i ==> Id(order[j]) != Id(order[i])
  }

  lemma {:induction false} AppliedAre(s: Store, cs: seq<Call>, id: (int, int))
    ensures id in Replay(s, cs).applied <==> id in s.applied || exists i :: 0 <= i < |cs| && Id(cs[i]) == id
    decreases |cs|
  {
    if cs != [] {
      var before := cs[..|cs| - 1];
      AppliedAre(s, before, id);
      assert forall i :: 0 <= i < |before| ==> before[i] == cs[i];
      hide Effect;
    }
  }

  lemma LastTakesEffect(order: seq<Call>)
    requires order != []
    ensures TakesEffect(order, |order| - 1) <==> Id(order[|order| - 1]) !in Replay(EMPTY_STORE, order[..|order| - 1]).applied
  {
    var before := order[..|order| - 1];
    AppliedAre(EMPTY_STORE, before, Id(order[|order| - 1]));
    assert forall i :: 0 <= i < |before| ==> before[i] == order[i];
    hide Replay;
  }

  ghost predicate AddsDepartment(order: seq<Call>) {
    exists i: nat :: i < |order| && order[i].kind == AddDepartment && TakesEffect(order, i)
  }

  lemma AddsDepartmentOne(order: seq<Call>)
    requires order != []
    ensures AddsDepartment(order) <==>
              AddsDepartment(order[..|order| - 1]) || (order[|order| - 1].kind == AddDepartment && TakesEffect(order, |order| - 1))
  {
    var before := order[..|order| - 1];
    forall i: nat | i < |before| ensures TakesEffect(before, i) <==> TakesEffect(order, i) {
    }
    hide TakesEffect;
    if i: nat :| i < |before| && before[i].kind == AddDepartment && TakesEffect(before, i) {
      assert order[i] == before[i];
    }
    if i: nat :| i < |order| && order[i].kind == AddDepartment && TakesEffect(order, i) {
      assert i < |before| ==> before[i] == order[i];
    }
  }

  /** After no prefix of the order is there a department, a course or an instructor. */
  ghost predicate StaysDepartmentless(order: seq<Call>)
    decreases |order|
  {
    && Departmentless(Replay(EMPTY_STORE, order).tables)
    && (order != [] ==> StaysDepartmentless(order[..|order| - 1]))
  }

  lemma ApplyDepartmentless(s: Store, c: Call)
    requires Departmentless(s.tables)
    ensures Departmentless(Apply(s, c).tables) <==> c.kind != AddDepartment || Id(c) in s.applied
  {
    if c.kind == AddDepartment {
      assert c.value1 in Effect(s.tables, c).departments;
    } else {
      EffectDepartmentless(s.tables, c);
    }
    hide Effect;
  }

  /**
   recomputeState does not restore the tables that setVars filled in: there is neither a department
   nor a course nor an instructor exactly until a call that takes effect adds a department.
   */
  lemma {:induction false} RecomputeDropsTheBase(order: seq<Call>)
    ensures StaysDepartmentless(order) <==> !AddsDepartment(order)
    decreases |order|
  {
    if order != [] {
      var before, last := order[..|order| - 1], order[|order| - 1];
      var s := Replay(EMPTY_STORE, before);
      RecomputeDropsTheBase(before);
      AddsDepartmentOne(order);
      assert StaysDepartmentless(order) <==> StaysDepartmentless(before) && Departmentless(Replay(EMPTY_STORE, order).tables);
      assert StaysDepartmentless(before) ==> Departmentless(s.tables);
      LastTakesEffect(order);
      assert Replay(EMPTY_STORE, order) == Apply(s, last);
      hide AddsDepartment, StaysDepartmentless, TakesEffect, Departmentless, Apply, Replay;
      if Departmentless(s.tables) {
        ApplyDepartmentless(s, last);
      }
    } else {
      assert Departmentless(NO_TABLES);
    }
  }

  // ---------------------------------------------------------------- the base as calls

  /** The calls that would fill in department, student, instructor and course i, with ids of their own. */
  function RowCalls(i: nat): seq<Call> {
    [Call(AddDepartment, i, 0, 0, 0, -1, 4 * i),
     Call(AddStudentForce, i, 0, 0, 0, -1, 4 * i + 1),
     Call(AddInstructorForce, i, 0, 0, i, -1, 4 * i + 2),
     Call(AddCourseForce, i, i, 0, i, -1, 4 * i + 3)]
  }

  function BaseCalls(n: nat): seq<Call> {
    if n == 0 then [] else BaseCalls(n - 1) + RowCalls(n - 1)
  }

  lemma ReplayOne(s: Store, cs: seq<Call>, c: Call)
    ensures Replay(s, cs + [c]) == Apply(Replay(s, cs), c)
  {
    assert (cs + [c])[..|cs|] == cs;
  }

  lemma {:induction false} ReplayConcat(s: Store, a: seq<Call>, b: seq<Call>)
    ensures Replay(s, a + b) == Replay(Replay(s, a), b)
    decreases |b|
  {
    if b == [] {
      assert a + b == a;
    } else {
      assert (a + b)[..|a + b| - 1] == a + b[..|b| - 1];
      ReplayConcat(s, a, b[..|b| - 1]);
    }
  }

  lemma {:induction false} PrefilledRows(n: nat)
    ensures forall i :: i in Prefilled(n).courses ==> 0 <= i < n
    ensures forall i :: i in Prefilled(n).courseNameIndex ==> 0 <= i < n
  {
    if n > 0 {
      PrefilledRows(n - 1);
    }
  }

  lemma RowEffects(n: nat)
    ensures var t, cs := Prefilled(n), RowCalls(n);
            Prefilled(n + 1) == Effect(Effect(Effect(Effect(t, cs[0]), cs[1]), cs[2]), cs[3])
  {
    PrefilledRows(n);
  }

  /** The ids of the first m base calls, or some of them. */
  ghost predicate BaseIds(ids: set<(int, int)>, m: int) {
    forall id :: id in ids ==> id.1 == -1 && id.0 < m
  }

  ghost predicate BaseReplayed(n: nat) {
    Replay(EMPTY_STORE, BaseCalls(n)).tables == Prefilled(n) && BaseIds(Replay(EMPTY_STORE, BaseCalls(n)).applied, 4 * n)
  }

  /** The base tables are the replay of 4n calls of node -1. */
  lemma {:induction false} BaseIsReplay(n: nat)
    ensures BaseReplayed(n)
  {
    if n == 0 {
      assert Replay(EMPTY_STORE, []) == EMPTY_STORE;
    } else {
      BaseIsReplay(n - 1);
      NextRow(n - 1);
      hide BaseReplayed;
    }
  }

  lemma NextRow(n: nat)
    requires BaseReplayed(n)
    ensures BaseReplayed(n + 1)
  {
    var s := Replay(EMPTY_STORE, BaseCalls(n));
    assert BaseCalls(n + 1) == BaseCalls(n) + RowCalls(n);
    hide Replay, BaseCalls, RowCalls, Effect, Prefilled, BaseIds;
    RowEffects(n);
    ReplayConcat(EMPTY_STORE, BaseCalls(n), RowCalls(n));
    RowReplay(s, n);
  }

  lemma RowReplay(s: Store, i: nat)
    requires BaseIds(s.applied, 4 * i)
    ensures var cs, r := RowCalls(i), Replay(s, RowCalls(i));
            r.tables == Effect(Effect(Effect(Effect(s.tables, cs[0]), cs[1]), cs[2]), cs[3]) && BaseIds(r.applied, 4 * (i + 1))
  {
    var cs := RowCalls(i);
    assert cs == [] + [cs[0]] + [cs[1]] + [cs[2]] + [cs[3]];
    ReplayOne(s, [], cs[0]);
    ReplayOne(s, [] + [cs[0]], cs[1]);
    ReplayOne(s, [] + [cs[0]] + [cs[1]], cs[2]);
    ReplayOne(s, [] + [cs[0]] + [cs[1]] + [cs[2]], cs[3]);
    hide Effect;
  }

  /** Ids that no call of the list has do not matter. */
  lemma {:induction false} OtherIds(t: Tables, ids: set<(int, int)>, cs: seq<Call>)
    requires forall i :: 0 <= i < |cs| ==> Id(cs[i]) !in ids
    ensures Replay(Store(t, ids), cs).tables == Replay(Store(t, {}), cs).tables
    ensures Replay(Store(t, ids), cs).applied == Replay(Store(t, {}), cs).applied + ids
    decreases |cs|
  {
    if cs != [] {
      OtherIds(t, ids, cs[..|cs| - 1]);
      hide Effect;
    }
  }

  /**
   What a replica shows before it recomputes is the replay of the base calls and the applied ones;
   recomputeState replays the latter alone.  It loses the effects of exactly those 4n calls.
   */
  lemma PrefilledIsReplay(n: nat, order: seq<Call>)
    requires forall i :: 0 <= i < |order| ==> order[i].nodeId >= 0
    ensures Replay(Store(Prefilled(n), {}), order).tables == Replay(EMPTY_STORE, BaseCalls(n) + order).tables
  {
    var s := Replay(EMPTY_STORE, BaseCalls(n));
    BaseIsReplay(n);
    ReplayConcat(EMPTY_STORE, BaseCalls(n), order);
    assert forall i :: 0 <= i < |order| ==> Id(order[i]).1 >= 0;
    OtherIds(Prefilled(n), s.applied, order);
  }

  // ---------------------------------------------------------------- names that are freed

  /** The courses other than cid that have the name. */
  function Holders(t: Tables, name: int, cid: int): set<int> {
    set d | d in t.courses && d != cid && t.courses[d].courseName == name
  }

  /** The index leads from a name to another course that has a different name. */
  predicate Stale(t: Tables, name: int, cid: int) {
    && name in t.courseNameIndex && t.courseNameIndex[name] != cid
    && t.courseNameIndex[name] in t.courses && t.courses[t.courseNameIndex[name]].courseName != name
  }

  /** Forcing a name deletes exactly the other course that has it, unless the index entry is stale. */
  lemma ForceDeletesTheHolder(t: Tables, name: int, cid: int)
    requires Integrity(t)
    ensures FreeName(t, name, cid).courses == t.courses - Holders(t, name, cid) <==> !Stale(t, name, cid)
  {
    var holders := Holders(t, name, cid);
    assert forall d :: d in holders ==> name in t.courseNameIndex && t.courseNameIndex[name] == d;
    if Stale(t, name, cid) {
      var k := t.courseNameIndex[name];
      assert k in t.courses - holders;
    } else if name in t.courseNameIndex && t.courseNameIndex[name] != cid {
      var k := t.courseNameIndex[name];
      assert holders == if k in t.courses then {k} else {};
      assert t.courses - {k} == t.courses - holders;
    } else {
      assert holders == {};
      assert t.courses - holders == t.courses;
    }
  }

  /** A new course with a new name. */
  lemma AddFreshCourse(order: seq<Call>, cid: int, name: int, callId: int) returns (longer: seq<Call>)
    requires var s := Replay(EMPTY_STORE, order);
             && cid !in s.tables.courses && name !in s.tables.courseNameIndex && 0 in s.tables.departments
             && (callId, 0) !in s.applied
    ensures var s, r := Replay(EMPTY_STORE, order), Replay(EMPTY_STORE, longer);
            && r.applied == s.applied + {(callId, 0)}
            && r.tables == s.tables.(courses := s.tables.courses[cid := CourseRow(name, 0, 0)],
                                     courseNameIndex := s.tables.courseNameIndex[name := cid])
  {
    var c := Call(AddCourseForce, cid, name, 0, 0, 0, callId);
    longer := order + [c];
    ReplayNext(EMPTY_STORE, order, c, Replay(EMPTY_STORE, order));
  }

  lemma TwoCourses() returns (order: seq<Call>)
    ensures var s := Replay(EMPTY_STORE, order);
            && s.tables.courses == map[1 := CourseRow(10, 0, 0), 2 := CourseRow(20, 0, 0)]
            && s.tables.courseNameIndex == map[10 := 1, 20 := 2]
            && (3, 0) !in s.applied
  {
    var c0 := Call(AddDepartment, 0, 0, 0, 0, 0, 0);
    ReplayNext(EMPTY_STORE, [], c0, EMPTY_STORE);
    order := [c0];
    assert [] + [c0] == order;
    hide Replay;
    order := AddFreshCourse(order, 1, 10, 1);
    order := AddFreshCourse(order, 2, 20, 2);
  }

  /** Stale entries occur: course 1 takes over the number of course 2, whose name then still leads to it. */
  lemma StaleEntriesOccur() returns (order: seq<Call>)
    ensures Stale(Replay(EMPTY_STORE, order).tables, 20, 3)
  {
    var before := TwoCourses();
    var t := Replay(EMPTY_STORE, before).tables;
    var renumber := Call(UpdateCourseIDCascade, 1, 2, 0, 0, 0, 3);
    ReplayNext(EMPTY_STORE, before, renumber, Replay(EMPTY_STORE, before));
    order := before + [renumber];
    hide Replay;
    Renumbered(t);
  }

  lemma Renumbered(t: Tables)
    requires t.courses == map[1 := CourseRow(10, 0, 0), 2 := CourseRow(20, 0, 0)] && t.courseNameIndex == map[10 := 1, 20 := 2]
    ensures Stale(Effect(t, Call(UpdateCourseIDCascade, 1, 2, 0, 0, 0, 3)), 20, 3)
  {
    var u := RenumberCourse(t, 1, 2);
    assert u.courses[2] == CourseRow(10, 0, 0);
    assert u.courseNameIndex[20] == 2;
  }

  lemma ReplayNext(s: Store, cs: seq<Call>, c: Call, r: Store)
    requires Replay(s, cs) == r && Id(c) !in r.applied
    ensures Replay(s, cs + [c]) == Store(Effect(r.tables, c), r.applied + {Id(c)})
  {
    assert (cs + [c])[..|cs|] == cs;
  }

  // ---------------------------------------------------------------- the object

  /** Erasing links by their first or second component while walking through them. */
  method EraseLinks(links: set<(int, int)>, id: int, byFirst: bool) returns (kept: set<(int, int)>)
    ensures kept == if byFirst then WithoutFirst(links, id) else WithoutSecond(links, id)
  {
    kept := links;
    var todo := links;
    while todo != {}
      invariant todo <= links
      invariant kept == set p | p in links && (p in todo || (if byFirst then p.0 else p.1) != id)
      decreases |todo|
    {
      var p :| p in todo;
      todo := todo - {p};
      if (if byFirst then p.0 else p.1) == id {
        kept := kept - {p};
      }
    }
  }

  /** Copying links with one component renamed. */
  method RenameLinks(links: set<(int, int)>, oldId: int, newId: int, byFirst: bool) returns (renamed: set<(int, int)>)
    ensures renamed == if byFirst then RenameFirst(links, oldId, newId) else RenameSecond(links, oldId, newId)
  {
    renamed := {};
    var todo := links;
    while todo != {}
      invariant todo <= links
      invariant forall p :: p in links && p !in todo ==>
                  (if byFirst then NewFirst(p, oldId, newId) else NewSecond(p, oldId, newId)) in renamed
      invariant forall q :: q in renamed ==>
                  (exists p :: p in links && q == if byFirst then NewFirst(p, oldId, newId) else NewSecond(p, oldId, newId))
      decreases |todo|
    {
      var p :| p in todo;
      todo := todo - {p};
      renamed := renamed + {if byFirst then NewFirst(p, oldId, newId) else NewSecond(p, oldId, newId)};
    }
  }

  lemma HasElement(s: set<int>)
    ensures s != {} ==> exists i :: i in s
  {
    if forall i :: i !in s {
      assert s == {};
    }
  }

  class Courseware {
    var students: map<int, StudentRow>
    var instructors: map<int, InstructorRow>
    var courses: map<int, CourseRow>
    var departments: set<int>
    var enroll: set<(int, int)>
    var teach: set<(int, int)>
    var courseNameIndex: map<int, int>
    var applied: set<(int, int)>

    function View(): Tables
      reads this
    {
      Tables(students, instructors, courses, departments, enroll, teach, courseNameIndex)
    }

    function State(): Store
      reads this
    {
      Store(View(), applied)
    }

    constructor ()
      ensures State() == EMPTY_STORE
    {
      students, instructors, courses, departments := map[], map[], map[], {};
      enroll, teach, courseNameIndex, applied := {}, {}, map[], {};
    }

    method Clear()
      modifies this
      ensures State() == EMPTY_STORE
    {
      students, instructors, courses, departments := map[], map[], map[], {};
      enroll, teach, courseNameIndex, applied := {}, {}, map[], {};
    }

    method SetVars()
      modifies this
      ensures State() == Store(Prefilled(100), {}) && Integrity(View())
    {
      Clear();
      for i := 0 to 100
        invariant State() == Store(Prefilled(i), {})
      {
        departments := departments + {i};
        students := students[i := StudentRow(0, 0)];
        instructors := instructors[i := InstructorRow(0, 0, i)];
        courses := courses[i := CourseRow(i, 0, i)];
        courseNameIndex := courseNameIndex[i := i];
      }
      PrefilledIntegrity(100);
    }

    method IsReferenced(dept: int) returns (referenced: bool)
      ensures referenced == Referenced(View(), dept)
    {
      referenced := false;
      var todo: set<int> := instructors.Keys;
      while todo != {}
        invariant todo <= instructors.Keys && !referenced
        invariant forall i :: i in instructors && i !in todo ==> instructors[i].department != dept
        decreases |todo|
      {
        HasElement(todo);
        var i :| i in todo;
        todo := todo - {i};
        if instructors[i].department == dept {
          return true;
        }
      }
      todo := courses.Keys;
      while todo != {}
        invariant todo <= courses.Keys && !referenced
        invariant forall i :: i in courses && i !in todo ==> courses[i].department != dept
        decreases |todo|
      {
        HasElement(todo);
        var i :| i in todo;
        todo := todo - {i};
        if courses[i].department == dept {
          return true;
        }
      }
    }

    method ApplyDepartmentCall(c: Call)
      requires DepartmentKind(c.kind)
      modifies this
      ensures View() == DepartmentCall(old(View()), c) && applied == old(applied)
    {
      if c.kind == AddDepartment {
        departments := departments + {c.value1};
      } else {
        var dept := c.value1;
        if dept in departments {
          var referenced := IsReferenced(dept);
          if !referenced {
            departments := departments - {dept};
          }
        } else {
          assert departments - {dept} == departments;
        }
      }
    }

    method ApplyStudentCall(c: Call)
      requires StudentKind(c.kind)
      modifies this
      ensures View() == StudentCall(old(View()), c) && applied == old(applied)
    {
      hide WithoutSecond, RenameSecond;
      if c.kind == AddStudentForce {
        students := students[c.value1 := StudentRow(c.value2, c.value3)];
      } else if c.kind == DeleteStudentCascade {
        students := students - {c.value1};
        enroll := EraseLinks(enroll, c.value1, false);
      } else if c.kind == UpdateStudentIDCascade {
        if c.value1 in students {
          var row := students[c.value1];
          students := students - {c.value1};
          students := students[c.value2 := row];
        }
        enroll := RenameLinks(enroll, c.value1, c.value2, false);
      } else if c.value1 in students {
        students := students[c.value1 := StudentRow(c.value2, c.value3)];
      }
    }

    method ApplyInstructorCall(c: Call)
      requires InstructorKind(c.kind)
      modifies this
      ensures View() == InstructorCall(old(View()), c) && applied == old(applied)
    {
      hide WithoutSecond, RenameSecond;
      if c.kind == AddInstructorForce {
        if c.value4 in departments {
          instructors := instructors[c.value1 := InstructorRow(c.value2, c.value3, c.value4)];
        }
      } else if c.kind == DeleteInstructorCascade {
        instructors := instructors - {c.value1};
        teach := EraseLinks(teach, c.value1, false);
      } else if c.kind == UpdateInstructorIDCascade {
        if c.value1 in instructors {
          var row := instructors[c.value1];
          instructors := instructors - {c.value1};
          instructors := instructors[c.value2 := row];
        }
        teach := RenameLinks(teach, c.value1, c.value2, false);
      } else if c.value1 in instructors {
        instructors := instructors[c.value1 := InstructorRow(c.value2, c.value3, c.value4)];
      }
    }

    method DeleteCourseCascadeLocal(cid: int)
      modifies this
      ensures View() == DeleteCourse(old(View()), cid) && applied == old(applied)
    {
      hide WithoutFirst;
      if cid in courses {
        var cname := courses[cid].courseName;
        if cname in courseNameIndex && courseNameIndex[cname] == cid {
          courseNameIndex := courseNameIndex - {cname};
        }
        courses := courses - {cid};
      } else {
        assert courses - {cid} == courses;
      }
      enroll := EraseLinks(enroll, cid, true);
      teach := EraseLinks(teach, cid, true);
    }

    /** Another course that has the name, according to the index, is deleted. */
    method DeleteNamesake(name: int, cid: int)
      modifies this
      ensures View() == FreeName(old(View()), name, cid) && applied == old(applied)
    {
      hide DeleteCourse;
      if name in courseNameIndex && courseNameIndex[name] != cid {
        var oldCid := courseNameIndex[name];
        DeleteCourseCascadeLocal(oldCid);
      }
    }

    method ApplyAddCourse(cid: int, cname: int, sem: int, dept: int)
      modifies this
      ensures View() == AddCourse(old(View()), cid, cname, sem, dept) && applied == old(applied)
    {
      hide FreeName;
      if dept in departments {
        DeleteNamesake(cname, cid);
        if cid in courses {
          var oldName := courses[cid].courseName;
          if oldName in courseNameIndex && courseNameIndex[oldName] == cid {
            courseNameIndex := courseNameIndex - {oldName};
          }
        }
        courseNameIndex := courseNameIndex[cname := cid];
        courses := courses[cid := CourseRow(cname, sem, dept)];
      }
    }

    method ApplyRenumberCourse(oldId: int, newId: int)
      modifies this
      ensures View() == RenumberCourse(old(View()), oldId, newId) && applied == old(applied)
    {
      hide RenameFirst;
      if oldId in courses {
        var row := courses[oldId];
        courses := courses - {oldId};
        courses := courses[newId := row];
        courseNameIndex := courseNameIndex[row.courseName := newId];
      }
      enroll := RenameLinks(enroll, oldId, newId, true);
      teach := RenameLinks(teach, oldId, newId, true);
    }

    method ApplyRenameCourse(cid: int, newName: int)
      modifies this
      ensures View() == RenameCourse(old(View()), cid, newName) && applied == old(applied)
    {
      hide FreeName;
      DeleteNamesake(newName, cid);
      if cid in courses {
        var oldName := courses[cid].courseName;
        if oldName in courseNameIndex && courseNameIndex[oldName] == cid {
          courseNameIndex := courseNameIndex - {oldName};
        }
        courses := courses[cid := courses[cid].(courseName := newName)];
        courseNameIndex := courseNameIndex[newName := cid];
      } else {
        courseNameIndex := courseNameIndex[newName := cid];
      }
    }

    method ApplyCourseCall(c: Call)
      requires CourseKind(c.kind)
      modifies this
      ensures View() == CourseCall(old(View()), c) && applied == old(applied)
    {
      hide AddCourse, DeleteCourse, RenumberCourse, RenameCourse;
      if c.kind == AddCourseForce {
        ApplyAddCourse(c.value1, c.value2, c.value3, c.value4);
      } else if c.kind == DeleteCourseCascade {
        DeleteCourseCascadeLocal(c.value1);
      } else if c.kind == UpdateCourseIDCascade {
        ApplyRenumberCourse(c.value1, c.value2);
      } else if c.kind == UpdateCourseNameForce {
        ApplyRenameCourse(c.value1, c.value2);
      } else if c.value1 in courses && c.value3 in departments {
        courses := courses[c.value1 := courses[c.value1].(semester := c.value2, department := c.value3)];
      }
    }

    method ApplyLinkCall(c: Call)
      modifies this
      ensures View() == LinkCall(old(View()), c) && applied == old(applied)
    {
      if c.kind == Enroll {
        if c.value1 in courses && c.value2 in students {
          enroll := enroll + {(c.value1, c.value2)};
        }
      } else if c.kind == WithdrawEnrollment {
        enroll := enroll - {(c.value1, c.value2)};
      } else if c.kind == Teach {
        if c.value1 in courses && c.value2 in instructors {
          teach := teach + {(c.value1, c.value2)};
        }
      } else if c.kind == WithdrawTeaching {
        teach := teach - {(c.value1, c.value2)};
      }
    }

    method ApplyCall(c: Call)
      modifies this
      ensures State() == Apply(old(State()), c)
      ensures Integrity(old(View())) ==> Integrity(View())
    {
      EffectKeeps(View(), c);
      hide DepartmentCall, StudentCall, InstructorCall, CourseCall, LinkCall, Integrity;
      if Id(c) in applied {
        return;
      }
      if DepartmentKind(c.kind) {
        ApplyDepartmentCall(c);
      } else if StudentKind(c.kind) {
        ApplyStudentCall(c);
      } else if InstructorKind(c.kind) {
        ApplyInstructorCall(c);
      } else if CourseKind(c.kind) {
        ApplyCourseCall(c);
      } else {
        ApplyLinkCall(c);
      }
      applied := applied + {Id(c)};
    }

    /** Rebuilds the tables from scratch. */
    method RecomputeState(order: seq<Call>)
      modifies this
      ensures State() == Replay(EMPTY_STORE, order) && Integrity(View())
    {
      hide Apply, Integrity;
      Clear();
      for i := 0 to |order|
        invariant State() == Replay(EMPTY_STORE, order[..i])
      {
        assert order[..i + 1][..i] == order[..i];
        ApplyCall(order[i]);
      }
      assert order[..|order|] == order;
      RecomputedIsSound(order, 0, 0);
    }
  }

  lemma EffectKeeps(t: Tables, c: Call)
    ensures Integrity(t) ==> Integrity(Effect(t, c))
  {
    if Integrity(t) {
      EffectKeepsIntegrity(t, c);
    }
  }
}
