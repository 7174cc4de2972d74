/**
 The replicated objects Set, Movie, Project and Courseware: their calls, the relation that
 orders calls, and the effect of a call on the stable and the current state.
 */
module HamsouCalls {
  datatype UseCase = SetCase | MovieCase | ProjectCase | CoursewareCase

  datatype Kind =
    | Add | Remove
    | AddMovie | DeleteMovie | AddCustomer | DeleteCustomer
    | AddProject | DeleteProject | AddEmployee | DeleteEmployee | WorksOn
    | AddCourse | DeleteCourse | AddStudent | DeleteStudent | Enroll
    | Read

  /** Calls are identified by their node and their number there. */
  datatype Key = Key(node: nat, id: nat)

  datatype Call = Call(kind: Kind, value1: int, value2: int, key: Key, clock: seq<int>)

  datatype AppState =
    | SetState(elements: set<int>)
    | MovieState(movies: set<int>, customers: set<int>)
    | ProjectState(projects: set<int>, employees: set<int>, works: set<(int, int)>)
    | CoursewareState(courses: set<int>, students: set<int>, enroll: set<(int, int)>)

  function Start(u: UseCase): AppState {
    match u
    case SetCase => SetState({})
    case MovieCase => MovieState({}, {})
    case ProjectCase => ProjectState({}, {}, {})
    case CoursewareCase => CoursewareState({}, {}, {})
  }

  /** s is a state of the object u. */
  predicate Fits(u: UseCase, s: AppState) {
    match u
    case SetCase => s.SetState?
    case MovieCase => s.MovieState?
    case ProjectCase => s.ProjectState?
    case CoursewareCase => s.CoursewareState?
  }

  /** fastisreachablelocal and fastisreachableremote, which these objects spell alike: a has to precede b. */
  predicate Reachable(u: UseCase, a: Call, b: Call) {
    match u
    case SetCase => a.kind == Add && b.kind == Remove
    case MovieCase =>
      || (a.kind == AddMovie && b.kind == DeleteMovie)
      || (a.kind == AddCustomer && b.kind == DeleteCustomer)
    case ProjectCase =>
      || (a.kind == AddEmployee && b.kind == DeleteEmployee)
      || (a.kind == AddProject && b.kind == DeleteProject)
      || (a.kind == WorksOn && (b.kind == DeleteEmployee || b.kind == DeleteProject))
    case CoursewareCase =>
      || (a.kind == AddCourse && b.kind == DeleteCourse)
      || (a.kind == AddStudent && b.kind == DeleteStudent)
      || (a.kind == Enroll && (b.kind == DeleteCourse || b.kind == DeleteStudent))
  }

  /** updateStableState. */
  function Update(s: AppState, c: Call): AppState {
    match s
    case SetState(elements) =>
      if c.kind == Add then SetState(elements + {c.value1})
      else if c.kind == Remove then SetState(elements - {c.value1})
      else s
    case MovieState(movies, customers) =>
      if c.kind == AddMovie then s.(movies := movies + {c.value1})
      else if c.kind == DeleteMovie then s.(movies := movies - {c.value1})
      else if c.kind == AddCustomer then s.(customers := customers + {c.value1})
      else if c.kind == DeleteCustomer then s.(customers := customers - {c.value1})
      else s
    case ProjectState(projects, employees, works) =>
      if c.kind == AddProject then s.(projects := projects + {c.value1})
      else if c.kind == DeleteProject then s.(projects := projects - {c.value1})
      else if c.kind == WorksOn then s.(works := works + {(c.value1, c.value2)})
      else if c.kind == AddEmployee then s.(employees := employees + {c.value1})
      else if c.kind == DeleteEmployee then s.(employees := employees - {c.value1})
      else s
    case CoursewareState(courses, students, enroll) =>
      if c.kind == AddCourse then s.(courses := courses + {c.value1})
      else if c.kind == DeleteCourse then s.(courses := courses - {c.value1})
      else if c.kind == Enroll then s.(enroll := enroll + {(c.value1, c.value2)})
      else if c.kind == AddStudent then s.(students := students + {c.value1})
      else if c.kind == DeleteStudent then s.(students := students - {c.value1})
      else s
  }

  /**
   updateCurrentState.  It agrees with updateStableState except that the courseware compares
   the call type with "Endroll", which no call has: the current state never sees an enrolment.
   */
  function UpdateCurrent(s: AppState, c: Call): AppState {
    if s.CoursewareState? && c.kind == Enroll then s else Update(s, c)
  }

  /** The calls of a list, applied in order. */
  function Replay(s: AppState, cs: seq<Call>): AppState
    decreases |cs|
  {
    if cs == [] then s else Replay(Update(s, cs[0]), cs[1..])
  }

  function ReplayCurrent(s: AppState, cs: seq<Call>): AppState
    decreases |cs|
  {
    if cs == [] then s else UpdateCurrent(ReplayCurrent(s, cs[..|cs| - 1]), cs[|cs| - 1])
  }

  lemma {:induction false} ReplayConcat(s: AppState, a: seq<Call>, b: seq<Call>)
    ensures Replay(s, a + b) == Replay(Replay(s, a), b)
    decreases |a|
  {
    if a == [] {
      assert a + b == b;
    } else {
      assert (a + b)[1..] == a[1..] + b;
      ReplayConcat(Update(s, a[0]), a[1..], b);
    }
  }

  lemma ReplayOne(s: AppState, a: seq<Call>, c: Call)
    ensures Replay(s, a + [c]) == Update(Replay(s, a), c)
  {
    ReplayConcat(s, a, [c]);
  }

  lemma {:induction false} ReplayFits(u: UseCase, s: AppState, cs: seq<Call>)
    requires Fits(u, s)
    ensures Fits(u, Replay(s, cs))
    decreases |cs|
  {
    if cs != [] {
      ReplayFits(u, Update(s, cs[0]), cs[1..]);
    }
  }

  // ---------------------------------------------------------------- vector clocks

  /** a <= b in every component of a. */
  ghost predicate Below(a: seq<int>, b: seq<int>)
    requires |a| <= |b|
  {
    forall i :: 0 <= i < |a| ==> a[i] <= b[i]
  }

  ghost predicate Above(a: seq<int>, b: seq<int>)
    requires |a| <= |b|
  {
    forall i :: 0 <= i < |a| ==> a[i] >= b[i]
  }

  /** compareVectorClocks: 0 before or equal, 2 after, 1 concurrent, -1 a longer than b. */
  ghost function Compare(a: seq<int>, b: seq<int>): int {
    if |a| > |b| then -1
    else if Below(a, b) then 0
    else if Above(a, b) then 2
    else 1
  }

  method CompareVectorClocks(vc1: seq<int>, vc2: seq<int>) returns (r: int)
    ensures r == -1 <==> |vc1| > |vc2|
    ensures r == 0 <==> |vc1| <= |vc2| && forall i :: 0 <= i < |vc1| ==> vc1[i] <= vc2[i]
    ensures r == 2 <==> |vc1| <= |vc2| && (forall i :: 0 <= i < |vc1| ==> vc1[i] >= vc2[i]) && exists i :: 0 <= i < |vc1| && vc1[i] > vc2[i]
    ensures r == 1 <==> |vc1| <= |vc2| && (exists i :: 0 <= i < |vc1| && vc1[i] < vc2[i]) && exists i :: 0 <= i < |vc1| && vc1[i] > vc2[i]
    ensures r == Compare(vc1, vc2)
  {
    var flag := false;
    for i := 0 to |vc1|
      invariant i <= |vc2|
      invariant flag <==> exists j :: 0 <= j < i && vc1[j] > vc2[j]
    {
      if i >= |vc2| {
        return -1;
      }
      if vc1[i] > vc2[i] {
        flag := true;
      }
    }
    if !flag {
      return 0;
    }
    flag := true;
    for i := 0 to |vc1|
      invariant flag <==> forall j :: 0 <= j < i ==> vc1[j] >= vc2[j]
    {
      if i >= |vc2| {
        return -1;
      }
      if vc1[i] < vc2[i] {
        flag := false;
      }
    }
    if flag {
      return 2;
    }
    return 1;
  }

  /** Clocks of the same length: the comparison is a partial order read from both sides. */
  lemma CompareBothWays(a: seq<int>, b: seq<int>)
    requires |a| == |b|
    ensures Compare(a, b) == 2 <==> Compare(b, a) == 0 && a != b
    ensures Compare(a, b) == 1 <==> Compare(b, a) == 1
    ensures Compare(a, b) == 0 && Compare(b, a) == 0 <==> a == b
  {
    if Below(a, b) && Below(b, a) {
      assert forall i :: 0 <= i < |a| ==> a[i] == b[i];
    }
    if Below(b, a) {
      assert Above(a, b);
    }
    if Above(a, b) {
      assert Below(b, a);
    }
    if Below(a, b) {
      assert Above(b, a);
    }
    if Above(b, a) {
      assert Below(a, b);
    }
  }

  lemma CompareSelf(a: seq<int>)
    ensures Compare(a, a) == 0
  {
  }
}
