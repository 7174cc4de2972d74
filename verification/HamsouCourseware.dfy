/**
 The course table and the index of course names of the relational courseware under Hamsou.  It
 keeps two states, the current and the stable one, whose updates differ in one branch.
 */
module HamsouCourseware {
  datatype Kind = AddCourseForce | DeleteCourseCascade | UpdateCourseIDCascade | UpdateCourseNameForce | UpdateCourseOther | Other

  datatype Call = Call(kind: Kind, value1: int, value2: int, value3: int, value4: int)

  datatype CourseRow = CourseRow(courseName: int, semester: int, department: int)

  datatype Tables = Tables(courses: map<int, CourseRow>, index: map<int, int>)

  const EMPTY := Tables(map[], map[])

  function Unindex(t: Tables, cid: int): map<int, int> {
    if cid in t.courses && t.courses[cid].courseName in t.index && t.index[t.courses[cid].courseName] == cid
    then t.index - {t.courses[cid].courseName} else t.index
  }

  /** Another course that has the name according to the index is deleted; the index stays as it is. */
  function FreeName(t: Tables, name: int, cid: int): Tables {
    if name in t.index && t.index[name] != cid then t.(courses := t.courses - {t.index[name]}) else t
  }

  function AddCourse(t: Tables, c: Call): Tables {
    var u := FreeName(t, c.value2, c.value1);
    Tables(u.courses[c.value1 := CourseRow(c.value2, c.value3, c.value4)], Unindex(u, c.value1)[c.value2 := c.value1])
  }

  function DeleteCourse(t: Tables, cid: int): Tables {
    Tables(t.courses - {cid}, Unindex(t, cid))
  }

  function RenumberCourse(t: Tables, oldId: int, newId: int): Tables {
    if oldId in t.courses then
      Tables((t.courses - {oldId})[newId := t.courses[oldId]], t.index[t.courses[oldId].courseName := newId])
    else t
  }

  /** Renaming a course that does not exist: only the current state records the name. */
  function RenameCourse(t: Tables, cid: int, name: int, current: bool): Tables {
    var u := FreeName(t, name, cid);
    if cid in u.courses then
      Tables(u.courses[cid := u.courses[cid].(courseName := name)], Unindex(u, cid)[name := cid])
    else if current then u.(index := u.index[name := cid])
    else u
  }

  function Effect(t: Tables, c: Call, current: bool): Tables {
    if c.kind == AddCourseForce then AddCourse(t, c)
    else if c.kind == DeleteCourseCascade then DeleteCourse(t, c.value1)
    else if c.kind == UpdateCourseIDCascade then RenumberCourse(t, c.value1, c.value2)
    else if c.kind == UpdateCourseNameForce then RenameCourse(t, c.value1, c.value2, current)
    else if c.kind == UpdateCourseOther && c.value1 in t.courses then
      t.(courses := t.courses[c.value1 := t.courses[c.value1].(semester := c.value2, department := c.value3)])
    else t
  }

  ghost predicate NamesOk(t: Tables) {
    forall c :: c in t.courses ==> t.courses[c].courseName in t.index && t.index[t.courses[c].courseName] == c
  }

  lemma FreeNameKeeps(t: Tables, name: int, cid: int)
    requires NamesOk(t)
    ensures var u := FreeName(t, name, cid);
            NamesOk(u) && forall d :: d in u.courses && d != cid ==> u.courses[d].courseName != name
  {
  }

  lemma EffectKeepsNames(t: Tables, c: Call, current: bool)
    requires NamesOk(t)
    ensures NamesOk(Effect(t, c, current))
  {
    FreeNameKeeps(t, c.value2, c.value1);
    hide FreeName;
  }

  function Replay(t: Tables, cs: seq<Call>, current: bool): Tables
    decreases |cs|
  {
    if cs == [] then t else Effect(Replay(t, cs[..|cs| - 1], current), cs[|cs| - 1], current)
  }

  /** In either state, after any calls in any order, no two courses share a name. */
  lemma {:induction false} NamesStayUnique(cs: seq<Call>, current: bool, c: int, d: int)
    ensures var t := Replay(EMPTY, cs, current);
            NamesOk(t) && (c in t.courses && d in t.courses && t.courses[c].courseName == t.courses[d].courseName ==> c == d)
    decreases |cs|
  {
    if cs != [] {
      NamesStayUnique(cs[..|cs| - 1], current, c, d);
      EffectKeepsNames(Replay(EMPTY, cs[..|cs| - 1], current), cs[|cs| - 1], current);
      hide Effect;
    }
  }

  // ---------------------------------------------------------------- rows and names, one by one

  /** The call puts the name value2 on course value1. */
  predicate GivesName(c: Call) {
    c.kind == AddCourseForce || c.kind == UpdateCourseNameForce
  }

  /** The index leads to course id from a name that the call gives to another course. */
  predicate Displaced(t: Tables, c: Call, id: int) {
    GivesName(c) && id != c.value1 && c.value2 in t.index && t.index[c.value2] == id
  }

  /** Which courses there are after a call, and with what contents, on either state. */
  lemma RowAfter(t: Tables, c: Call, current: bool, id: int, row: CourseRow)
    ensures id in Effect(t, c, current).courses && Effect(t, c, current).courses[id] == row <==>
              if Displaced(t, c, id) || (c.kind == DeleteCourseCascade && id == c.value1) then false
              else if c.kind == AddCourseForce && id == c.value1 then row == CourseRow(c.value2, c.value3, c.value4)
              else if c.kind == UpdateCourseIDCascade && c.value1 in t.courses && id == c.value2 then row == t.courses[c.value1]
              else if c.kind == UpdateCourseIDCascade && id == c.value1 then false
              else if c.kind == UpdateCourseNameForce && id == c.value1 then
                id in t.courses && row == CourseRow(c.value2, t.courses[id].semester, t.courses[id].department)
              else if c.kind == UpdateCourseOther && id == c.value1 then
                id in t.courses && row == CourseRow(t.courses[id].courseName, c.value2, c.value3)
              else id in t.courses && t.courses[id] == row
  {
    hide Unindex;
  }

  /** Which names the index knows after a call, and where they lead. */
  lemma NameAfter(t: Tables, c: Call, current: bool, name: int, id: int)
    ensures name in Effect(t, c, current).index && Effect(t, c, current).index[name] == id <==>
              if name == c.value2 && (c.kind == AddCourseForce || (c.kind == UpdateCourseNameForce && (current || c.value1 in t.courses))) then
                id == c.value1
              else if c.kind == UpdateCourseIDCascade && c.value1 in t.courses && t.courses[c.value1].courseName == name then
                id == c.value2
              else
                && name in t.index && t.index[name] == id
                && !((GivesName(c) || c.kind == DeleteCourseCascade) && id == c.value1 && id in t.courses && t.courses[id].courseName == name)
  {
  }

  // ---------------------------------------------------------------- the two states

  /** The call renames no missing course, unless the index leads from the name to that course already. */
  predicate Harmless(t: Tables, c: Call) {
    c.kind == UpdateCourseNameForce && c.value1 !in FreeName(t, c.value2, c.value1).courses ==>
      c.value2 in t.index && t.index[c.value2] == c.value1
  }

  /** One call has the same effect on both states exactly when it is harmless. */
  lemma CallAgrees(t: Tables, c: Call)
    ensures Effect(t, c, true) == Effect(t, c, false) <==> Harmless(t, c)
  {
    if c.kind == UpdateCourseNameForce {
      var u := FreeName(t, c.value2, c.value1);
      assert u.index == t.index;
      if c.value1 !in u.courses {
        var named := t.index[c.value2 := c.value1];
        assert c.value2 in named && named[c.value2] == c.value1;
        assert c.value2 in t.index && t.index[c.value2] == c.value1 ==> named == t.index;
      }
    }
  }

  /** The two states are the same after every prefix of the calls. */
  ghost predicate StatesAgree(cs: seq<Call>) {
    forall k :: 0 <= k <= |cs| ==> Replay(EMPTY, cs[..k], true) == Replay(EMPTY, cs[..k], false)
  }

  ghost predicate AllHarmless(cs: seq<Call>) {
    forall i :: 0 <= i < |cs| ==> Harmless(Replay(EMPTY, cs[..i], false), cs[i])
  }

  lemma StatesAgreeOne(cs: seq<Call>)
    requires cs != []
    ensures var before := cs[..|cs| - 1];
            StatesAgree(cs) <==> StatesAgree(before) && Replay(EMPTY, cs, true) == Replay(EMPTY, cs, false)
  {
    var before := cs[..|cs| - 1];
    assert forall k :: 0 <= k <= |before| ==> before[..k] == cs[..k];
    assert cs[..|cs|] == cs;
    hide Replay;
  }

  lemma AllHarmlessOne(cs: seq<Call>)
    requires cs != []
    ensures var before := cs[..|cs| - 1];
            AllHarmless(cs) <==> AllHarmless(before) && Harmless(Replay(EMPTY, before, false), cs[|cs| - 1])
  {
    var before := cs[..|cs| - 1];
    assert forall k :: 0 <= k < |before| ==> before[..k] == cs[..k] && before[k] == cs[k];
    hide Replay, Harmless;
  }

  /** The states stay the same throughout the calls exactly when no call gives its name to a missing course. */
  lemma {:induction false} StatesAgreeIff(cs: seq<Call>)
    ensures StatesAgree(cs) <==> AllHarmless(cs)
    decreases |cs|
  {
    if cs != [] {
      var before, last := cs[..|cs| - 1], cs[|cs| - 1];
      StatesAgreeIff(before);
      StatesAgreeOne(cs);
      AllHarmlessOne(cs);
      CallAgrees(Replay(EMPTY, before, false), last);
      assert StatesAgree(before) ==> Replay(EMPTY, before, true) == Replay(EMPTY, before, false) by {
        assert before[..|before|] == before;
      }
      hide StatesAgree, AllHarmless, Harmless, Effect;
    }
  }

  /** They can come to differ in their courses: a name reserved in the current state only makes a later call delete a course there. */
  lemma StatesCanDiffer() returns (cs: seq<Call>)
    ensures 1 in Replay(EMPTY, cs, false).courses
    ensures 1 !in Replay(EMPTY, cs, true).courses
  {
    var c0 := Call(UpdateCourseNameForce, 1, 20, 0, 0);
    var c1 := Call(AddCourseForce, 1, 10, 0, 0);
    var c2 := Call(AddCourseForce, 2, 20, 0, 0);
    cs := [c0] + [c1] + [c2];
    forall current | current in {true, false} ensures Replay(EMPTY, cs, current) == Effect(Effect(Effect(EMPTY, c0, current), c1, current), c2, current) {
      assert cs[..2] == [c0] + [c1] && ([c0] + [c1])[..1] == [c0] && [c0][..0] == [];
      assert Replay(EMPTY, [c0], current) == Effect(EMPTY, c0, current);
    }
    assert Replay(EMPTY, cs, true) == Effect(Effect(Effect(EMPTY, c0, true), c1, true), c2, true);
    assert Replay(EMPTY, cs, false) == Effect(Effect(Effect(EMPTY, c0, false), c1, false), c2, false);
  }

  /** One of the two states. */
  class CourseTables {
    const current: bool
    var courses: map<int, CourseRow>
    var courseNameIndex: map<int, int>

    function View(): Tables
      reads this
    {
      Tables(courses, courseNameIndex)
    }

    constructor (current: bool)
      ensures View() == EMPTY && this.current == current
    {
      this.current := current;
      courses, courseNameIndex := map[], map[];
    }

    method Update(c: Call)
      modifies this
      ensures View() == Effect(old(View()), c, current)
      ensures NamesOk(old(View())) ==> NamesOk(View())
    {
      if NamesOk(View()) {
        EffectKeepsNames(View(), c, current);
      }
      hide NamesOk;
      if c.kind == AddCourseForce {
        DeleteNamesake(c.value2, c.value1);
        DropIndex(c.value1);
        courseNameIndex := courseNameIndex[c.value2 := c.value1];
        courses := courses[c.value1 := CourseRow(c.value2, c.value3, c.value4)];
      } else if c.kind == DeleteCourseCascade {
        DropIndex(c.value1);
        courses := courses - {c.value1};
      } else if c.kind == UpdateCourseIDCascade {
        if c.value1 in courses {
          var row := courses[c.value1];
          courses := courses - {c.value1};
          courses := courses[c.value2 := row];
          courseNameIndex := courseNameIndex[row.courseName := c.value2];
        }
      } else if c.kind == UpdateCourseNameForce {
        DeleteNamesake(c.value2, c.value1);
        if c.value1 in courses {
          DropIndex(c.value1);
          courses := courses[c.value1 := courses[c.value1].(courseName := c.value2)];
          courseNameIndex := courseNameIndex[c.value2 := c.value1];
        } else if current {
          courseNameIndex := courseNameIndex[c.value2 := c.value1];
        }
      } else if c.kind == UpdateCourseOther {
        if c.value1 in courses {
          courses := courses[c.value1 := courses[c.value1].(semester := c.value2, department := c.value3)];
        }
      }
    }

    method DeleteNamesake(name: int, cid: int)
      modifies this`courses
      ensures View() == FreeName(old(View()), name, cid)
    {
      if name in courseNameIndex && courseNameIndex[name] != cid {
        courses := courses - {courseNameIndex[name]};
      }
    }

    method DropIndex(cid: int)
      modifies this`courseNameIndex
      ensures courseNameIndex == Unindex(old(View()), cid)
    {
      if cid in courses {
        var oldName := courses[cid].courseName;
        if oldName in courseNameIndex && courseNameIndex[oldName] == cid {
          courseNameIndex := courseNameIndex - {oldName};
        }
      }
    }
  }
}
