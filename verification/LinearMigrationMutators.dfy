/**
 What a mutator of the map holds.  Between calls it keeps the value it has last seen in its cell:
 `getValue` returns it, `eraseValue` gives up at once when it is NULL, and the next
 compare-exchange compares with it.
 */
module LinearMigrationMutators {
  import opened Options
  import opened LinearMigration
  import opened LinearMigrationInvariant
  import opened LinearMigrationTheorems

  /** The value in the cell of a mutator. */
  ghost function CellValue(st: State, t: nat): nat
    requires Inv(st) && t < |st.threads| && (st.threads[t].Found? || st.threads[t].Holding?)
  {
    MutatorHasCell(st, t);
    st.mem.tables[st.threads[t].table][st.threads[t].cell].value
  }

  lemma MutatorHasCell(st: State, t: nat)
    requires Inv(st) && t < |st.threads| && (st.threads[t].Found? || st.threads[t].Holding?)
    ensures MutatorCell(st.mem, st.threads[t].table, st.threads[t].cell, st.threads[t].hash)
    ensures st.threads[t].hash != NULL && st.threads[t].table < |st.mem.tables| && st.threads[t].cell < |st.mem.tables[st.threads[t].table]|
    ensures st.threads[t].Holding? ==> st.threads[t].seen != REDIRECT
  {
    assert PcShape(st.mem, st.threads[t]);
  }

  /** As long as its cell is not redirected, the map's value is in the cell. */
  lemma CellIsMap(st: State, t: nat)
    requires Inv(st) && t < |st.threads| && (st.threads[t].Found? || st.threads[t].Holding?) && CellValue(st, t) != REDIRECT
    ensures Abs(st.mem, st.threads[t].hash) == CellValue(st, t)
  {
    var pc := st.threads[t];
    MutatorHasCell(st, t);
    LiveCellIsInRoot(st.mem, pc.table, pc.cell, pc.hash);
    assert Sources(st.mem)[0] == pc.table;
    LiveMaps(st.mem, 0, pc.cell, pc.hash);
    MapsIsAbs(st.mem, pc.hash, CellValue(st, t));
  }

  /** A compare-exchange writes exactly when the cell is not redirected and the map still has the value held. */
  lemma CasSucceedsIff(st: State, t: nat, desired: nat)
    requires Inv(st) && CanStep(st, t, Cas(desired))
    ensures WriteOf(st, t, Cas(desired)).Some? <==>
              CellValue(st, t) != REDIRECT && Abs(st.mem, st.threads[t].hash) == st.threads[t].seen
  {
    MutatorHasCell(st, t);
    if CellValue(st, t) != REDIRECT {
      CellIsMap(st, t);
    }
  }

  /** After a successful compare-exchange the mutator holds the new value, and the map has it. */
  lemma WinnerHoldsItsValue(st: State, t: nat, desired: nat)
    requires Inv(st) && CanStep(st, t, Cas(desired)) && WriteOf(st, t, Cas(desired)).Some?
    ensures var next := Step(st, t, Cas(desired));
            && Inv(next) && next.threads[t] == st.threads[t].(seen := desired)
            && Abs(next.mem, st.threads[t].hash) == desired
  {
    MutatorHasCell(st, t);
    StepIsAtomic(st, t, Cas(desired), st.threads[t].hash);
  }

  /**
   After a failed one the map is as it was; the mutator holds the map's value in the same cell, or
   has been redirected.
   */
  lemma LoserHoldsTheMap(st: State, t: nat, desired: nat)
    requires Inv(st) && CanStep(st, t, Cas(desired)) && WriteOf(st, t, Cas(desired)).None?
    ensures var next := Step(st, t, Cas(desired));
            && next.mem == st.mem
            && (if CellValue(st, t) == REDIRECT then next.threads[t].Idle?
                else next.threads[t] == st.threads[t].(seen := Abs(st.mem, st.threads[t].hash)))
            && (next.threads[t].Holding? ==> next.threads[t].seen != st.threads[t].seen)
  {
    MutatorHasCell(st, t);
    if CellValue(st, t) != REDIRECT {
      CellIsMap(st, t);
    }
  }

  /** A mutator that has loaded its value, or found the cell redirected. */
  lemma LoaderHoldsTheMap(st: State, t: nat)
    requires Inv(st) && CanStep(st, t, LoadValue)
    ensures var next := Step(st, t, LoadValue);
            && next.mem == st.mem
            && if CellValue(st, t) == REDIRECT then next.threads[t].Idle?
               else next.threads[t] == Holding(st.threads[t].table, st.threads[t].cell, st.threads[t].hash, Abs(st.mem, st.threads[t].hash))
  {
    MutatorHasCell(st, t);
    if CellValue(st, t) != REDIRECT {
      CellIsMap(st, t);
    }
  }

  /** A mutator that has reserved a cell holds NULL, which is the map's value unless the cell is redirected. */
  lemma ReserverHoldsNull(st: State, t: nat, i: nat)
    requires Inv(st) && CanStep(st, t, Reserve(i))
    ensures var next := Step(st, t, Reserve(i));
            && Inv(next) && next.threads[t] == Holding(st.threads[t].table, i, st.threads[t].hash, NULL)
            && (CellValue(next, t) != REDIRECT ==> Abs(next.mem, st.threads[t].hash) == NULL == Abs(st.mem, st.threads[t].hash))
  {
    var next := Step(st, t, Reserve(i));
    assert PcShape(st.mem, st.threads[t]);
    StepIsAtomic(st, t, Reserve(i), st.threads[t].hash);
    MutatorHasCell(next, t);
    if CellValue(next, t) != REDIRECT {
      CellIsMap(next, t);
      ReservedIsEmpty(st, t, i);
    }
  }

  /** A cell without a hash has no value, or is redirected. */
  lemma ReservedIsEmpty(st: State, t: nat, i: nat)
    requires Inv(st) && CanStep(st, t, Reserve(i))
    ensures st.mem.tables[st.threads[t].table][i].value == NULL || st.mem.tables[st.threads[t].table][i].value == REDIRECT
  {
    assert PcShape(st.mem, st.threads[t]) && TableOk(st.mem.tables[st.threads[t].table]);
  }

  // ---------------------------------------------------------------- races

  ghost predicate WritesTo(writes: seq<Write>, h: nat) {
    exists i :: 0 <= i < |writes| && writes[i].hash == h
  }

  /** Thread t takes no step of the run. */
  ghost predicate ByOthers(run: seq<(nat, Action)>, t: nat) {
    forall i :: 0 <= i < |run| ==> run[i].0 != t
  }

  lemma {:induction false} OthersDoNotMove(st: State, run: seq<(nat, Action)>, t: nat)
    requires Inv(st) && CanRun(st, run) && t < |st.threads| && ByOthers(run, t)
    ensures Inv(Final(st, run)) && t < |Final(st, run).threads| && Final(st, run).threads[t] == st.threads[t]
    decreases |run|
  {
    if run != [] {
      StepKeepsInv(st, run[0].0, run[0].1);
      OthersDoNotMove(Step(st, run[0].0, run[0].1), run[1..], t);
    }
  }

  lemma {:induction false} NoWriteNoChange(v: nat, h: nat, writes: seq<Write>)
    requires !WritesTo(writes, h)
    ensures Replay(v, h, writes) == v
    decreases |writes|
  {
    if writes != [] {
      assert writes[0].hash != h;
      forall i | 0 <= i < |writes[1..]| ensures writes[1..][i].hash != h {
        assert writes[1..][i] == writes[i + 1];
      }
      NoWriteNoChange(v, h, writes[1..]);
    }
  }

  /**
   A mutator that knew the map's value, and whose exchange fails after any steps of other threads
   without having been redirected, has lost to another thread's write of the same hash.
   */
  lemma {:induction false} LoserLostToAWrite(st: State, t: nat, run: seq<(nat, Action)>, desired: nat)
    requires Inv(st) && CanRun(st, run) && t < |st.threads| && ByOthers(run, t)
    requires st.threads[t].Holding? && Abs(st.mem, st.threads[t].hash) == st.threads[t].seen && desired != REDIRECT
    ensures Inv(Final(st, run)) && CanStep(Final(st, run), t, Cas(desired)) && Final(st, run).threads[t] == st.threads[t]
    ensures WriteOf(Final(st, run), t, Cas(desired)).None? && CellValue(Final(st, run), t) != REDIRECT ==>
              WritesTo(Writes(st, run), st.threads[t].hash)
  {
    var h, end := st.threads[t].hash, Final(st, run);
    MutatorHasCell(st, t);
    OthersDoNotMove(st, run, t);
    assert CanStep(end, t, Cas(desired)) by {
      MutatorHasCell(end, t);
      assert PcShape(end.mem, end.threads[t]);
    }
    RunIsAtomic(st, run, h);
    CasSucceedsIff(end, t, desired);
    hide Inv, CanRun, Final, Step, CanStep, Abs, Replay, Writes, WriteOf, WritesTo;
    if !WritesTo(Writes(st, run), h) {
      NoWriteNoChange(Abs(st.mem, h), h, Writes(st, run));
    }
  }

  // ---------------------------------------------------------------- readers

  /**
   A reader that loads the root for a hash, and later, after any steps of other threads, finds no
   cell for it, is right: the map had no value for that hash when it loaded the root.
   */
  lemma {:induction false} ReaderMissIsRight(st: State, t: nat, h: nat, run: seq<(nat, Action)>)
    requires Inv(st) && CanStep(st, t, LoadRoot(h)) && CanRun(Step(st, t, LoadRoot(h)), run)
    requires ByOthers(run, t)
    ensures var end := Final(Step(st, t, LoadRoot(h)), run);
            && t < |end.threads| && end.threads[t].Located? && end.threads[t].hash == h
            && (CanStep(end, t, Miss) ==> Abs(st.mem, h) == NULL)
  {
    var next := Step(st, t, LoadRoot(h));
    var all := [(t, LoadRoot(h))] + run;
    assert all[0] == (t, LoadRoot(h)) && all[1..] == run;
    assert CanRun(st, all) && Final(st, all) == Final(next, run);
    StepKeepsInv(st, t, LoadRoot(h));
    OthersDoNotMove(next, run, t);
    var end := Final(next, run);
    assert next.threads[t] == Located(st.mem.root, h);
    if CanStep(end, t, Miss) {
      MissIsRight(st, all, h);
    }
  }

  /**
   A reader that has found its cell loads the value, after any steps of other threads: unless the
   cell has been redirected, it then holds the map's value of its hash.
   */
  lemma {:induction false} ReaderReads(st: State, t: nat, i: nat, run: seq<(nat, Action)>)
    requires Inv(st) && CanStep(st, t, FindCell(i)) && CanRun(Step(st, t, FindCell(i)), run)
    requires ByOthers(run, t)
    ensures var end := Final(Step(st, t, FindCell(i)), run);
            && Inv(end) && CanStep(end, t, LoadValue)
            && (CellValue(end, t) != REDIRECT ==>
                  Step(end, t, LoadValue).threads[t] ==
                    Holding(st.threads[t].table, i, st.threads[t].hash, Abs(end.mem, st.threads[t].hash)))
  {
    var next := Step(st, t, FindCell(i));
    StepKeepsInv(st, t, FindCell(i));
    OthersDoNotMove(next, run, t);
    var end := Final(next, run);
    assert next.threads[t] == Found(st.threads[t].table, i, st.threads[t].hash);
    assert CanStep(end, t, LoadValue) by {
      assert PcShape(end.mem, end.threads[t]);
    }
    LoaderHoldsTheMap(end, t);
    hide Inv, CanRun, Final, Step, CanStep, Abs;
  }

  /** A thread that is not idle can always take a step. */
  lemma NeverStuck(st: State, t: nat) returns (a: Action)
    requires Inv(st) && t < |st.threads| && !st.threads[t].Idle?
    ensures CanStep(st, t, a)
  {
    var pc := st.threads[t];
    assert Shape(st.mem) && PcShape(st.mem, pc);
    a := NextAction(st.mem, pc);
    hide Inv;
    NextIsEnabled(st.mem, pc);
    hide Enabled, Shape, PcShape;
  }

  function NextAction(m: Memory, pc: PC): Action {
    match pc
    case Idle => Probe
    case Located(_, _) => Abandon
    case Found(_, _, _) => LoadValue
    case Holding(_, _, _, _) => Abandon
    case Probed(_, _) => Enter
    case Checking(_) => Check
    case Claiming(_) => Claim
    case AtCell(_, _, stage) => if stage.Inserting? then InsertOverflow else CellStep
    case UnitDone(_, _) => FinishUnit
    case GivingUp(_, _) => MarkOverflow
    case Ending => SetEnd
    case Leaving => Leave
    case Last => Conclude(if m.mig.Some? && m.mig.value.dest < |m.tables| then 2 * |m.tables[m.mig.value.dest]| else 0)
  }

  lemma NextIsEnabled(m: Memory, pc: PC)
    requires Shape(m) && PcShape(m, pc) && !pc.Idle?
    ensures Enabled(m, pc, NextAction(m, pc))
  {
    hide StageShape, UnitShape, MutatorCell, MutatorTable;
  }
}
