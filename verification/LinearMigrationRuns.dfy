/**
 Two runs of one thread from a new map, step by step: a migration that succeeds, and one that
 overflows and starts over.  What is proved of migrations is not about nothing.
 */
module LinearMigrationRuns {
  import opened Options
  import opened LinearMigration
  import opened LinearMigrationTheorems

  ghost predicate Goes(m: Memory, pc: PC, a: Action, m': Memory, pc': PC) {
    && CanStep(State(m, [pc]), 0, a)
    && Step(State(m, [pc]), 0, a) == State(m', [pc'])
  }

  const SOURCE: Table := [Cell(5, 7)]
  const REDIRECTED: Table := [Cell(5, REDIRECT)]
  const FRESH: Table := [Cell(NULL, NULL), Cell(NULL, NULL)]
  const RESERVED: Table := [Cell(NULL, NULL), Cell(5, NULL)]
  const COPIED: Table := [Cell(NULL, NULL), Cell(5, 7)]

  function Migrating(source: Table, dest: Table, index: nat, status: nat, overflowed: bool, done: set<Unit>, failed: set<Unit>): Memory {
    Memory([source, dest], 0, Some(Migration([0], 1, [index], status, overflowed, 1 - |done|, done, failed)), 1)
  }

  const U: Unit := Unit(0, 0)
  const BEGUN := Migrating(SOURCE, FRESH, 0, 0, false, {}, {})
  const ENTERED := Migrating(SOURCE, FRESH, 0, 2, false, {}, {})
  const CLAIMED := Migrating(SOURCE, FRESH, 32, 2, false, {}, {})
  const INSERTED := Migrating(SOURCE, RESERVED, 32, 2, false, {}, {})
  const STORED := Migrating(SOURCE, COPIED, 32, 2, false, {}, {})
  const MOVED := Migrating(REDIRECTED, COPIED, 32, 2, false, {}, {})
  const FINISHED := Migrating(REDIRECTED, COPIED, 32, 2, false, {U}, {})
  const ENDED := Migrating(REDIRECTED, COPIED, 32, 3, false, {U}, {})
  const LEFT := Migrating(REDIRECTED, COPIED, 32, 1, false, {U}, {})
  const DONE := Memory([REDIRECTED, COPIED], 1, None, 1)
  const GAVEUP := Migrating(SOURCE, FRESH, 32, 2, true, {}, {U})
  const ENDEDUP := Migrating(SOURCE, FRESH, 32, 3, true, {}, {U})
  const LEFTUP := Migrating(SOURCE, FRESH, 32, 1, true, {}, {U})
  const AGAIN := Memory([SOURCE, FRESH, EmptyTable(4)], 0, Some(Migration([0, 1], 2, [0, 0], 0, false, 2, {}, {})), 2)

  lemma GoesBy(m: Memory, pc: PC, a: Action, m': Memory, pc': PC)
    requires Shape(m) && PcShape(m, pc) && Enabled(m, pc, a) && Effect(m, pc, a).1 == pc'
    requires var n := Effect(m, pc, a).0; n.tables == m'.tables && n.root == m'.root && n.mig == m'.mig && n.gen == m'.gen
    ensures Goes(m, pc, a, m', pc')
  {
    hide Shape, PcShape, Enabled, Effect;
    assert [pc][0 := Effect(m, pc, a).1] == [pc'];
  }

  const EMPTY := Memory([[Cell(NULL, NULL)]], 0, None, 0)
  const HELD := Memory([[Cell(5, NULL)]], 0, None, 0)
  const FULL := Memory([SOURCE], 0, None, 0)

  /** A write into a new map. */
  lemma WriterReserves()
    ensures Goes(EMPTY, Idle, LoadRoot(5), EMPTY, Located(0, 5))
    ensures Goes(EMPTY, Located(0, 5), Reserve(0), HELD, Holding(0, 0, 5, NULL))
  {
    GoesBy(EMPTY, Idle, LoadRoot(5), EMPTY, Located(0, 5));
    assert [Cell(NULL, NULL)][0 := Cell(5, NULL)] == [Cell(5, NULL)];
    assert EMPTY.tables[0 := [Cell(5, NULL)]] == HELD.tables;
    GoesBy(EMPTY, Located(0, 5), Reserve(0), HELD, Holding(0, 0, 5, NULL));
  }

  lemma WriterWrites()
    ensures Goes(HELD, Holding(0, 0, 5, NULL), Cas(7), FULL, Holding(0, 0, 5, 7))
    ensures Goes(FULL, Holding(0, 0, 5, 7), Abandon, FULL, Idle)
    ensures Goes(FULL, Idle, LoadRoot(6), FULL, Located(0, 6))
  {
    assert [Cell(5, NULL)][0 := Cell(5, 7)] == SOURCE;
    assert HELD.tables[0 := SOURCE] == FULL.tables;
    GoesBy(HELD, Holding(0, 0, 5, NULL), Cas(7), FULL, Holding(0, 0, 5, 7));
    GoesBy(FULL, Holding(0, 0, 5, 7), Abandon, FULL, Idle);
    GoesBy(FULL, Idle, LoadRoot(6), FULL, Located(0, 6));
  }

  lemma MigrationBegins()
    ensures Goes(FULL, Located(0, 6), Begin(2), BEGUN, Idle)
  {
    assert EmptyTable(2) == FRESH;
    assert FULL.tables + [FRESH] == BEGUN.tables;
    GoesBy(FULL, Located(0, 6), Begin(2), BEGUN, Idle);
  }

  lemma WorkerEnters()
    ensures Goes(BEGUN, Idle, Probe, BEGUN, Probed(1, 0))
    ensures Goes(BEGUN, Probed(1, 0), Enter, ENTERED, Checking(0))
  {
    GoesBy(BEGUN, Idle, Probe, BEGUN, Probed(1, 0));
    GoesBy(BEGUN, Probed(1, 0), Enter, ENTERED, Checking(0));
  }

  lemma WorkerClaims()
    ensures Goes(ENTERED, Checking(0), Check, ENTERED, Claiming(0))
    ensures Goes(ENTERED, Claiming(0), Claim, CLAIMED, AtCell(0, 0, ReadHash))
  {
    GoesBy(ENTERED, Checking(0), Check, ENTERED, Claiming(0));
    assert [0][0 := 0 + UNIT_SIZE] == [32];
    GoesBy(ENTERED, Claiming(0), Claim, CLAIMED, AtCell(0, 0, ReadHash));
  }

  lemma CellIsRead()
    ensures Goes(CLAIMED, AtCell(0, 0, ReadHash), CellStep, CLAIMED, AtCell(0, 0, ReadValue(5)))
    ensures Goes(CLAIMED, AtCell(0, 0, ReadValue(5)), CellStep, CLAIMED, AtCell(0, 0, Inserting(5, 7)))
  {
    GoesBy(CLAIMED, AtCell(0, 0, ReadHash), CellStep, CLAIMED, AtCell(0, 0, ReadValue(5)));
    GoesBy(CLAIMED, AtCell(0, 0, ReadValue(5)), CellStep, CLAIMED, AtCell(0, 0, Inserting(5, 7)));
  }

  lemma CellIsCopied()
    ensures Goes(CLAIMED, AtCell(0, 0, Inserting(5, 7)), InsertNew(1), INSERTED, AtCell(0, 0, Storing(5, 7, 1)))
    ensures Goes(INSERTED, AtCell(0, 0, Storing(5, 7, 1)), CellStep, STORED, AtCell(0, 0, Redirecting(5, 7, 1)))
  {
    assert FRESH[1 := Cell(5, NULL)] == RESERVED && RESERVED[1 := Cell(5, 7)] == COPIED;
    assert [SOURCE, FRESH][1 := RESERVED] == [SOURCE, RESERVED] && [SOURCE, RESERVED][1 := COPIED] == [SOURCE, COPIED];
    GoesBy(CLAIMED, AtCell(0, 0, Inserting(5, 7)), InsertNew(1), INSERTED, AtCell(0, 0, Storing(5, 7, 1)));
    GoesBy(INSERTED, AtCell(0, 0, Storing(5, 7, 1)), CellStep, STORED, AtCell(0, 0, Redirecting(5, 7, 1)));
  }

  lemma CellIsRedirected()
    ensures Goes(STORED, AtCell(0, 0, Redirecting(5, 7, 1)), CellStep, MOVED, UnitDone(0, 0))
  {
    assert SOURCE[0 := Cell(5, REDIRECT)] == REDIRECTED;
    assert [SOURCE, COPIED][0 := REDIRECTED] == [REDIRECTED, COPIED];
    GoesBy(STORED, AtCell(0, 0, Redirecting(5, 7, 1)), CellStep, MOVED, UnitDone(0, 0));
  }

  lemma UnitIsFinished()
    ensures Goes(MOVED, UnitDone(0, 0), FinishUnit, FINISHED, Ending)
    ensures Goes(FINISHED, Ending, SetEnd, ENDED, Leaving)
  {
    assert {} + {U} == {U} && |{U}| == 1;
    GoesBy(MOVED, UnitDone(0, 0), FinishUnit, FINISHED, Ending);
    GoesBy(FINISHED, Ending, SetEnd, ENDED, Leaving);
  }

  lemma WorkerLeaves()
    ensures Goes(ENDED, Leaving, Leave, LEFT, Last)
    ensures Goes(LEFT, Last, Conclude(4), DONE, Idle)
  {
    GoesBy(ENDED, Leaving, Leave, LEFT, Last);
    GoesBy(LEFT, Last, Conclude(4), DONE, Idle);
  }

  lemma WorkerGivesUp()
    ensures Goes(CLAIMED, AtCell(0, 0, Inserting(5, 7)), InsertOverflow, CLAIMED, GivingUp(0, 0))
    ensures Goes(CLAIMED, GivingUp(0, 0), MarkOverflow, GAVEUP, Ending)
  {
    GoesBy(CLAIMED, AtCell(0, 0, Inserting(5, 7)), InsertOverflow, CLAIMED, GivingUp(0, 0));
    assert {} + {U} == {U};
    GoesBy(CLAIMED, GivingUp(0, 0), MarkOverflow, GAVEUP, Ending);
  }

  lemma OverflowEnds()
    ensures Goes(GAVEUP, Ending, SetEnd, ENDEDUP, Leaving)
    ensures Goes(ENDEDUP, Leaving, Leave, LEFTUP, Last)
  {
    GoesBy(GAVEUP, Ending, SetEnd, ENDEDUP, Leaving);
    GoesBy(ENDEDUP, Leaving, Leave, LEFTUP, Last);
  }

  lemma MigrationStartsOver()
    ensures Goes(LEFTUP, Last, Conclude(4), AGAIN, Idle)
  {
    assert [0] + [1] == [0, 1] && seq(2, _ => 0) == [0, 0];
    TwoUnits();
    hide SumUnits;
    GoesBy(LEFTUP, Last, Conclude(4), AGAIN, Idle);
  }

  lemma TwoUnits()
    ensures SumUnits([SOURCE, FRESH], [0, 1]) == 2
  {
    var tables := [SOURCE, FRESH];
    assert [0, 1][..1] == [0] && [0][..0] == [];
    assert SumUnits(tables, []) == 0;
    assert SumUnits(tables, [0]) == 0 + NumUnits(1);
    assert SumUnits(tables, [0, 1]) == 1 + NumUnits(2);
  }

  /** One more step of the only thread at the end of a run. */
  lemma {:induction false} Extend(st: State, run: seq<(nat, Action)>, m: Memory, pc: PC, a: Action, m': Memory, pc': PC)
    returns (longer: seq<(nat, Action)>)
    requires CanRun(st, run) && Final(st, run) == State(m, [pc]) && Goes(m, pc, a, m', pc')
    ensures CanRun(st, longer) && Final(st, longer) == State(m', [pc'])
    ensures longer == run + [(0, a)]
    decreases |run|
  {
    longer := run + [(0, a)];
    if run != [] {
      var rest := Extend(Step(st, run[0].0, run[0].1), run[1..], m, pc, a, m', pc');
      assert longer[1..] == rest;
    } else {
      assert longer[1..] == [];
    }
  }

  const NEW := State(EMPTY, [Idle])

  lemma ToInserting() returns (run: seq<(nat, Action)>)
    ensures CanRun(NEW, run) && Final(NEW, run) == State(CLAIMED, [AtCell(0, 0, Inserting(5, 7))])
  {
    run := [];
    assert CanRun(NEW, run) && Final(NEW, run) == State(EMPTY, [Idle]);
    WriterReserves();
    WriterWrites();
    MigrationBegins();
    WorkerEnters();
    WorkerClaims();
    CellIsRead();
    hide Goes, CanRun, Final, Migrating;
    run := Extend(NEW, run, EMPTY, Idle, LoadRoot(5), EMPTY, Located(0, 5));
    run := Extend(NEW, run, EMPTY, Located(0, 5), Reserve(0), HELD, Holding(0, 0, 5, NULL));
    run := Extend(NEW, run, HELD, Holding(0, 0, 5, NULL), Cas(7), FULL, Holding(0, 0, 5, 7));
    run := Extend(NEW, run, FULL, Holding(0, 0, 5, 7), Abandon, FULL, Idle);
    run := Extend(NEW, run, FULL, Idle, LoadRoot(6), FULL, Located(0, 6));
    run := Extend(NEW, run, FULL, Located(0, 6), Begin(2), BEGUN, Idle);
    run := Extend(NEW, run, BEGUN, Idle, Probe, BEGUN, Probed(1, 0));
    run := Extend(NEW, run, BEGUN, Probed(1, 0), Enter, ENTERED, Checking(0));
    run := Extend(NEW, run, ENTERED, Checking(0), Check, ENTERED, Claiming(0));
    run := Extend(NEW, run, ENTERED, Claiming(0), Claim, CLAIMED, AtCell(0, 0, ReadHash));
    run := Extend(NEW, run, CLAIMED, AtCell(0, 0, ReadHash), CellStep, CLAIMED, AtCell(0, 0, ReadValue(5)));
    run := Extend(NEW, run, CLAIMED, AtCell(0, 0, ReadValue(5)), CellStep, CLAIMED, AtCell(0, 0, Inserting(5, 7)));
  }

  /** A migration can succeed: from a new map, a value is written, moved to a larger table and published there. */
  lemma MigrationCanSucceed() returns (run: seq<(nat, Action)>)
    ensures CanRun(NEW, run) && Final(NEW, run) == State(Memory([[Cell(5, REDIRECT)], [Cell(NULL, NULL), Cell(5, 7)]], 1, None, 1), [Idle])
  {
    run := ToInserting();
    CellIsCopied();
    CellIsRedirected();
    UnitIsFinished();
    WorkerLeaves();
    hide Goes, CanRun, Final, Migrating;
    run := Extend(NEW, run, CLAIMED, AtCell(0, 0, Inserting(5, 7)), InsertNew(1), INSERTED, AtCell(0, 0, Storing(5, 7, 1)));
    run := Extend(NEW, run, INSERTED, AtCell(0, 0, Storing(5, 7, 1)), CellStep, STORED, AtCell(0, 0, Redirecting(5, 7, 1)));
    run := Extend(NEW, run, STORED, AtCell(0, 0, Redirecting(5, 7, 1)), CellStep, MOVED, UnitDone(0, 0));
    run := Extend(NEW, run, MOVED, UnitDone(0, 0), FinishUnit, FINISHED, Ending);
    run := Extend(NEW, run, FINISHED, Ending, SetEnd, ENDED, Leaving);
    run := Extend(NEW, run, ENDED, Leaving, Leave, LEFT, Last);
    run := Extend(NEW, run, LEFT, Last, Conclude(4), DONE, Idle);
  }

  /** It can also overflow: then a new one begins with both tables as sources and a destination of twice the size. */
  lemma MigrationCanStartOver() returns (run: seq<(nat, Action)>)
    ensures CanRun(NEW, run)
    ensures Final(NEW, run) ==
              State(Memory([[Cell(5, 7)], [Cell(NULL, NULL), Cell(NULL, NULL)], EmptyTable(4)], 0,
                           Some(Migration([0, 1], 2, [0, 0], 0, false, 2, {}, {})), 2), [Idle])
  {
    run := ToInserting();
    WorkerGivesUp();
    OverflowEnds();
    MigrationStartsOver();
    hide Goes, CanRun, Final, Migrating;
    run := Extend(NEW, run, CLAIMED, AtCell(0, 0, Inserting(5, 7)), InsertOverflow, CLAIMED, GivingUp(0, 0));
    run := Extend(NEW, run, CLAIMED, GivingUp(0, 0), MarkOverflow, GAVEUP, Ending);
    run := Extend(NEW, run, GAVEUP, Ending, SetEnd, ENDEDUP, Leaving);
    run := Extend(NEW, run, ENDEDUP, Leaving, Leave, LEFTUP, Last);
    run := Extend(NEW, run, LEFTUP, Last, Conclude(4), AGAIN, Idle);
  }
}
