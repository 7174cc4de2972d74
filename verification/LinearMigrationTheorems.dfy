/**
 What `ConcurrentMap_Linear` promises over every run: to its users it is one atomic map,
 whatever migrations are going on; and a migration is carried out exactly once.
 */
module LinearMigrationTheorems {
  import opened Options
  import opened Counting
  import opened LinearMigration
  import opened LinearMigrationInvariant

  // ---------------------------------------------------------------- the abstract map

  ghost predicate Live(m: Memory, h: nat)
    requires Shape(m)
  {
    exists s: nat, i: nat :: OpenAt(m, s, i, h)
  }

  ghost predicate Moved(m: Memory, h: nat)
    requires Shape(m)
  {
    m.mig.Some? && !Absent(m.tables[m.mig.value.dest], h)
  }

  ghost predicate LiveValue(m: Memory, h: nat, v: nat)
    requires Shape(m)
  {
    exists s: nat, i: nat :: OpenAt(m, s, i, h) && m.tables[Sources(m)[s]][i].value == v
  }

  ghost predicate MovedValue(m: Memory, h: nat, v: nat)
    requires Shape(m) && m.mig.Some?
  {
    exists d :: 0 <= d < |m.tables[m.mig.value.dest]| && m.tables[m.mig.value.dest][d] == Cell(h, v)
  }

  /** The map holds v for hash h: in its live cell if it has one, else in the destination. */
  ghost predicate Maps(m: Memory, h: nat, v: nat)
    requires Shape(m)
  {
    if Live(m, h) then LiveValue(m, h, v)
    else if Moved(m, h) then MovedValue(m, h, v)
    else v == NULL
  }

  /** The value the map associates with hash h; NULL when there is none. */
  ghost function Abs(m: Memory, h: nat): (v: nat)
    requires Shape(m)
    ensures Maps(m, h, v)
  {
    if Live(m, h) then
      var s: nat, i: nat :| OpenAt(m, s, i, h);
      m.tables[Sources(m)[s]][i].value
    else if Moved(m, h) then
      var d :| 0 <= d < |m.tables[m.mig.value.dest]| && m.tables[m.mig.value.dest][d].hash == h;
      assert m.tables[m.mig.value.dest][d] == Cell(h, m.tables[m.mig.value.dest][d].value);
      m.tables[m.mig.value.dest][d].value
    else
      NULL
  }

  lemma MapsIsAbs(m: Memory, h: nat, v: nat)
    requires Shape(m) && TablesOk(m) && SourcesOk(m) && h != NULL && Maps(m, h, v)
    ensures Abs(m, h) == v
  {
    if Live(m, h) {
      var s: nat, i: nat :| OpenAt(m, s, i, h) && m.tables[Sources(m)[s]][i].value == v;
      var s': nat, i': nat :| OpenAt(m, s', i', h) && m.tables[Sources(m)[s']][i'].value == Abs(m, h);
    } else if Moved(m, h) {
      assert TableOk(m.tables[m.mig.value.dest]);
    }
  }

  lemma LiveMaps(m: Memory, s: nat, i: nat, h: nat)
    requires Shape(m) && OpenAt(m, s, i, h)
    ensures Maps(m, h, m.tables[Sources(m)[s]][i].value)
  {
  }

  /** Equal live cells and an equal destination make equal maps. */
  lemma SameCellsSameMap(m: Memory, m': Memory, h: nat)
    requires Shape(m) && Shape(m') && m.mig.Some? == m'.mig.Some?
    requires forall s: nat, i: nat :: OpenAt(m', s, i, h) <==> OpenAt(m, s, i, h)
    requires forall s: nat, i: nat :: OpenAt(m, s, i, h) && OpenAt(m', s, i, h) ==>
               m'.tables[Sources(m')[s]][i].value == m.tables[Sources(m)[s]][i].value
    requires m.mig.Some? ==>
               var dest, dest' := m.tables[m.mig.value.dest], m'.tables[m'.mig.value.dest];
               |dest| == |dest'| && forall d :: 0 <= d < |dest| && (dest[d].hash == h || dest'[d].hash == h) ==> dest'[d] == dest[d]
    ensures Maps(m', h, Abs(m, h))
  {
    var v := Abs(m, h);
    assert Maps(m, h, v);
    if Live(m, h) {
      var s: nat, i: nat :| OpenAt(m, s, i, h) && m.tables[Sources(m)[s]][i].value == v;
      assert OpenAt(m', s, i, h);
    } else {
      assert !Live(m', h);
      if Moved(m, h) {
        var d :| 0 <= d < |m.tables[m.mig.value.dest]| && m.tables[m.mig.value.dest][d] == Cell(h, v);
        assert m'.tables[m'.mig.value.dest][d] == Cell(h, v);
      }
    }
  }

  // ---------------------------------------------------------------- migration steps keep the map

  /** The cell that is redirected has the hash's value, and the destination has a copy or nothing. */
  lemma RedirectCopies(st: State, t: nat, h: nat)
    requires Inv(st) && CanStep(st, t, CellStep) && !st.threads[t].stage.Storing? && h != NULL
    requires Effect(st.mem, st.threads[t], CellStep).0 != st.mem
    requires st.mem.tables[st.mem.mig.value.sources[st.threads[t].s]][st.threads[t].i].hash == h
    ensures var m, pc := st.mem, st.threads[t];
            var v := m.tables[m.mig.value.sources[pc.s]][pc.i].value;
            && OpenAt(m, pc.s, pc.i, h) && Abs(m, h) == v
            && (if Moved(m, h) then MovedValue(m, h, v) else v == NULL)
  {
    var m, pc := st.mem, st.threads[t];
    var c := m.tables[m.mig.value.sources[pc.s]][pc.i];
    hide Exclusive, UnitsOk, ClaimsOk, StatusOk, DestOk;
    assert OpenAt(m, pc.s, pc.i, h);
    LiveMaps(m, pc.s, pc.i, h);
    MapsIsAbs(m, h, c.value);
    if pc.stage.Redirecting? {
      assert m.tables[m.mig.value.dest][pc.stage.d] == Cell(h, c.value);
      MovedHasValue(m, h, c.value);
    } else {
      NeverCopied(st, t, h);
    }
  }

  /** Once the only live cell of the hash is redirected, the destination alone has its value. */
  lemma RedirectLeaves(m: Memory, s: nat, i: nat, h: nat, v: nat)
    requires Shape(m) && TablesOk(m) && SourcesOk(m) && DestOk(m) && m.mig.Some? && h != NULL
    requires s < |m.mig.value.sources| && i < |m.tables[m.mig.value.sources[s]]| && OpenAt(m, s, i, h)
    requires v == m.tables[m.mig.value.sources[s]][i].value && if Moved(m, h) then MovedValue(m, h, v) else v == NULL
    ensures var k := m.mig.value.sources[s];
            var m' := SetCell(m, k, i, m.tables[k][i].(value := REDIRECT));
            Shape(m') && Maps(m', h, v)
  {
    var k := m.mig.value.sources[s];
    var m' := SetCell(m, k, i, m.tables[k][i].(value := REDIRECT));
    RedirectTables(m, s, i);
    RedirectSources(m, s, i);
    assert m'.mig == m.mig && m'.tables[m.mig.value.dest] == m.tables[m.mig.value.dest];
    OneOpen(m, s, i, h);
    hide OpenAt, TablesOk, SourcesOk, DestOk;
    assert !Live(m', h);
  }

  lemma OneOpen(m: Memory, s: nat, i: nat, h: nat)
    requires Shape(m) && TablesOk(m) && SourcesOk(m) && h != NULL && OpenAt(m, s, i, h)
    ensures forall s', i' :: OpenAt(m, s', i', h) ==> s' == s && i' == i
  {
  }

  lemma MovedHasValue(m: Memory, h: nat, v: nat)
    requires Shape(m) && m.mig.Some? && MovedValue(m, h, v)
    ensures Moved(m, h)
  {
  }

  /** The hash of the cell that is redirected: it now lives in the destination, or nowhere. */
  lemma RedirectedMaps(st: State, t: nat, h: nat)
    requires Inv(st) && CanStep(st, t, CellStep) && !st.threads[t].stage.Storing? && h != NULL
    requires Effect(st.mem, st.threads[t], CellStep).0 != st.mem
    requires st.mem.tables[st.mem.mig.value.sources[st.threads[t].s]][st.threads[t].i].hash == h
    ensures Shape(Effect(st.mem, st.threads[t], CellStep).0) && Maps(Effect(st.mem, st.threads[t], CellStep).0, h, Abs(st.mem, h))
  {
    var m, pc := st.mem, st.threads[t];
    RedirectEffect(m, pc);
    RedirectCopies(st, t, h);
    hide TablesOk, SourcesOk, DestOk, CopiesOk, ThreadsOk, Exclusive, UnitsOk, ClaimsOk, StatusOk, OpenAt, Moved, MovedValue, Maps, Abs, Effect;
    RedirectLeaves(m, pc.s, pc.i, h, m.tables[m.mig.value.sources[pc.s]][pc.i].value);
  }

  lemma RedirectKeepsMap(st: State, t: nat, h: nat)
    requires Inv(st) && CanStep(st, t, CellStep) && !st.threads[t].stage.Storing? && h != NULL
    requires Effect(st.mem, st.threads[t], CellStep).0 != st.mem
    ensures Shape(Effect(st.mem, st.threads[t], CellStep).0) && Maps(Effect(st.mem, st.threads[t], CellStep).0, h, Abs(st.mem, h))
  {
    var m, pc := st.mem, st.threads[t];
    RedirectEffect(m, pc);
    hide CopiesOk, ThreadsOk, Exclusive, UnitsOk, ClaimsOk, StatusOk, TablesOk, SourcesOk, DestOk, OpenAt, Maps, Abs, Effect;
    if m.tables[m.mig.value.sources[pc.s]][pc.i].hash == h {
      RedirectedMaps(st, t, h);
    } else {
      RedirectOther(m, pc.s, pc.i, h);
    }
  }

  lemma RedirectOther(m: Memory, s: nat, i: nat, h: nat)
    requires Shape(m) && TablesOk(m) && SourcesOk(m) && DestOk(m) && m.mig.Some? && h != NULL
    requires s < |m.mig.value.sources| && i < |m.tables[m.mig.value.sources[s]]| && m.tables[m.mig.value.sources[s]][i].hash != h
    ensures var k := m.mig.value.sources[s];
            var m' := SetCell(m, k, i, m.tables[k][i].(value := REDIRECT));
            Shape(m') && Maps(m', h, Abs(m, h))
  {
    var k := m.mig.value.sources[s];
    var m' := SetCell(m, k, i, m.tables[k][i].(value := REDIRECT));
    RedirectTables(m, s, i);
    RedirectElsewhere(m, m', s, i, h);
    SameCellsSameMap(m, m', h);
  }

  lemma RedirectElsewhere(m: Memory, m': Memory, s: nat, i: nat, h: nat)
    requires Shape(m) && Shape(m') && m.mig.Some? && s < |m.mig.value.sources| && i < |m.tables[m.mig.value.sources[s]]|
    requires var k := m.mig.value.sources[s]; m' == SetCell(m, k, i, m.tables[k][i].(value := REDIRECT)) && m.tables[k][i].hash != h
    ensures forall s', i' :: OpenAt(m', s', i', h) <==> OpenAt(m, s', i', h)
  {
  }

  /** While a worker stands at a live cell without copying it, its hash is not in the destination. */
  lemma NeverCopied(st: State, t: nat, h: nat)
    requires Inv(st) && t < |st.threads| && st.threads[t].AtCell?
    requires !st.threads[t].stage.Storing? && !st.threads[t].stage.Redirecting?
    requires PcShape(st.mem, st.threads[t]) && h != NULL && OpenAt(st.mem, st.threads[t].s, st.threads[t].i, h)
    ensures !Moved(st.mem, h)
  {
    var m := st.mem;
    var dest := m.tables[m.mig.value.dest];
    forall d ensures !Copied(st.threads, st.threads[t].s, st.threads[t].i, d) {
      forall t' | 0 <= t' < |st.threads| ensures !Copying(st.threads[t'], st.threads[t].s, st.threads[t].i, d) {
        if t' != t && st.threads[t'].AtCell? {
          ApartAtCells(st.threads, t, t');
        }
      }
    }
  }

  lemma DestChangeKeepsMap(m: Memory, d: nat, c: Cell, h: nat)
    requires Shape(m) && TablesOk(m) && SourcesOk(m) && DestOk(m) && DestChange(m, d, c) && h != NULL
    requires c.hash == h ==> Live(m, h)
    ensures Shape(SetCell(m, m.mig.value.dest, d, c)) && Maps(SetCell(m, m.mig.value.dest, d, c), h, Abs(m, h))
  {
    var m' := SetCell(m, m.mig.value.dest, d, c);
    DestChangeTables(m, d, c);
    assert forall s :: 0 <= s < |Sources(m)| ==> m'.tables[Sources(m)[s]] == m.tables[Sources(m)[s]];
    if c.hash == h {
      var s: nat, i: nat :| OpenAt(m, s, i, h) && m.tables[Sources(m)[s]][i].value == Abs(m, h);
      assert OpenAt(m', s, i, h);
    } else {
      SameCellsSameMap(m, m', h);
    }
  }

  lemma InsertKeepsMap(st: State, t: nat, d: nat, h: nat)
    requires Inv(st) && CanStep(st, t, InsertNew(d)) && h != NULL
    ensures Shape(Step(st, t, InsertNew(d)).mem) && Maps(Step(st, t, InsertNew(d)).mem, h, Abs(st.mem, h))
  {
    var m, pc := st.mem, st.threads[t];
    assert OpenAt(m, pc.s, pc.i, pc.stage.h);
    RootKnows(m, pc.s, pc.stage.h);
    DestChangeKeepsMap(m, d, m.tables[m.mig.value.dest][d].(hash := pc.stage.h), h);
  }

  lemma StoreKeepsMap(st: State, t: nat, h: nat)
    requires Inv(st) && CanStep(st, t, CellStep) && st.threads[t].stage.Storing? && h != NULL
    ensures Shape(Step(st, t, CellStep).mem) && Maps(Step(st, t, CellStep).mem, h, Abs(st.mem, h))
  {
    var m, pc := st.mem, st.threads[t];
    assert OpenAt(m, pc.s, pc.i, pc.stage.h);
    RootKnows(m, pc.s, pc.stage.h);
    DestChangeKeepsMap(m, pc.stage.d, m.tables[m.mig.value.dest][pc.stage.d].(value := pc.stage.v), h);
  }

  lemma ReserveKeepsMap(st: State, t: nat, i: nat, h: nat)
    requires Inv(st) && CanStep(st, t, Reserve(i)) && h != NULL
    ensures Shape(Step(st, t, Reserve(i)).mem) && Maps(Step(st, t, Reserve(i)).mem, h, Abs(st.mem, h))
  {
    var m := st.mem;
    var Located(k, h0) := st.threads[t];
    var m' := Effect(m, st.threads[t], Reserve(i)).0;
    assert MutatorTable(m, k);
    ReserveTables(m, k, i, h0);
    assert Sources(m)[0] == m.root;
    assert m.mig.Some? ==> m'.tables[m.mig.value.dest] == m.tables[m.mig.value.dest];
    if h == h0 && k == m.root {
      forall s, j ensures !OpenAt(m, s, j, h) {
        if OpenAt(m, s, j, h) { RootKnows(m, s, h); }
      }
      assert !Live(m, h) && !Moved(m, h);
      assert m'.tables[k][i].hash == h && m'.tables[k][i].value <= REDIRECT by { assert TableOk(m.tables[k]); }
      forall s: nat, j: nat | OpenAt(m', s, j, h) ensures m'.tables[Sources(m)[s]][j].value == NULL {
        assert s == 0 && j == i;
      }
    } else {
      ReserveElsewhere(m, m', k, i, h0, h);
      SameCellsSameMap(m, m', h);
    }
  }

  lemma ReserveElsewhere(m: Memory, m': Memory, k: nat, i: nat, h0: nat, h: nat)
    requires Shape(m) && MutatorTable(m, k) && i < |m.tables[k]| && m.tables[k][i].hash == NULL && h != NULL
    requires m' == SetCell(m, k, i, m.tables[k][i].(hash := h0)) && Shape(m') && (h != h0 || k != m.root)
    ensures forall s', i' :: OpenAt(m', s', i', h) <==> OpenAt(m, s', i', h)
  {
  }

  lemma BeginKeepsMap(m: Memory, size: nat, h: nat)
    requires Shape(m) && m.mig.None? && h != NULL && size >= 1
    ensures Shape(BeginMigration(m, size)) && Maps(BeginMigration(m, size), h, Abs(m, h))
  {
    var m' := BeginMigration(m, size);
    assert forall s, i :: OpenAt(m', s, i, h) <==> OpenAt(m, s, i, h);
    assert m'.tables[m'.mig.value.dest] == EmptyTable(size);
    if Live(m, h) {
      var s: nat, i: nat :| OpenAt(m, s, i, h) && m.tables[Sources(m)[s]][i].value == Abs(m, h);
      assert OpenAt(m', s, i, h);
    } else {
      assert !Live(m', h);
    }
  }

  lemma PublishKeepsMap(st: State, t: nat, h: nat)
    requires Inv(st) && t < |st.threads| && st.threads[t].Last? && !st.mem.mig.value.overflowed && h != NULL
    ensures Shape(Publish(st.mem)) && Maps(Publish(st.mem), h, Abs(st.mem, h))
  {
    var m := st.mem;
    var m' := Publish(m);
    LastIsAlone(st, t);
    AllSourcesRedirected(m);
    assert !Live(m, h);
    if Moved(m, h) {
      var d :| 0 <= d < |m.tables[m.mig.value.dest]| && m.tables[m.mig.value.dest][d] == Cell(h, Abs(m, h));
      assert OpenAt(m', 0, d, h);
    }
  }

  lemma HandOffKeepsMap(m: Memory, size: nat, h: nat)
    requires Shape(m) && m.mig.Some? && DestOk(m) && size >= 1 && h != NULL
    ensures Shape(HandOff(m, size)) && Maps(HandOff(m, size), h, Abs(m, h))
  {
    var m' := HandOff(m, size);
    var g := m.mig.value;
    var last := |g.sources|;
    HandOffShape(m, size);
    assert Sources(m') == g.sources + [g.dest];
    assert forall k :: 0 <= k < |m.tables| ==> m'.tables[k] == m.tables[k];
    assert m'.tables[m'.mig.value.dest] == EmptyTable(size);
    if Live(m, h) {
      var s: nat, i: nat :| OpenAt(m, s, i, h) && m.tables[Sources(m)[s]][i].value == Abs(m, h);
      assert OpenAt(m', s, i, h);
    } else if Moved(m, h) {
      var d :| 0 <= d < |m.tables[g.dest]| && m.tables[g.dest][d] == Cell(h, Abs(m, h));
      assert OpenAt(m', last, d, h);
    } else {
      forall s: nat, i: nat ensures !OpenAt(m', s, i, h) {
        assert !OpenAt(m, s, i, h);
      }
    }
  }

  lemma SameJobKeepsMap(m: Memory, m': Memory, h: nat)
    requires Shape(m) && TablesOk(m) && SourcesOk(m) && DestOk(m) && (m' == m || SameJob(m, m')) && h != NULL
    ensures Shape(m') && Maps(m', h, Abs(m, h))
  {
    if m' != m {
      SameJobKeepsTables(m, m');
      SameCellsSameMap(m, m', h);
    }
  }

  // ---------------------------------------------------------------- writers

  /** The write that a step performs on the map, if it does. */
  datatype Write = Write(hash: nat, seen: nat, desired: nat)

  ghost function WriteOf(st: State, t: nat, a: Action): Option<Write>
    requires CanStep(st, t, a)
  {
    var pc := st.threads[t];
    if a.Cas? && st.mem.tables[pc.table][pc.cell].value == pc.seen
    then Some(Write(pc.hash, pc.seen, a.desired))
    else None
  }

  /** The value of hash h after an atomic compare-and-swap. */
  function After(v: nat, h: nat, w: Option<Write>): nat {
    if w.Some? && w.value.hash == h then w.value.desired else v
  }

  lemma WriteIsAtomic(st: State, t: nat, desired: nat, h: nat)
    requires Inv(st) && CanStep(st, t, Cas(desired)) && WriteOf(st, t, Cas(desired)).Some? && h != NULL
    ensures Shape(Step(st, t, Cas(desired)).mem)
    ensures Maps(Step(st, t, Cas(desired)).mem, h, After(Abs(st.mem, h), h, WriteOf(st, t, Cas(desired))))
    ensures Abs(st.mem, st.threads[t].hash) == st.threads[t].seen
  {
    var m := st.mem;
    var Holding(k, i, h0, seen) := st.threads[t];
    var m' := Effect(m, st.threads[t], Cas(desired)).0;
    LiveCellIsInRoot(m, k, i, h0);
    WriteTables(m, st.threads, i, desired);
    assert Sources(m)[0] == k;
    LiveMaps(m, 0, i, h0);
    MapsIsAbs(m, h0, seen);
    if h == h0 {
      assert OpenAt(m', 0, i, h);
      LiveMaps(m', 0, i, h);
    } else {
      assert m.mig.Some? ==> m'.tables[m.mig.value.dest] == m.tables[m.mig.value.dest];
      SameCellsSameMap(m, m', h);
    }
  }

  ghost predicate JobAction(a: Action) {
    a.Enter? || a.Claim? || a.FinishUnit? || a.MarkOverflow? || a.SetEnd? || a.Leave?
  }

  lemma JobStepKeepsMap(st: State, t: nat, a: Action, h: nat)
    requires Inv(st) && CanStep(st, t, a) && JobAction(a) && h != NULL
    ensures Shape(Step(st, t, a).mem) && Maps(Step(st, t, a).mem, h, Abs(st.mem, h))
  {
    hide CopiesOk, ThreadsOk, Exclusive, UnitsOk, ClaimsOk, StatusOk, Maps, PcShape, Effect, TablesOk, SourcesOk, DestOk;
    JobEffect(st.mem, st.threads[t], a);
    hide Enabled;
    SameJobKeepsMap(st.mem, Effect(st.mem, st.threads[t], a).0, h);
  }

  lemma JobEffect(m: Memory, pc: PC, a: Action)
    requires Shape(m) && PcShape(m, pc) && Enabled(m, pc, a) && JobAction(a)
    ensures Effect(m, pc, a).0 == m || SameJob(m, Effect(m, pc, a).0)
  {
  }

  lemma CellStepKeepsMap(st: State, t: nat, h: nat)
    requires Inv(st) && CanStep(st, t, CellStep) && h != NULL
    ensures Shape(Step(st, t, CellStep).mem) && Maps(Step(st, t, CellStep).mem, h, Abs(st.mem, h))
  {
    hide CopiesOk, ThreadsOk, Exclusive, UnitsOk, ClaimsOk, StatusOk, TablesOk, SourcesOk, DestOk, Maps, Effect, PcShape;
    if st.threads[t].stage.Storing? {
      StoreKeepsMap(st, t, h);
    } else if Effect(st.mem, st.threads[t], CellStep).0 != st.mem {
      RedirectKeepsMap(st, t, h);
    }
  }

  lemma ConcludeKeepsMap(st: State, t: nat, size: nat, h: nat)
    requires Inv(st) && CanStep(st, t, Conclude(size)) && h != NULL
    ensures Shape(Step(st, t, Conclude(size)).mem) && Maps(Step(st, t, Conclude(size)).mem, h, Abs(st.mem, h))
  {
    assert size >= 1;
    hide CopiesOk, ThreadsOk, Exclusive, UnitsOk, ClaimsOk, StatusOk, TablesOk, SourcesOk, Maps;
    if st.mem.mig.value.overflowed { HandOffKeepsMap(st.mem, size, h); } else { PublishKeepsMap(st, t, h); }
  }

  /** A step that is not a successful write leaves the map alone. */
  lemma QuietStepKeepsMap(st: State, t: nat, a: Action, h: nat)
    requires Inv(st) && CanStep(st, t, a) && WriteOf(st, t, a).None? && h != NULL
    ensures Shape(Step(st, t, a).mem) && Maps(Step(st, t, a).mem, h, Abs(st.mem, h))
  {
    if a.Begin? {
      BeginKeepsMap(st.mem, a.size, h);
    } else if a.Reserve? {
      ReserveKeepsMap(st, t, a.i, h);
    } else if a.CellStep? {
      CellStepKeepsMap(st, t, h);
    } else if a.InsertNew? {
      InsertKeepsMap(st, t, a.d, h);
    } else if a.Conclude? {
      ConcludeKeepsMap(st, t, a.size, h);
    } else if JobAction(a) {
      JobStepKeepsMap(st, t, a, h);
    } else {
      hide Inv, Maps;
      assert Step(st, t, a).mem == st.mem;
    }
  }

  /**
   Every step, of whatever thread, either leaves the value of every hash alone or is a
   writer's successful compare-exchange, which acts on the map as one atomic
   compare-and-swap.  No step of a migration is seen by the users of the map.
   */
  lemma StepIsAtomic(st: State, t: nat, a: Action, h: nat)
    requires Inv(st) && CanStep(st, t, a) && h != NULL
    ensures Inv(Step(st, t, a))
    ensures Abs(Step(st, t, a).mem, h) == After(Abs(st.mem, h), h, WriteOf(st, t, a))
    ensures WriteOf(st, t, a).Some? ==> Abs(st.mem, WriteOf(st, t, a).value.hash) == WriteOf(st, t, a).value.seen
  {
    StepKeepsInv(st, t, a);
    hide Step, CanStep, Maps, CopiesOk, ThreadsOk, Exclusive, UnitsOk, ClaimsOk, StatusOk, TablesOk, SourcesOk, DestOk, Shape;
    if WriteOf(st, t, a).Some? {
      WriteIsAtomic(st, t, a.desired, h);
    } else {
      QuietStepKeepsMap(st, t, a, h);
    }
    MapsIsAbs(Step(st, t, a).mem, h, After(Abs(st.mem, h), h, WriteOf(st, t, a)));
  }

  // ---------------------------------------------------------------- whole runs

  ghost predicate CanRun(st: State, run: seq<(nat, Action)>)
    decreases |run|
  {
    run == [] || (CanStep(st, run[0].0, run[0].1) && CanRun(Step(st, run[0].0, run[0].1), run[1..]))
  }

  ghost function Final(st: State, run: seq<(nat, Action)>): State
    requires CanRun(st, run)
    decreases |run|
  {
    if run == [] then st else Final(Step(st, run[0].0, run[0].1), run[1..])
  }

  /** The successful writes of a run, in order. */
  ghost function Writes(st: State, run: seq<(nat, Action)>): seq<Write>
    requires CanRun(st, run)
    decreases |run|
  {
    if run == [] then []
    else
      var w := WriteOf(st, run[0].0, run[0].1);
      (if w.Some? then [w.value] else []) + Writes(Step(st, run[0].0, run[0].1), run[1..])
  }

  /** The value of hash h after a sequence of atomic writes, starting from v. */
  function Replay(v: nat, h: nat, writes: seq<Write>): nat
    decreases |writes|
  {
    if writes == [] then v else Replay(After(v, h, Some(writes[0])), h, writes[1..])
  }

  /**
   Linearizability: over every run of any number of writers and workers, through any chain of
   migrations, failed or not, each hash ends with the value that the successful
   compare-exchanges, taken one after the other, give it.
   */
  lemma {:induction false} RunIsAtomic(st: State, run: seq<(nat, Action)>, h: nat)
    requires Inv(st) && CanRun(st, run) && h != NULL
    ensures Inv(Final(st, run))
    ensures Abs(Final(st, run).mem, h) == Replay(Abs(st.mem, h), h, Writes(st, run))
    decreases |run|
  {
    if run != [] {
      var next := Step(st, run[0].0, run[0].1);
      StepIsAtomic(st, run[0].0, run[0].1, h);
      RunIsAtomic(next, run[1..], h);
      var w := WriteOf(st, run[0].0, run[0].1);
      hide Inv, Step, CanStep, WriteOf, Abs;
      if w.Some? {
        assert ([w.value] + Writes(next, run[1..]))[1..] == Writes(next, run[1..]);
      } else {
        assert [] + Writes(next, run[1..]) == Writes(next, run[1..]);
      }
    }
  }

  /** ... and each of those writes replaced exactly the value that the writes before it had left. */
  lemma {:induction false} WritesSeeTheMap(st: State, run: seq<(nat, Action)>, i: nat)
    requires Inv(st) && CanRun(st, run) && i < |Writes(st, run)|
    ensures var w := Writes(st, run)[i];
            w.hash != NULL && w.seen == Replay(Abs(st.mem, w.hash), w.hash, Writes(st, run)[..i])
    decreases |run|
  {
    var t, a := run[0].0, run[0].1;
    var next := Step(st, t, a);
    var w := WriteOf(st, t, a);
    var rest := Writes(next, run[1..]);
    WriterHash(st, t, a);
    StepKeepsInv(st, t, a);
    WritesHead(st, run);
    assert CanStep(st, t, a) && CanRun(next, run[1..]);
    hide Inv, Step, CanStep, CanRun, WriteOf, Abs, Writes, Replay, After;
    if w.Some? && i == 0 {
      StepIsAtomic(st, t, a, w.value.hash);
      ReplayNone(Abs(st.mem, w.value.hash), w.value.hash, Writes(st, run)[..i]);
    } else {
      var j := if w.Some? then i - 1 else i;
      WritesSeeTheMap(next, run[1..], j);
      assert Writes(st, run)[i] == rest[j];
      StepIsAtomic(st, t, a, rest[j].hash);
      if w.Some? {
        ReplayHead(Abs(st.mem, rest[j].hash), rest[j].hash, w.value, rest, j);
      } else {
        assert Writes(st, run) == rest;
      }
    }
  }

  lemma WritesHead(st: State, run: seq<(nat, Action)>)
    requires CanRun(st, run) && run != []
    ensures var w, rest := WriteOf(st, run[0].0, run[0].1), Writes(Step(st, run[0].0, run[0].1), run[1..]);
            Writes(st, run) == if w.Some? then [w.value] + rest else rest
  {
    hide Step, CanStep, WriteOf;
  }

  lemma ReplayNone(v: nat, h: nat, writes: seq<Write>)
    requires writes == []
    ensures Replay(v, h, writes) == v
  {
  }

  lemma ReplayHead(v: nat, h: nat, w: Write, rest: seq<Write>, j: nat)
    requires j <= |rest|
    ensures Replay(v, h, ([w] + rest)[..j + 1]) == Replay(After(v, h, Some(w)), h, rest[..j])
  {
    assert ([w] + rest)[..j + 1][1..] == rest[..j];
  }

  lemma WriterHash(st: State, t: nat, a: Action)
    requires CanStep(st, t, a)
    ensures WriteOf(st, t, a).Some? ==> WriteOf(st, t, a).value.hash != NULL
  {
  }

  // ---------------------------------------------------------------- readers

  /** A value that a reader loads and that is not a redirect marker is the map's value at that moment. */
  lemma LoadReadsTheMap(st: State, t: nat)
    requires Inv(st) && CanStep(st, t, LoadValue)
    requires Step(st, t, LoadValue).threads[t].Holding?
    ensures Abs(st.mem, st.threads[t].hash) == Step(st, t, LoadValue).threads[t].seen
  {
    var Found(k, i, h) := st.threads[t];
    LiveCellIsInRoot(st.mem, k, i, h);
    assert Sources(st.mem)[0] == k;
    LiveMaps(st.mem, 0, i, h);
    MapsIsAbs(st.mem, h, st.mem.tables[k][i].value);
  }

  lemma {:induction false} HashesStay(st: State, run: seq<(nat, Action)>, k: nat, h: nat)
    requires Inv(st) && CanRun(st, run) && k < |st.mem.tables| && h != NULL && !Absent(st.mem.tables[k], h)
    ensures k < |Final(st, run).mem.tables| && !Absent(Final(st, run).mem.tables[k], h)
    decreases |run|
  {
    if run != [] {
      StepKeepsInv(st, run[0].0, run[0].1);
      HashStays(st, run[0].0, run[0].1, k, h);
      HashesStay(Step(st, run[0].0, run[0].1), run[1..], k, h);
    }
  }

  lemma HashStays(st: State, t: nat, a: Action, k: nat, h: nat)
    requires CanStep(st, t, a) && k < |st.mem.tables| && h != NULL && !Absent(st.mem.tables[k], h)
    ensures k < |Step(st, t, a).mem.tables| && !Absent(Step(st, t, a).mem.tables[k], h)
  {
    var j :| 0 <= j < |st.mem.tables[k]| && st.mem.tables[k][j].hash == h;
    assert Step(st, t, a).mem.tables[k][j].hash == h;
  }

  /**
   A reader that loads the root and later, after any steps of any threads, misses the hash in
   that table, whether it is still the root or long retired, is right to return nothing: the
   map had no value for the hash when the root was loaded.
   */
  lemma MissIsRight(st: State, run: seq<(nat, Action)>, h: nat)
    requires Inv(st) && CanRun(st, run) && h != NULL
    requires st.mem.root < |Final(st, run).mem.tables| && Absent(Final(st, run).mem.tables[st.mem.root], h)
    ensures Abs(st.mem, h) == NULL
  {
    var m := st.mem;
    if !Absent(m.tables[m.root], h) {
      HashesStay(st, run, m.root, h);
    }
    forall s: nat, i: nat ensures !OpenAt(m, s, i, h) {
      if OpenAt(m, s, i, h) { RootKnows(m, s, h); }
    }
    assert !Live(m, h) && !Moved(m, h);
  }

  // ---------------------------------------------------------------- a migration is carried out once

  /** A unit is claimed by at most one worker, ever: nobody holds it, has finished it or has given it up. */
  lemma ClaimIsFresh(st: State, t: nat)
    requires Inv(st) && CanStep(st, t, Claim) && Step(st, t, Claim).threads[t].AtCell?
    ensures var mine := UnitOf(Step(st, t, Claim).threads[t]).value;
            var g := st.mem.mig.value;
            mine in AllUnits(st.mem.tables, g.sources) && mine !in g.done && mine !in g.failed && !Held(st.threads, mine)
  {
    ClaimedUnit(st.mem, st.threads, st.threads[t].s);
  }

  /** Once the end flag is set, exactly one of "no units remain" and "overflowed" holds. */
  lemma EndsOneWay(st: State)
    requires Inv(st) && st.mem.mig.Some?
    ensures st.mem.mig.value.remaining >= 0
    ensures !(st.mem.mig.value.remaining == 0 && st.mem.mig.value.overflowed)
    ensures st.mem.mig.value.status % 2 == 1 ==> st.mem.mig.value.remaining == 0 || st.mem.mig.value.overflowed
  {
    var g := st.mem.mig.value;
    var all := AllUnits(st.mem.tables, g.sources);
    SubsetSize(g.done, all);
    if g.overflowed {
      var n :| n in g.failed;
      ProperSubset(g.done, all, n);
    }
  }

  /**
   The final step is taken once: while a worker is about to take it, no other thread is in the
   migration or can get in, and whatever the others do it stays the one.
   */
  lemma FinalStepIsTakenOnce(st: State, t: nat, t': nat, a: Action)
    requires Inv(st) && t < |st.threads| && st.threads[t].Last? && t' != t && CanStep(st, t', a)
    ensures Outside(st.threads[t']) && Outside(Step(st, t', a).threads[t'])
    ensures Step(st, t', a).threads[t].Last? && Step(st, t', a).mem.mig == st.mem.mig
  {
    LastIsAlone(st, t);
    assert PcShape(st.mem, st.threads[t']);
  }

  /** A migration that does not overflow ends with every source cell redirected: the destination alone is the map. */
  lemma SuccessMovesEverything(st: State, t: nat, size: nat, h: nat)
    requires Inv(st) && CanStep(st, t, Conclude(size)) && !st.mem.mig.value.overflowed && h != NULL
    ensures forall s :: 0 <= s < |st.mem.mig.value.sources| ==> AllRedirect(st.mem.tables[st.mem.mig.value.sources[s]])
    ensures var dest := st.mem.tables[st.mem.mig.value.dest];
            if Absent(dest, h) then Abs(st.mem, h) == NULL
            else exists d :: 0 <= d < |dest| && dest[d] == Cell(h, Abs(st.mem, h))
  {
    LastIsAlone(st, t);
    AllSourcesRedirected(st.mem);
    assert !Live(st.mem, h);
  }

  // ---------------------------------------------------------------- the start

  /** A freshly created map: an empty table and idle threads. */
  lemma FreshMapIsEmpty(size: nat, n: nat, h: nat)
    requires size >= 1 && h != NULL
    ensures var st := State(Memory([EmptyTable(size)], 0, None, 0), seq(n, _ => Idle));
            Inv(st) && Abs(st.mem, h) == NULL
  {
    var st := State(Memory([EmptyTable(size)], 0, None, 0), seq(n, _ => Idle));
    assert st.mem.tables[0] == EmptyTable(size);
    assert forall s: nat, i: nat :: !OpenAt(st.mem, s, i, h);
  }
}
