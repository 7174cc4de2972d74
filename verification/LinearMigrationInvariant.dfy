/** Every step of `LinearMigration` keeps its invariant. */
module LinearMigrationInvariant {
  import opened Options
  import opened Counting
  import opened LinearMigration

  // ---------------------------------------------------------------- a thread moves

  lemma InsideUpdate(threads: seq<PC>, t: nat, pc: PC)
    requires t < |threads|
    ensures var before := InsideSet(threads);
            var after := InsideSet(threads[t := pc]);
            && (Inside(threads[t]) == Inside(pc) ==> after == before)
            && (!Inside(threads[t]) && Inside(pc) ==> |after| == |before| + 1)
            && (Inside(threads[t]) && !Inside(pc) ==> |after| == |before| - 1)
  {
    var before := InsideSet(threads);
    var after := InsideSet(threads[t := pc]);
    InsideElements(threads, t, pc);
    hide InsideSet, Inside;
    if Inside(threads[t]) != Inside(pc) {
      if Inside(pc) {
        assert after == before + {t};
      } else {
        assert before == after + {t};
      }
    }
  }

  lemma InsideElements(threads: seq<PC>, t: nat, pc: PC)
    requires t < |threads|
    ensures t in InsideSet(threads) <==> Inside(threads[t])
    ensures InsideSet(threads[t := pc]) == if Inside(pc) then InsideSet(threads) + {t} else InsideSet(threads) - {t}
  {
    var before, after := InsideSet(threads), InsideSet(threads[t := pc]);
    forall x: nat ensures x in after <==> if x == t then Inside(pc) else x in before {
    }
    hide InsideSet;
    assert after == if Inside(pc) then before + {t} else before - {t};
  }

  lemma HeldUpdate(threads: seq<PC>, t: nat, pc: PC, n: Unit)
    requires t < |threads|
    requires n != Unit(n.s, n.u) || UnitOf(pc) == UnitOf(threads[t]) || (UnitOf(pc) != Some(n) && UnitOf(threads[t]) != Some(n))
    ensures Held(threads[t := pc], n) <==> Held(threads, n)
  {
    var after := threads[t := pc];
    if Held(threads, n) {
      var t' :| 0 <= t' < |threads| && UnitOf(threads[t']) == Some(n);
      assert UnitOf(after[t']) == Some(n);
    }
    if Held(after, n) {
      var t' :| 0 <= t' < |after| && UnitOf(after[t']) == Some(n);
      assert UnitOf(threads[t']) == Some(n);
    }
  }

  lemma CopiedUpdate(threads: seq<PC>, t: nat, pc: PC, s: nat, i: nat, d: nat)
    requires t < |threads| && Copied(threads, s, i, d)
    requires Copying(threads[t], s, i, d) ==> Copying(pc, s, i, d)
    ensures Copied(threads[t := pc], s, i, d)
  {
    var t' :| 0 <= t' < |threads| && Copying(threads[t'], s, i, d);
    assert Copying(threads[t := pc][t'], s, i, d);
  }

  lemma EndingUpdate(threads: seq<PC>, t: nat, pc: PC)
    requires t < |threads|
    ensures SomeEnding(threads) && (threads[t].Ending? ==> pc.Ending?) ==> SomeEnding(threads[t := pc])
    ensures pc.Ending? ==> SomeEnding(threads[t := pc])
    ensures threads[t].Last? == pc.Last? ==> (SomeLast(threads) <==> SomeLast(threads[t := pc]))
    ensures pc.Last? ==> SomeLast(threads[t := pc])
  {
    var after := threads[t := pc];
    assert after[t] == pc;
    if SomeEnding(threads) && (threads[t].Ending? ==> pc.Ending?) {
      var e :| 0 <= e < |threads| && threads[e].Ending?;
      assert after[e].Ending?;
    }
    if threads[t].Last? == pc.Last? {
      if SomeLast(threads) {
        var e :| 0 <= e < |threads| && threads[e].Last?;
        assert after[e].Last?;
      }
      if SomeLast(after) {
        var e :| 0 <= e < |after| && after[e].Last?;
        assert threads[e].Last?;
      }
    }
  }

  /** Where a thread stands after a step that only moved it. */
  ghost predicate MovesTo(m: Memory, pc: PC, pc': PC)
    requires Shape(m)
  {
    && PcShape(m, pc') && WorkerOk(m, pc')
    && UnitOf(pc') == UnitOf(pc)
    && Inside(pc') == Inside(pc)
    && !pc.Ending? && !pc.Last? && !pc'.Last?
    && (forall s, i, d :: Copying(pc, s, i, d) ==> Copying(pc', s, i, d))
  }

  /** A step that changes one program counter and nothing else. */
  lemma MoveKeepsInv(st: State, t: nat, pc: PC)
    requires Inv(st) && t < |st.threads| && MovesTo(st.mem, st.threads[t], pc)
    ensures Inv(State(st.mem, st.threads[t := pc]))
  {
    MoveCopies(st.mem, st.threads, t, pc);
    MoveClaims(st.mem, st.threads, t, pc);
    MoveStatus(st.mem.mig, st.threads, t, pc);
    MoveExclusive(st.threads, t, pc);
    hide PcShape, WorkerOk, CopiesOk, ClaimsOk, StatusOk, Exclusive, TablesOk, SourcesOk, DestOk, UnitsOk, Shape;
  }

  lemma MoveCopies(m: Memory, threads: seq<PC>, t: nat, pc: PC)
    requires Shape(m) && CopiesOk(m, threads) && t < |threads|
    requires forall s, i, d :: Copying(threads[t], s, i, d) ==> Copying(pc, s, i, d)
    ensures CopiesOk(m, threads[t := pc])
  {
    var after := threads[t := pc];
    forall s, i, d | Copied(threads, s, i, d) ensures Copied(after, s, i, d) {
      CopiedUpdate(threads, t, pc, s, i, d);
    }
    hide Copied, Copying;
  }

  lemma MoveClaims(m: Memory, threads: seq<PC>, t: nat, pc: PC)
    requires Shape(m) && ClaimsOk(m, threads) && t < |threads| && UnitOf(pc) == UnitOf(threads[t])
    ensures ClaimsOk(m, threads[t := pc])
  {
    var after := threads[t := pc];
    forall n ensures Held(after, n) <==> Held(threads, n) {
      HeldUpdate(threads, t, pc, n);
    }
    hide Held;
  }

  lemma MoveStatus(mig: Option<Migration>, threads: seq<PC>, t: nat, pc: PC)
    requires StatusOk(mig, threads) && t < |threads| && Inside(pc) == Inside(threads[t])
    requires !threads[t].Ending? && !threads[t].Last? && !pc.Last?
    ensures StatusOk(mig, threads[t := pc])
  {
    InsideUpdate(threads, t, pc);
    EndingUpdate(threads, t, pc);
    hide InsideSet, SomeEnding, SomeLast;
  }

  lemma MoveExclusive(threads: seq<PC>, t: nat, pc: PC)
    requires Exclusive(threads) && t < |threads| && UnitOf(pc) == UnitOf(threads[t])
    ensures Exclusive(threads[t := pc])
  {
  }

  // ---------------------------------------------------------------- a thread moves and the migration object changes

  /** The parts of a migration object that never change while it lives. */
  ghost predicate SameJob(m: Memory, m': Memory) {
    && m.mig.Some? && m'.mig.Some?
    && m' == m.(mig := m'.mig)
    && m'.mig.value.sources == m.mig.value.sources
    && m'.mig.value.dest == m.mig.value.dest
    && |m'.mig.value.index| == |m.mig.value.index|
    && (forall s :: 0 <= s < |m.mig.value.index| ==> m.mig.value.index[s] <= m'.mig.value.index[s])
  }

  lemma BystanderOk(m: Memory, m': Memory, pc: PC)
    requires Shape(m) && PcShape(m, pc) && WorkerOk(m, pc) && SameJob(m, m')
    requires UnitOf(pc).Some? ==> UnitOf(pc).value !in m'.mig.value.done && UnitOf(pc).value !in m'.mig.value.failed
    requires m.mig.value.status % 2 == 1 ==> m'.mig.value.status % 2 == 1
    requires m.mig.value.overflowed ==> m'.mig.value.overflowed
    requires m.mig.value.remaining == 0 ==> m'.mig.value.remaining == 0
    ensures Shape(m') && PcShape(m', pc) && WorkerOk(m', pc)
  {
    if pc.Checking? || pc.Claiming? || pc.AtCell? || pc.UnitDone? {
      assert Exhausted(m, pc.s);
      assert Exhausted(m', pc.s);
    }
  }

  /** What memory-only invariants need of a step that keeps the tables. */
  lemma SameJobKeepsTables(m: Memory, m': Memory)
    requires Shape(m) && TablesOk(m) && SourcesOk(m) && DestOk(m) && SameJob(m, m')
    ensures Shape(m') && TablesOk(m') && SourcesOk(m') && DestOk(m')
    ensures forall s, i, h :: OpenAt(m', s, i, h) <==> OpenAt(m, s, i, h)
  {
    assert forall k :: RetiredTable(m', k) <==> RetiredTable(m, k);
    assert forall s, i, h :: OpenAt(m', s, i, h) <==> OpenAt(m, s, i, h);
  }

  lemma CopiesKept(m: Memory, threads: seq<PC>, m': Memory, t: nat, pc: PC)
    requires Shape(m) && Shape(m') && CopiesOk(m, threads) && SameJob(m, m') && t < |threads|
    requires forall s, i, h :: OpenAt(m', s, i, h) ==> OpenAt(m, s, i, h)
    requires forall s, i, d :: Copying(threads[t], s, i, d) ==> Copying(pc, s, i, d)
    ensures CopiesOk(m', threads[t := pc])
  {
    forall s, i, d | Copied(threads, s, i, d) ensures Copied(threads[t := pc], s, i, d) {
      CopiedUpdate(threads, t, pc, s, i, d);
    }
  }

  lemma ProperSubset<T>(a: set<T>, b: set<T>, x: T)
    requires a <= b && x in b && x !in a
    ensures |a| < |b|
  {
    assert b == a + {x} + (b - a - {x});
    assert |a + {x}| == |a| + 1;
    SubsetSize(a + {x}, b);
  }

  /** A step of thread t that changes the migration object, given that it keeps the accounts. */
  lemma JobStepKeepsInv(st: State, t: nat, m': Memory, pc: PC)
    requires Inv(st) && t < |st.threads| && SameJob(st.mem, m') && Shape(m')
    requires PcShape(m', pc) && WorkerOk(m', pc)
    requires st.mem.mig.value.status % 2 == 1 ==> m'.mig.value.status % 2 == 1
    requires st.mem.mig.value.overflowed ==> m'.mig.value.overflowed
    requires st.mem.mig.value.remaining == 0 ==> m'.mig.value.remaining == 0
    requires forall s, i, d :: Copying(st.threads[t], s, i, d) ==> Copying(pc, s, i, d)
    requires forall t' :: 0 <= t' < |st.threads| && t' != t && UnitOf(st.threads[t']).Some? ==>
               UnitOf(st.threads[t']).value !in m'.mig.value.done && UnitOf(st.threads[t']).value !in m'.mig.value.failed
    requires Exclusive(st.threads[t := pc])
    requires UnitsOk(m') && ClaimsOk(m', st.threads[t := pc]) && StatusOk(m'.mig, st.threads[t := pc])
    ensures Inv(State(m', st.threads[t := pc]))
  {
    hide TablesOk, SourcesOk, DestOk, CopiesOk, UnitsOk, ClaimsOk, StatusOk, Exclusive, Shape, PcShape, WorkerOk;
    var m, threads := st.mem, st.threads;
    SameJobKeepsTables(m, m');
    CopiesKept(m, threads, m', t, pc);
    forall t' | 0 <= t' < |threads| && t' != t ensures PcShape(m', threads[t']) && WorkerOk(m', threads[t']) {
      BystanderOk(m, m', threads[t']);
    }
  }

  /** Setting a unit aside: thread t stops holding it and it is recorded as done or failed. */
  lemma ReleaseUnit(threads: seq<PC>, t: nat, pc: PC, mine: Unit)
    requires t < |threads| && UnitOf(threads[t]) == Some(mine) && UnitOf(pc).None? && Exclusive(threads)
    ensures Exclusive(threads[t := pc])
    ensures forall n :: Held(threads[t := pc], n) <==> Held(threads, n) && n != mine
    ensures forall t' :: 0 <= t' < |threads| && t' != t ==> UnitOf(threads[t']) != Some(mine)
  {
    var after := threads[t := pc];
    forall n | n != mine ensures Held(after, n) <==> Held(threads, n) {
      HeldUpdate(threads, t, pc, n);
    }
    forall t' | 0 <= t' < |threads| && t' != t ensures UnitOf(threads[t']) != Some(mine) {
      if t' < t { assert UnitOf(threads[t']).Some? ==> UnitOf(threads[t']) != UnitOf(threads[t]); }
    }
  }

  /** Claiming a unit nobody holds. */
  lemma TakeUnit(threads: seq<PC>, t: nat, pc: PC, mine: Unit)
    requires t < |threads| && UnitOf(threads[t]).None? && UnitOf(pc) == Some(mine) && Exclusive(threads) && !Held(threads, mine)
    ensures Exclusive(threads[t := pc])
    ensures forall n :: Held(threads[t := pc], n) <==> Held(threads, n) || n == mine
  {
    var after := threads[t := pc];
    assert UnitOf(after[t]) == Some(mine);
    forall n | n != mine ensures Held(after, n) <==> Held(threads, n) {
      HeldUpdate(threads, t, pc, n);
    }
    assert forall t' :: 0 <= t' < |threads| ==> UnitOf(threads[t']) != Some(mine);
  }

  lemma ClaimedUnit(m: Memory, threads: seq<PC>, s: nat)
    requires Shape(m) && m.mig.Some? && UnitsOk(m) && ClaimsOk(m, threads) && s < |m.mig.value.sources|
    requires m.mig.value.index[s] < |m.tables[m.mig.value.sources[s]]|
    ensures var g := m.mig.value;
            var mine := Unit(s, g.index[s] / UNIT_SIZE);
            && UNIT_SIZE * mine.u == g.index[s]
            && mine in AllUnits(m.tables, g.sources)
            && mine !in g.done && mine !in g.failed && !Held(threads, mine)
  {
  }

  /** A unit looks the same while tables and sources do. */
  lemma UnitStays(m: Memory, m': Memory, s: nat, u: nat)
    requires Shape(m) && Shape(m') && m.mig.Some? && m'.mig.Some? && m'.tables == m.tables && m'.mig.value.sources == m.mig.value.sources
    requires UnitShape(m, s, u)
    ensures UnitShape(m', s, u) && UnitRedirected(m', s, u) == UnitRedirected(m, s, u)
  {
  }

  lemma ClaimIndex(m: Memory, m': Memory, s: nat)
    requires Shape(m) && m.mig.Some? && UnitsOk(m) && s < |m.mig.value.sources|
    requires m' == m.(mig := Some(m.mig.value.(index := m.mig.value.index[s := m.mig.value.index[s] + UNIT_SIZE])))
    ensures Shape(m') && UnitsOk(m')
  {
    hide UnitRedirected, AllUnits, UnitShape;
    forall n | n in m.mig.value.done ensures UnitShape(m', n.s, n.u) && UnitRedirected(m', n.s, n.u) {
      UnitStays(m, m', n.s, n.u);
    }
  }

  lemma ClaimedUnits(m: Memory, threads: seq<PC>, m': Memory, after: seq<PC>, s: nat)
    requires Shape(m) && m.mig.Some? && UnitsOk(m) && ClaimsOk(m, threads) && s < |m.mig.value.sources|
    requires m' == m.(mig := Some(m.mig.value.(index := m.mig.value.index[s := m.mig.value.index[s] + UNIT_SIZE])))
    requires var g := m.mig.value;
             forall n :: Held(after, n) <==>
               Held(threads, n) || (g.index[s] < |m.tables[g.sources[s]]| && n == Unit(s, g.index[s] / UNIT_SIZE))
    ensures Shape(m') && UnitsOk(m') && ClaimsOk(m', after)
  {
    var g := m.mig.value;
    var start := g.index[s];
    ClaimIndex(m, m', s);
    hide UnitRedirected, Held, UnitShape;
    forall n | n in AllUnits(m.tables, g.sources)
      ensures UNIT_SIZE * n.u < m'.mig.value.index[n.s] <==> n in g.done || n in g.failed || Held(after, n)
    {
      if n.s == s {
        assert start % UNIT_SIZE == 0;
        assert UNIT_SIZE * n.u < |m.tables[g.sources[s]]|;
        assert UNIT_SIZE * n.u < start + UNIT_SIZE <==> UNIT_SIZE * n.u < start || n.u == start / UNIT_SIZE;
      }
    }
  }

  lemma ClaimedPc(m: Memory, pc: PC)
    requires Shape(m) && PcShape(m, pc) && WorkerOk(m, pc) && pc.Claiming? && UnitsOk(m)
    requires var g := m.mig.value;
             g.index[pc.s] < |m.tables[g.sources[pc.s]]| ==>
               Unit(pc.s, g.index[pc.s] / UNIT_SIZE) !in g.done && Unit(pc.s, g.index[pc.s] / UNIT_SIZE) !in g.failed
    ensures var (m', pc') := Effect(m, pc, Claim);
            SameJob(m, m') && Shape(m') && PcShape(m', pc') && WorkerOk(m', pc')
  {
    var (m', pc') := Effect(m, pc, Claim);
    assert m.mig.value.index[pc.s] % UNIT_SIZE == 0;
    hide UnitsOk;
    assert Exhausted(m, pc.s);
    assert Exhausted(m', pc.s);
  }

  lemma UnitsKept(threads: seq<PC>, t: nat, pc: PC)
    requires t < |threads| && UnitOf(threads[t]) == UnitOf(pc) && Exclusive(threads)
    ensures Exclusive(threads[t := pc])
    ensures forall n :: Held(threads[t := pc], n) <==> Held(threads, n)
  {
    forall n ensures Held(threads[t := pc], n) <==> Held(threads, n) {
      HeldUpdate(threads, t, pc, n);
    }
  }

  lemma ClaimAccounts(m: Memory, threads: seq<PC>, t: nat)
    requires Shape(m) && t < |threads| && threads[t].Claiming? && PcShape(m, threads[t]) && WorkerOk(m, threads[t])
    requires UnitsOk(m) && ClaimsOk(m, threads) && Exclusive(threads)
    ensures var (m', pc) := Effect(m, threads[t], Claim);
            && Shape(m') && SameJob(m, m') && PcShape(m', pc) && WorkerOk(m', pc)
            && UnitsOk(m') && ClaimsOk(m', threads[t := pc]) && Exclusive(threads[t := pc])
  {
    hide UnitsOk, ClaimsOk, Exclusive, Held, WorkerOk;
    var s := threads[t].s;
    var (m', pc) := Effect(m, threads[t], Claim);
    if m.mig.value.index[s] < |m.tables[m.mig.value.sources[s]]| {
      ClaimedUnit(m, threads, s);
      TakeUnit(threads, t, pc, Unit(s, m.mig.value.index[s] / UNIT_SIZE));
    } else {
      UnitsKept(threads, t, pc);
    }
    ClaimedUnits(m, threads, m', threads[t := pc], s);
    ClaimedPc(m, threads[t]);
  }

  lemma ClaimKeepsInv(st: State, t: nat)
    requires Inv(st) && CanStep(st, t, Claim)
    ensures Inv(Step(st, t, Claim))
  {
    hide TablesOk, SourcesOk, DestOk, CopiesOk, UnitsOk, ClaimsOk, Shape, PcShape, WorkerOk, Held, Exclusive;
    var (m', pc) := Effect(st.mem, st.threads[t], Claim);
    InsideUpdate(st.threads, t, pc);
    EndingUpdate(st.threads, t, pc);
    ClaimAccounts(st.mem, st.threads, t);
    BystandersUnits(st.mem, st.threads);
    JobStepKeepsInv(st, t, m', pc);
  }

  lemma IsUnit(m: Memory, n: Unit)
    requires Shape(m) && m.mig.Some? && UnitShape(m, n.s, n.u)
    ensures n in AllUnits(m.tables, m.mig.value.sources)
  {
  }

  lemma DoneShapes(m: Memory, m': Memory, mine: Unit)
    requires Shape(m) && Shape(m') && m.mig.Some? && UnitsOk(m) && m'.mig.Some?
    requires UnitShape(m, mine.s, mine.u) && UnitRedirected(m, mine.s, mine.u)
    requires m'.tables == m.tables && m'.mig.value.sources == m.mig.value.sources && m'.mig.value.done <= m.mig.value.done + {mine}
    ensures forall n :: n in m'.mig.value.done ==> UnitShape(m', n.s, n.u) && UnitRedirected(m', n.s, n.u)
  {
    hide AllUnits;
    forall n | n in m'.mig.value.done ensures UnitShape(m', n.s, n.u) && UnitRedirected(m', n.s, n.u) {
      assert UnitShape(m, n.s, n.u) && UnitRedirected(m, n.s, n.u);
      UnitStays(m, m', n.s, n.u);
    }
  }

  lemma DoneUnits(m: Memory, m': Memory, mine: Unit)
    requires Shape(m) && Shape(m') && m.mig.Some? && UnitsOk(m)
    requires UnitShape(m, mine.s, mine.u) && UnitRedirected(m, mine.s, mine.u) && mine !in m.mig.value.done && mine !in m.mig.value.failed
    requires m' == m.(mig := Some(m.mig.value.(remaining := m.mig.value.remaining - 1, done := m.mig.value.done + {mine})))
    ensures UnitsOk(m') && m'.mig.value.remaining >= 0
  {
    hide UnitRedirected, UnitShape, AllUnits;
    var g := m.mig.value;
    IsUnit(m, mine);
    DoneShapes(m, m', mine);
    ProperSubset(g.done, AllUnits(m.tables, g.sources), mine);
  }

  /** A held unit that becomes done or failed stays claimed. */
  lemma SettledClaims(m: Memory, threads: seq<PC>, m': Memory, after: seq<PC>, mine: Unit)
    requires Shape(m) && Shape(m') && ClaimsOk(m, threads) && SameJob(m, m')
    requires m'.mig.value.index == m.mig.value.index
    requires m'.mig.value.done + m'.mig.value.failed == m.mig.value.done + m.mig.value.failed + {mine}
    requires Held(threads, mine) && forall n :: Held(after, n) <==> Held(threads, n) && n != mine
    ensures ClaimsOk(m', after)
  {
    hide Held;
    var g, g' := m.mig.value, m'.mig.value;
    forall n | n in AllUnits(m'.tables, g'.sources)
      ensures UNIT_SIZE * n.u < g'.index[n.s] <==> n in g'.done || n in g'.failed || Held(after, n)
    {
      assert n in AllUnits(m.tables, g.sources);
      assert n in g'.done || n in g'.failed <==> n in g'.done + g'.failed;
      assert n in g.done || n in g.failed <==> n in g.done + g.failed;
    }
  }

  lemma FinishUnitAccounts(m: Memory, threads: seq<PC>, t: nat)
    requires Shape(m) && t < |threads| && threads[t].UnitDone? && PcShape(m, threads[t]) && WorkerOk(m, threads[t])
    requires UnitsOk(m) && ClaimsOk(m, threads) && Exclusive(threads)
    ensures var (m', pc) := Effect(m, threads[t], FinishUnit);
            && Shape(m') && SameJob(m, m') && PcShape(m', pc) && WorkerOk(m', pc)
            && UnitsOk(m') && ClaimsOk(m', threads[t := pc]) && Exclusive(threads[t := pc])
            && m'.mig.value.remaining >= 0 && m.mig.value.remaining != 0
            && (forall t' :: 0 <= t' < |threads| && t' != t ==> UnitOf(threads[t']) != UnitOf(threads[t]))
  {
    hide UnitsOk, ClaimsOk, Exclusive, Held, PcShape, WorkerOk;
    var (m', pc) := Effect(m, threads[t], FinishUnit);
    var mine := Unit(threads[t].s, threads[t].u);
    FinishedPc(m, threads[t]);
    ReleaseUnit(threads, t, pc, mine);
    HeldNow(threads, t);
    DoneUnits(m, m', mine);
    SettledClaims(m, threads, m', threads[t := pc], mine);
  }

  lemma FinishedPc(m: Memory, pc: PC)
    requires Shape(m) && PcShape(m, pc) && WorkerOk(m, pc) && pc.UnitDone?
    ensures var (m', pc') := Effect(m, pc, FinishUnit);
            SameJob(m, m') && Shape(m') && PcShape(m', pc') && WorkerOk(m', pc')
    ensures UnitShape(m, pc.s, pc.u) && UnitRedirected(m, pc.s, pc.u)
    ensures Unit(pc.s, pc.u) !in m.mig.value.done && Unit(pc.s, pc.u) !in m.mig.value.failed
  {
    var (m', pc') := Effect(m, pc, FinishUnit);
    assert Exhausted(m, pc.s);
    assert Exhausted(m', pc.s);
  }

  lemma HeldNow(threads: seq<PC>, t: nat)
    requires t < |threads| && UnitOf(threads[t]).Some?
    ensures Held(threads, UnitOf(threads[t]).value)
  {
  }

  lemma FinishUnitKeepsInv(st: State, t: nat)
    requires Inv(st) && CanStep(st, t, FinishUnit)
    ensures Inv(Step(st, t, FinishUnit))
  {
    hide TablesOk, SourcesOk, DestOk, CopiesOk, UnitsOk, ClaimsOk, Shape, PcShape, WorkerOk, Held, Exclusive;
    var (m', pc) := Effect(st.mem, st.threads[t], FinishUnit);
    InsideUpdate(st.threads, t, pc);
    EndingUpdate(st.threads, t, pc);
    FinishUnitAccounts(st.mem, st.threads, t);
    BystandersUnits(st.mem, st.threads);
    JobStepKeepsInv(st, t, m', pc);
  }

  lemma BystandersUnits(m: Memory, threads: seq<PC>)
    requires Shape(m) && ThreadsOk(m, threads)
    ensures forall t :: 0 <= t < |threads| && UnitOf(threads[t]).Some? ==>
              m.mig.Some? && UnitOf(threads[t]).value !in m.mig.value.done && UnitOf(threads[t]).value !in m.mig.value.failed
  {
  }

  lemma SameDone(m: Memory, m': Memory)
    requires Shape(m) && Shape(m') && m.mig.Some? && UnitsOk(m) && m'.mig.Some?
    requires m'.tables == m.tables && m'.mig.value.sources == m.mig.value.sources && m'.mig.value.done == m.mig.value.done
    ensures forall n :: n in m'.mig.value.done ==> UnitShape(m', n.s, n.u) && UnitRedirected(m', n.s, n.u)
  {
    hide AllUnits;
    forall n | n in m'.mig.value.done ensures UnitShape(m', n.s, n.u) && UnitRedirected(m', n.s, n.u) {
      UnitStays(m, m', n.s, n.u);
    }
  }

  lemma FailedUnits(m: Memory, m': Memory, mine: Unit)
    requires Shape(m) && Shape(m') && m.mig.Some? && UnitsOk(m)
    requires UnitShape(m, mine.s, mine.u) && mine !in m.mig.value.done && mine !in m.mig.value.failed
    requires m' == m.(mig := Some(m.mig.value.(overflowed := true, failed := m.mig.value.failed + {mine})))
    ensures UnitsOk(m')
  {
    hide UnitRedirected, UnitShape, AllUnits, Shape;
    IsUnit(m, mine);
    SameDone(m, m');
  }

  lemma MarkOverflowAccounts(m: Memory, threads: seq<PC>, t: nat)
    requires Shape(m) && t < |threads| && threads[t].GivingUp? && PcShape(m, threads[t]) && WorkerOk(m, threads[t])
    requires UnitsOk(m) && ClaimsOk(m, threads) && Exclusive(threads)
    ensures var (m', pc) := Effect(m, threads[t], MarkOverflow);
            && Shape(m') && SameJob(m, m') && PcShape(m', pc) && WorkerOk(m', pc)
            && UnitsOk(m') && ClaimsOk(m', threads[t := pc]) && Exclusive(threads[t := pc])
            && (forall t' :: 0 <= t' < |threads| && t' != t ==> UnitOf(threads[t']) != UnitOf(threads[t]))
  {
    hide UnitsOk, ClaimsOk, Exclusive, Held, PcShape, WorkerOk;
    var (m', pc) := Effect(m, threads[t], MarkOverflow);
    var mine := Unit(threads[t].s, threads[t].u);
    GivenUpPc(m, threads[t]);
    ReleaseUnit(threads, t, pc, mine);
    HeldNow(threads, t);
    FailedUnits(m, m', mine);
    SettledClaims(m, threads, m', threads[t := pc], mine);
  }

  lemma GivenUpPc(m: Memory, pc: PC)
    requires Shape(m) && PcShape(m, pc) && WorkerOk(m, pc) && pc.GivingUp?
    ensures var (m', pc') := Effect(m, pc, MarkOverflow);
            SameJob(m, m') && Shape(m') && PcShape(m', pc') && WorkerOk(m', pc')
    ensures UnitShape(m, pc.s, pc.u)
    ensures Unit(pc.s, pc.u) !in m.mig.value.done && Unit(pc.s, pc.u) !in m.mig.value.failed
  {
  }

  lemma MarkOverflowKeepsInv(st: State, t: nat)
    requires Inv(st) && CanStep(st, t, MarkOverflow)
    ensures Inv(Step(st, t, MarkOverflow))
  {
    hide TablesOk, SourcesOk, DestOk, CopiesOk, UnitsOk, ClaimsOk, Shape, PcShape, WorkerOk, Held, Exclusive;
    var (m', pc) := Effect(st.mem, st.threads[t], MarkOverflow);
    InsideUpdate(st.threads, t, pc);
    EndingUpdate(st.threads, t, pc);
    MarkOverflowAccounts(st.mem, st.threads, t);
    BystandersUnits(st.mem, st.threads);
    JobStepKeepsInv(st, t, m', pc);
  }

  /** Steps that change the status word only. */
  lemma StatusStepKeepsInv(st: State, t: nat, status: nat, pc: PC)
    requires Inv(st) && t < |st.threads| && st.mem.mig.Some?
    requires UnitOf(pc).None? && UnitOf(st.threads[t]).None?
    requires var m' := st.mem.(mig := Some(st.mem.mig.value.(status := status))); Shape(m') && PcShape(m', pc) && WorkerOk(m', pc)
    requires st.mem.mig.value.status % 2 == 1 ==> status % 2 == 1
    requires StatusOk(Some(st.mem.mig.value.(status := status)), st.threads[t := pc])
    ensures Inv(State(st.mem.(mig := Some(st.mem.mig.value.(status := status))), st.threads[t := pc]))
  {
    var m, threads := st.mem, st.threads;
    var m' := m.(mig := Some(m.mig.value.(status := status)));
    var after := threads[t := pc];
    SameJobKeepsTables(m, m');
    CopiesKept(m, threads, m', t, pc);
    forall t' | 0 <= t' < |after| ensures PcShape(m', after[t']) && WorkerOk(m', after[t']) {
      if t' != t {
        BystanderOk(m, m', threads[t']);
      }
    }
    MoveClaims(m, threads, t, pc);
    StatusUnits(m, m', after);
    MoveExclusive(threads, t, pc);
    hide PcShape, WorkerOk, TablesOk, SourcesOk, DestOk, CopiesOk, UnitsOk, ClaimsOk, StatusOk, Exclusive, Shape, SameJob;
  }

  lemma StatusUnits(m: Memory, m': Memory, threads: seq<PC>)
    requires Shape(m) && Shape(m') && m.mig.Some? && m' == m.(mig := m'.mig) && m'.mig.Some?
    requires m'.mig.value == m.mig.value.(status := m'.mig.value.status)
    requires UnitsOk(m) && ClaimsOk(m, threads)
    ensures UnitsOk(m') && ClaimsOk(m', threads)
  {
    hide Held;
  }


  lemma EnterStatus(g: Migration, threads: seq<PC>, t: nat)
    requires t < |threads| && threads[t].Probed? && StatusOk(Some(g), threads) && g.status % 2 == 0
    ensures StatusOk(Some(g.(status := g.status + 2)), threads[t := Checking(0)])
  {
    InsideUpdate(threads, t, Checking(0));
    EndingUpdate(threads, t, Checking(0));
    hide InsideSet;
  }

  lemma EnterKeepsInv(st: State, t: nat)
    requires Inv(st) && CanStep(st, t, Enter)
    ensures Inv(Step(st, t, Enter))
  {
    hide TablesOk, SourcesOk, DestOk, CopiesOk, UnitsOk, ClaimsOk, Held, Exclusive, MutatorTable, MutatorCell, StageShape, StatusOk;
    var m, pc := st.mem, st.threads[t];
    if m.mig.Some? && pc.gen == m.gen && m.mig.value.status == pc.probe {
      assert PcShape(m, pc);
      EnterStatus(m.mig.value, st.threads, t);
      StatusStepKeepsInv(st, t, pc.probe + 2, Checking(0));
    } else {
      MoveKeepsInv(st, t, Idle);
    }
  }

  lemma SetEndStatus(g: Migration, threads: seq<PC>, t: nat)
    requires t < |threads| && threads[t].Ending? && StatusOk(Some(g), threads) && (g.overflowed || g.remaining == 0)
    ensures StatusOk(Some(g.(status := if g.status % 2 == 1 then g.status else g.status + 1)), threads[t := Leaving])
  {
    InsideUpdate(threads, t, Leaving);
    EndingUpdate(threads, t, Leaving);
    assert t in InsideSet(threads);
    assert |InsideSet(threads)| > 0;
    hide InsideSet;
  }

  lemma SetEndKeepsInv(st: State, t: nat)
    requires Inv(st) && CanStep(st, t, SetEnd)
    ensures Inv(Step(st, t, SetEnd))
  {
    SetEndFacts(st, t);
    hide Inv, CanStep, Step, StatusOk, Shape;
    SetEndBy(st, t);
  }

  lemma SetEndFacts(st: State, t: nat)
    requires Inv(st) && CanStep(st, t, SetEnd)
    ensures t < |st.threads| && Shape(st.mem) && st.mem.mig.Some? && st.threads[t].Ending? && StatusOk(st.mem.mig, st.threads)
    ensures st.mem.mig.value.overflowed || st.mem.mig.value.remaining == 0
    ensures var g := st.mem.mig.value;
            Step(st, t, SetEnd) == State(st.mem.(mig := Some(g.(status := if g.status % 2 == 1 then g.status else g.status + 1))),
              st.threads[t := Leaving])
  {
    hide TablesOk, SourcesOk, DestOk, CopiesOk, UnitsOk, ClaimsOk, Exclusive, StatusOk;
    assert WorkerOk(st.mem, st.threads[t]);
  }

  lemma SetEndBy(st: State, t: nat)
    requires Inv(st) && t < |st.threads| && Shape(st.mem) && st.mem.mig.Some? && st.threads[t].Ending?
    requires StatusOk(st.mem.mig, st.threads) && (st.mem.mig.value.overflowed || st.mem.mig.value.remaining == 0)
    ensures var g := st.mem.mig.value;
            Inv(State(st.mem.(mig := Some(g.(status := if g.status % 2 == 1 then g.status else g.status + 1))), st.threads[t := Leaving]))
  {
    hide Inv, StatusOk;
    var g := st.mem.mig.value;
    SetEndStatus(g, st.threads, t);
    StatusStepKeepsInv(st, t, if g.status % 2 == 1 then g.status else g.status + 1, Leaving);
  }

  /** Once every unit is claimed and no worker holds one, either the migration overflowed or all units are done. */
  lemma NothingLeft(m: Memory, threads: seq<PC>)
    requires Shape(m) && m.mig.Some? && UnitsOk(m) && ClaimsOk(m, threads)
    requires Exhausted(m, |m.mig.value.sources|)
    requires forall t :: 0 <= t < |threads| ==> UnitOf(threads[t]).None?
    ensures m.mig.value.overflowed || m.mig.value.remaining == 0
  {
    var g := m.mig.value;
    var all := AllUnits(m.tables, g.sources);
    if !g.overflowed {
      forall n | n in all ensures n in g.done {
        assert g.index[n.s] >= |m.tables[g.sources[n.s]]|;
        assert UNIT_SIZE * n.u < g.index[n.s];
        assert !Held(threads, n);
      }
      assert g.done == all;
    }
  }

  /**
   The worker that leaves last finds the end flag set: a worker leaves without setting it only
   when every unit is claimed, and then the units of the other workers end the migration.
   */
  lemma LastLeaverFindsEnd(st: State, t: nat)
    requires Inv(st) && t < |st.threads| && st.threads[t].Leaving?
    requires st.mem.mig.value.status < 4
    ensures st.mem.mig.value.status == 3
    ensures InsideSet(st.threads) == {t}
  {
    var m, threads := st.mem, st.threads;
    var g := m.mig.value;
    var inside := InsideSet(threads);
    assert t in inside;
    SubsetSize({t}, inside);
    assert inside == {t};
    forall t' | 0 <= t' < |threads| && t' != t ensures !Inside(threads[t']) {
      assert t' !in inside;
    }
    hide TablesOk, SourcesOk, DestOk, CopiesOk, UnitsOk, ClaimsOk;
    if g.status % 2 == 0 {
      NothingLeft(m, threads);
      assert false;
    }
  }

  lemma LeaveStatus(g: Migration, threads: seq<PC>, t: nat, pc: PC)
    requires t < |threads| && threads[t].Leaving? && StatusOk(Some(g), threads)
    requires pc == if g.status >= 4 then Idle else Last
    requires g.status >= 4 || g.status == 3
    ensures StatusOk(Some(g.(status := g.status - 2)), threads[t := pc])
  {
    InsideUpdate(threads, t, pc);
    EndingUpdate(threads, t, pc);
    if g.status == 3 {
      assert !SomeLast(threads);
    } else {
      assert SomeEnding(threads) ==> SomeEnding(threads[t := pc]);
      assert InsideSet(threads[t := pc]) == InsideSet(threads) - {t};
      assert g.status - 2 != 1;
    }
  }

  lemma LeaveKeepsInv(st: State, t: nat)
    requires Inv(st) && CanStep(st, t, Leave)
    ensures Inv(Step(st, t, Leave))
  {
    LeaveFacts(st, t);
    hide Inv, CanStep, Step, StatusOk, Shape;
    LeaveStatusFacts(st, t);
    LeaveBy(st, t);
  }

  lemma LeaveStatusFacts(st: State, t: nat)
    requires Inv(st) && t < |st.threads| && st.threads[t].Leaving? && st.mem.mig.Some?
    ensures st.mem.mig.value.status >= 4 || st.mem.mig.value.status == 3
  {
    hide Inv;
    if st.mem.mig.value.status < 4 {
      LastLeaverFindsEnd(st, t);
    }
  }

  lemma LeaveBy(st: State, t: nat)
    requires Inv(st) && t < |st.threads| && st.threads[t].Leaving? && Shape(st.mem) && st.mem.mig.Some?
    requires StatusOk(st.mem.mig, st.threads) && (st.mem.mig.value.status >= 4 || st.mem.mig.value.status == 3)
    ensures var g := st.mem.mig.value;
            Inv(State(st.mem.(mig := Some(g.(status := g.status - 2))), st.threads[t := if g.status >= 4 then Idle else Last]))
  {
    hide Inv, StatusOk, Shape;
    var g := st.mem.mig.value;
    var pc := if g.status >= 4 then Idle else Last;
    LeaveStatus(g, st.threads, t, pc);
    LeftPc(st.mem, g.status - 2, pc);
    hide PcShape, WorkerOk;
    StatusStepKeepsInv(st, t, g.status - 2, pc);
  }

  lemma LeaveFacts(st: State, t: nat)
    requires Inv(st) && CanStep(st, t, Leave)
    ensures t < |st.threads| && Shape(st.mem) && st.mem.mig.Some? && st.threads[t].Leaving? && StatusOk(st.mem.mig, st.threads)
    ensures var g := st.mem.mig.value;
            g.status >= 2 ==> Step(st, t, Leave) == State(st.mem.(mig := Some(g.(status := g.status - 2))),
              st.threads[t := if g.status >= 4 then Idle else Last])
  {
    hide TablesOk, SourcesOk, DestOk, CopiesOk, UnitsOk, ClaimsOk, Exclusive, StatusOk;
  }

  lemma LeftPc(m: Memory, status: nat, pc: PC)
    requires Shape(m) && m.mig.Some? && (pc.Idle? || pc.Last?)
    ensures var m' := m.(mig := Some(m.mig.value.(status := status))); Shape(m') && PcShape(m', pc) && WorkerOk(m', pc)
  {
  }

  // ---------------------------------------------------------------- a thread moves and a cell changes

  /** How the tables change while a migration object stays the same. */
  ghost predicate Evolves(m: Memory, m': Memory) {
    && m' == m.(tables := m'.tables)
    && |m'.tables| == |m.tables|
    && (forall k :: 0 <= k < |m.tables| ==> |m'.tables[k]| == |m.tables[k]|)
    && (forall k, i :: 0 <= k < |m.tables| && 0 <= i < |m.tables[k]| ==>
          && (m.tables[k][i].hash != NULL ==> m'.tables[k][i].hash == m.tables[k][i].hash)
          && (m.tables[k][i].value == REDIRECT ==> m'.tables[k][i].value == REDIRECT))
  }

  ghost predicate StageHolds(m: Memory, pc: PC)
    requires Shape(m)
  {
    && m.mig.Some? && pc.AtCell?
    && pc.s < |m.mig.value.sources|
    && pc.i < |m.tables[m.mig.value.sources[pc.s]]|
    && StageShape(m.tables[m.mig.value.sources[pc.s]][pc.i], m.tables[m.mig.value.dest], pc.stage)
  }

  lemma EvolvedBystander(m: Memory, m': Memory, pc: PC)
    requires Shape(m) && Shape(m') && Evolves(m, m') && PcShape(m, pc) && WorkerOk(m, pc)
    requires pc.AtCell? ==> StageHolds(m', pc)
    ensures PcShape(m', pc) && WorkerOk(m', pc)
  {
    if pc.Checking? || pc.Claiming? || pc.AtCell? || pc.UnitDone? {
      assert Exhausted(m, pc.s);
      assert Exhausted(m', pc.s);
    }
    if pc.UnitDone? {
      assert UnitRedirected(m, pc.s, pc.u);
    }
  }

  lemma EvolvedUnits(m: Memory, threads: seq<PC>, m': Memory)
    requires Shape(m) && Shape(m') && Evolves(m, m') && UnitsOk(m) && ClaimsOk(m, threads)
    ensures UnitsOk(m') && ClaimsOk(m', threads)
  {
    if m.mig.Some? {
      var g := m.mig.value;
      assert AllUnits(m'.tables, g.sources) == AllUnits(m.tables, g.sources);
      forall n | n in g.done ensures UnitShape(m', n.s, n.u) && UnitRedirected(m', n.s, n.u) {
        assert UnitRedirected(m, n.s, n.u);
      }
    }
  }

  lemma SameClaims(m: Memory, threads: seq<PC>, after: seq<PC>)
    requires Shape(m) && ClaimsOk(m, threads) && forall n :: Held(after, n) <==> Held(threads, n)
    ensures ClaimsOk(m, after)
  {
  }

  /** A step of thread t that changes a cell, given that the new tables are in order. */
  lemma CellStepKeepsInv(st: State, t: nat, m': Memory, pc: PC)
    requires Inv(st) && t < |st.threads| && Evolves(st.mem, m') && Shape(m')
    requires TablesOk(m') && SourcesOk(m') && DestOk(m') && CopiesOk(m', st.threads[t := pc])
    requires PcShape(m', pc) && WorkerOk(m', pc)
    requires UnitOf(pc) == UnitOf(st.threads[t]) && Inside(pc) == Inside(st.threads[t])
    requires !st.threads[t].Ending? && !st.threads[t].Last? && !pc.Last?
    requires forall t' :: 0 <= t' < |st.threads| && t' != t && st.threads[t'].AtCell? ==> StageHolds(m', st.threads[t'])
    ensures Inv(State(m', st.threads[t := pc]))
  {
    hide TablesOk, SourcesOk, DestOk, CopiesOk, UnitsOk, ClaimsOk, Exclusive, Shape, PcShape, WorkerOk, StageHolds, Held;
    var m, threads := st.mem, st.threads;
    var after := threads[t := pc];
    InsideUpdate(threads, t, pc);
    EndingUpdate(threads, t, pc);
    UnitsKept(threads, t, pc);
    EvolvedUnits(m, threads, m');
    SameClaims(m', threads, after);
    forall t' | 0 <= t' < |threads| && t' != t ensures PcShape(m', threads[t']) && WorkerOk(m', threads[t']) {
      EvolvedBystander(m, m', threads[t']);
    }
    assert ThreadsOk(m', after);
  }

  // Redirecting a source cell

  lemma RedirectTables(m: Memory, s: nat, i: nat)
    requires Shape(m) && m.mig.Some? && s < |m.mig.value.sources| && i < |m.tables[m.mig.value.sources[s]]|
    requires TablesOk(m) && DestOk(m)
    ensures var k := m.mig.value.sources[s];
            var m' := SetCell(m, k, i, m.tables[k][i].(value := REDIRECT));
            Shape(m') && Evolves(m, m') && TablesOk(m') && DestOk(m')
  {
    var k := m.mig.value.sources[s];
    var m' := SetCell(m, k, i, m.tables[k][i].(value := REDIRECT));
    assert forall k' :: RetiredTable(m', k') ==> k' != k;
    assert forall k' :: 0 <= k' < |m.tables| && k' != k ==> m'.tables[k'] == m.tables[k'];
    assert TableOk(m.tables[k]);
    assert TableOk(m'.tables[k]);
    assert forall h :: Absent(m'.tables[m.root], h) ==> Absent(m.tables[m.root], h) by {
      forall h | Absent(m'.tables[m.root], h) ensures Absent(m.tables[m.root], h) {
        assert forall j :: 0 <= j < |m.tables[m.root]| ==> m.tables[m.root][j].hash == m'.tables[m.root][j].hash;
      }
    }
  }

  lemma RedirectSources(m: Memory, s: nat, i: nat)
    requires Shape(m) && m.mig.Some? && s < |m.mig.value.sources| && i < |m.tables[m.mig.value.sources[s]]|
    requires SourcesOk(m)
    ensures var k := m.mig.value.sources[s];
            var m' := SetCell(m, k, i, m.tables[k][i].(value := REDIRECT));
            && Shape(m') && SourcesOk(m')
            && (forall s', i', h :: OpenAt(m', s', i', h) ==> OpenAt(m, s', i', h) && !(s' == s && i' == i))
  {
    var k := m.mig.value.sources[s];
    var m' := SetCell(m, k, i, m.tables[k][i].(value := REDIRECT));
    forall s', i', h | OpenAt(m', s', i', h) ensures OpenAt(m, s', i', h) && !(s' == s && i' == i) {
    }
    forall s', h | 0 <= s' < |Sources(m')| && !Absent(m'.tables[Sources(m')[s']], h)
      ensures !Absent(m.tables[Sources(m)[s']], h)
    {
    }
    forall h | Absent(m'.tables[m.root], h) ensures Absent(m.tables[m.root], h) {
      assert forall j :: 0 <= j < |m.tables[m.root]| ==> m.tables[m.root][j].hash == m'.tables[m.root][j].hash;
    }
  }

  lemma RedirectCopies(m: Memory, threads: seq<PC>, m': Memory, t: nat, pc: PC)
    requires Shape(m) && Shape(m') && CopiesOk(m, threads) && t < |threads| && threads[t].AtCell?
    requires m.mig.Some? && m'.mig == m.mig && m.mig.value.dest < |m'.tables| && m'.tables[m.mig.value.dest] == m.tables[m.mig.value.dest]
    requires forall s', i', h :: OpenAt(m', s', i', h) ==> OpenAt(m, s', i', h) && !(s' == threads[t].s && i' == threads[t].i)
    ensures CopiesOk(m', threads[t := pc])
  {
    var dest := m.tables[m.mig.value.dest];
    var after := threads[t := pc];
    forall d, s, i | 0 <= d < |dest| && dest[d].hash != NULL && OpenAt(m', s, i, dest[d].hash) ensures Copied(after, s, i, d) {
      assert OpenAt(m, s, i, dest[d].hash);
      CopiedUpdate(threads, t, pc, s, i, d);
    }
  }

  /** Two workers never stand at the same source cell. */
  lemma ApartAtCells(threads: seq<PC>, t: nat, t': nat)
    requires Exclusive(threads) && t < |threads| && t' < |threads| && t != t' && threads[t].AtCell? && threads[t'].AtCell?
    ensures threads[t].s != threads[t'].s || threads[t].i != threads[t'].i
  {
    assert t < t' ==> UnitOf(threads[t]) != UnitOf(threads[t']);
    assert t' < t ==> UnitOf(threads[t']) != UnitOf(threads[t]);
  }

  lemma RedirectBystander(m: Memory, s: nat, i: nat, pc: PC)
    requires Shape(m) && m.mig.Some? && s < |m.mig.value.sources| && i < |m.tables[m.mig.value.sources[s]]|
    requires pc.AtCell? && PcShape(m, pc) && (pc.s != s || pc.i != i)
    requires var k := m.mig.value.sources[s]; Shape(SetCell(m, k, i, m.tables[k][i].(value := REDIRECT)))
    ensures var k := m.mig.value.sources[s]; StageHolds(SetCell(m, k, i, m.tables[k][i].(value := REDIRECT)), pc)
  {
  }

  /** Where a worker stands once its cell is redirected. */
  lemma AdvanceOk(m: Memory, m': Memory, pc: PC)
    requires Shape(m) && PcShape(m, pc) && WorkerOk(m, pc) && pc.AtCell?
    requires Shape(m') && Evolves(m, m') && m'.tables[m.mig.value.sources[pc.s]][pc.i].value == REDIRECT
    ensures var next := Advance(|m.tables[m.mig.value.sources[pc.s]]|, pc.s, pc.i);
            PcShape(m', next) && WorkerOk(m', next) && UnitOf(next) == UnitOf(pc)
  {
    var tb := m'.tables[m.mig.value.sources[pc.s]];
    var u := pc.i / UNIT_SIZE;
    var next := Advance(|m.tables[m.mig.value.sources[pc.s]]|, pc.s, pc.i);
    assert Exhausted(m, pc.s);
    assert Exhausted(m', pc.s);
    assert forall j :: UNIT_SIZE * u <= j < pc.i + 1 ==> tb[j].value == REDIRECT;
    if next.AtCell? {
      assert (pc.i + 1) / UNIT_SIZE == u;
    } else {
      assert UnitEnd(|tb|, u) <= pc.i + 1;
    }
  }

  lemma RedirectKeepsInv(st: State, t: nat)
    requires Inv(st) && t < |st.threads| && st.threads[t].AtCell?
    ensures var pc := st.threads[t];
            var m := st.mem;
            var k := m.mig.value.sources[pc.s];
            Inv(State(SetCell(m, k, pc.i, m.tables[k][pc.i].(value := REDIRECT)), st.threads[t := Advance(|m.tables[k]|, pc.s, pc.i)]))
  {
    var m, threads := st.mem, st.threads;
    var pc := threads[t];
    assert PcShape(m, pc);
    var k := m.mig.value.sources[pc.s];
    var m' := SetCell(m, k, pc.i, m.tables[k][pc.i].(value := REDIRECT));
    var next := Advance(|m.tables[k]|, pc.s, pc.i);
    assert m'.tables[m.mig.value.dest] == m.tables[m.mig.value.dest] && m'.tables[k][pc.i].value == REDIRECT;
    hide TablesOk, SourcesOk, DestOk, CopiesOk, UnitsOk, ClaimsOk, Exclusive, Shape, PcShape, WorkerOk, StageHolds, Held, StatusOk, OpenAt;
    RedirectTables(m, pc.s, pc.i);
    RedirectSources(m, pc.s, pc.i);
    RedirectCopies(m, threads, m', t, next);
    AdvanceOk(m, m', pc);
    forall t' | 0 <= t' < |threads| && t' != t && threads[t'].AtCell? ensures StageHolds(m', threads[t']) {
      ApartAtCells(threads, t, t');
      RedirectBystander(m, pc.s, pc.i, threads[t']);
    }
    CellStepKeepsInv(st, t, m', next);
  }

  // Reserving and writing a destination cell

  lemma RootKnows(m: Memory, s: nat, h: nat)
    requires Shape(m) && SourcesOk(m) && h != NULL && s < |Sources(m)| && !Absent(m.tables[Sources(m)[s]], h)
    ensures !Absent(m.tables[m.root], h)
  {
  }

  /** A change of the destination's cell d that leaves its hash alone or sets a null one. */
  ghost predicate DestChange(m: Memory, d: nat, c: Cell)
    requires Shape(m)
  {
    && m.mig.Some?
    && d < |m.tables[m.mig.value.dest]|
    && c.hash != NULL && c.value != REDIRECT
    && var old_ := m.tables[m.mig.value.dest][d];
    && (old_.hash == c.hash || (old_.hash == NULL && Absent(m.tables[m.mig.value.dest], c.hash)))
    && !Absent(m.tables[m.root], c.hash)
  }

  lemma DestChangeTables(m: Memory, d: nat, c: Cell)
    requires Shape(m) && TablesOk(m) && SourcesOk(m) && DestOk(m) && DestChange(m, d, c)
    ensures var m' := SetCell(m, m.mig.value.dest, d, c);
            && Shape(m') && Evolves(m, m') && TablesOk(m') && SourcesOk(m') && DestOk(m')
            && (forall s, i, h :: OpenAt(m', s, i, h) <==> OpenAt(m, s, i, h))
  {
    var k := m.mig.value.dest;
    var m' := SetCell(m, k, d, c);
    assert TableOk(m.tables[k]) && TableOk(m'.tables[k]);
    assert forall s :: 0 <= s < |Sources(m)| ==> m'.tables[Sources(m)[s]] == m.tables[Sources(m)[s]];
    forall s, i, h ensures OpenAt(m', s, i, h) <==> OpenAt(m, s, i, h) {
    }
    DestChangeSources(m, d, c);
    DestChangeDest(m, d, c);
    hide SourcesOk, DestOk, OpenAt;
    forall k' | 0 <= k' < |m'.tables| && RetiredTable(m', k') ensures AllRedirect(m'.tables[k']) {
      assert k' != k;
    }
  }

  lemma DestChangeSources(m: Memory, d: nat, c: Cell)
    requires Shape(m) && SourcesOk(m) && DestChange(m, d, c)
    ensures var m' := SetCell(m, m.mig.value.dest, d, c); Shape(m') && SourcesOk(m')
  {
    var m' := SetCell(m, m.mig.value.dest, d, c);
    assert forall s :: 0 <= s < |Sources(m)| ==> m'.tables[Sources(m)[s]] == m.tables[Sources(m)[s]];
    assert m'.tables[m.root] == m.tables[Sources(m)[0]] == m.tables[m.root];
    forall s, i, h ensures OpenAt(m', s, i, h) <==> OpenAt(m, s, i, h) {
    }
    hide OpenAt;
  }

  lemma DestChangeDest(m: Memory, d: nat, c: Cell)
    requires Shape(m) && DestOk(m) && DestChange(m, d, c)
    ensures var m' := SetCell(m, m.mig.value.dest, d, c); Shape(m') && DestOk(m')
  {
    var k := m.mig.value.dest;
    var m' := SetCell(m, k, d, c);
    assert m'.tables[m.root] == m.tables[Sources(m)[0]] == m.tables[m.root];
    forall h | h != NULL && Absent(m'.tables[m.root], h) ensures Absent(m'.tables[k], h) {
      assert h != c.hash;
      assert Absent(m.tables[k], h);
    }
  }

  lemma DestChangeBystander(m: Memory, d: nat, c: Cell, pc: PC)
    requires Shape(m) && DestChange(m, d, c) && Shape(SetCell(m, m.mig.value.dest, d, c)) && pc.AtCell? && PcShape(m, pc)
    requires pc.stage.Redirecting? && pc.stage.d == d ==> c.value == pc.stage.v
    ensures StageHolds(SetCell(m, m.mig.value.dest, d, c), pc)
  {
  }

  lemma InsertedCopies(m: Memory, threads: seq<PC>, t: nat, d: nat)
    requires Shape(m) && SourcesOk(m) && CopiesOk(m, threads) && t < |threads| && PcShape(m, threads[t])
    requires threads[t].AtCell? && threads[t].stage.Inserting?
    requires d < |m.tables[m.mig.value.dest]| && m.tables[m.mig.value.dest][d].hash == NULL
    requires DestChange(m, d, m.tables[m.mig.value.dest][d].(hash := threads[t].stage.h))
    requires var c := m.tables[m.mig.value.dest][d].(hash := threads[t].stage.h);
             var m' := SetCell(m, m.mig.value.dest, d, c);
             Shape(m') && forall s, i, h :: OpenAt(m', s, i, h) <==> OpenAt(m, s, i, h)
    ensures var pc := threads[t];
            var c := m.tables[m.mig.value.dest][d].(hash := pc.stage.h);
            CopiesOk(SetCell(m, m.mig.value.dest, d, c), threads[t := pc.(stage := Storing(pc.stage.h, pc.stage.v, d))])
  {
    var pc := threads[t];
    var k := m.mig.value.dest;
    var c := m.tables[k][d].(hash := pc.stage.h);
    var m' := SetCell(m, k, d, c);
    var after := threads[t := pc.(stage := Storing(pc.stage.h, pc.stage.v, d))];
    assert OpenAt(m, pc.s, pc.i, pc.stage.h);
    forall d', s, i | 0 <= d' < |m'.tables[k]| && m'.tables[k][d'].hash != NULL && OpenAt(m', s, i, m'.tables[k][d'].hash)
      ensures Copied(after, s, i, d')
    {
      assert OpenAt(m, s, i, m'.tables[k][d'].hash);
      if d' == d {
        assert s == pc.s && i == pc.i;
        assert Copying(after[t], s, i, d);
      } else {
        CopiedUpdate(threads, t, after[t], s, i, d');
      }
    }
  }

  /** What a worker knows when its insert succeeds, and what the insert does. */
  lemma InsertNewFacts(st: State, t: nat, d: nat)
    requires Inv(st) && CanStep(st, t, InsertNew(d))
    ensures var m, pc := st.mem, st.threads[t];
            && PcShape(m, pc) && WorkerOk(m, pc) && pc.AtCell? && pc.stage.Inserting? && m.mig.Some?
            && TablesOk(m) && SourcesOk(m) && DestOk(m) && CopiesOk(m, st.threads)
            && d < |m.tables[m.mig.value.dest]| && m.tables[m.mig.value.dest][d].hash == NULL
            && var c := m.tables[m.mig.value.dest][d].(hash := pc.stage.h);
               DestChange(m, d, c)
               && Step(st, t, InsertNew(d)) == State(SetCell(m, m.mig.value.dest, d, c),
                    st.threads[t := pc.(stage := Storing(pc.stage.h, pc.stage.v, d))])
  {
    var m, pc := st.mem, st.threads[t];
    hide CopiesOk, UnitsOk, ClaimsOk, StatusOk, Exclusive, TablesOk, SourcesOk;
    assert OpenAt(m, pc.s, pc.i, pc.stage.h);
    RootKnows(m, pc.s, pc.stage.h);
  }

  lemma InsertNewKeepsInv(st: State, t: nat, d: nat)
    requires Inv(st) && CanStep(st, t, InsertNew(d))
    ensures Inv(Step(st, t, InsertNew(d)))
  {
    InsertNewFacts(st, t, d);
    hide TablesOk, SourcesOk, DestOk, CopiesOk, UnitsOk, ClaimsOk, Exclusive, StatusOk, OpenAt, Held, DestChange, Shape, StageHolds;
    hide Exhausted, StageShape, MutatorCell, MutatorTable, UnitShape, CanStep, Step, WorkerOk;
    var m, threads := st.mem, st.threads;
    var c := m.tables[m.mig.value.dest][d].(hash := threads[t].stage.h);
    var m' := SetCell(m, m.mig.value.dest, d, c);
    DestChangeTables(m, d, c);
    InsertedCopies(m, threads, t, d);
    InsertedBystanders(m, threads, d, c);
    InsertedPc(m, m', threads[t], d);
    hide PcShape, Evolves, SetCell;
    CellStepKeepsInv(st, t, m', threads[t].(stage := Storing(threads[t].stage.h, threads[t].stage.v, d)));
  }

  lemma InsertedBystanders(m: Memory, threads: seq<PC>, d: nat, c: Cell)
    requires Shape(m) && ThreadsOk(m, threads) && m.mig.Some? && DestChange(m, d, c)
    requires d < |m.tables[m.mig.value.dest]| && m.tables[m.mig.value.dest][d].hash == NULL
    requires Shape(SetCell(m, m.mig.value.dest, d, c))
    ensures forall t :: 0 <= t < |threads| && threads[t].AtCell? ==> StageHolds(SetCell(m, m.mig.value.dest, d, c), threads[t])
  {
    forall t | 0 <= t < |threads| && threads[t].AtCell? ensures StageHolds(SetCell(m, m.mig.value.dest, d, c), threads[t]) {
      assert PcShape(m, threads[t]);
      hide ThreadsOk, DestChange;
      DestChangeBystander(m, d, c, threads[t]);
    }
  }

  lemma InsertedPc(m: Memory, m': Memory, pc: PC, d: nat)
    requires Shape(m) && PcShape(m, pc) && WorkerOk(m, pc) && pc.AtCell? && pc.stage.Inserting?
    requires d < |m.tables[m.mig.value.dest]| && m' == SetCell(m, m.mig.value.dest, d, m.tables[m.mig.value.dest][d].(hash := pc.stage.h))
    requires Shape(m') && Evolves(m, m')
    ensures var pc' := pc.(stage := Storing(pc.stage.h, pc.stage.v, d));
            PcShape(m', pc') && WorkerOk(m', pc')
  {
    assert Exhausted(m, pc.s);
    assert Exhausted(m', pc.s);
  }

  lemma ApartDestinations(m: Memory, pc: PC, pc': PC)
    requires Shape(m) && SourcesOk(m) && PcShape(m, pc) && PcShape(m, pc')
    requires pc.AtCell? && pc.stage.Storing? && pc'.AtCell? && pc'.stage.Redirecting?
    requires pc.s != pc'.s || pc.i != pc'.i
    ensures pc.stage.d != pc'.stage.d
  {
    assert OpenAt(m, pc.s, pc.i, pc.stage.h);
    assert OpenAt(m, pc'.s, pc'.i, pc'.stage.h);
  }

  lemma StoreKeepsInv(st: State, t: nat)
    requires Inv(st) && CanStep(st, t, CellStep) && st.threads[t].stage.Storing?
    ensures Inv(Step(st, t, CellStep))
  {
    var m, threads := st.mem, st.threads;
    var (m', pc) := Effect(m, threads[t], CellStep);
    var d := pc.stage.d;
    var c := m'.tables[m.mig.value.dest][d];
    assert OpenAt(m, pc.s, pc.i, pc.stage.h);
    RootKnows(m, pc.s, pc.stage.h);
    assert DestChange(m, d, c);
    hide TablesOk, DestOk, CopiesOk, UnitsOk, ClaimsOk, Exclusive, StatusOk, Held, DestChange, Shape, StageHolds;
    DestChangeTables(m, d, c);
    StoredCopies(m, threads, m', t, pc);
    forall t' | 0 <= t' < |threads| && t' != t && threads[t'].AtCell? ensures StageHolds(m', threads[t']) {
      ApartAtCells(threads, t, t');
      if threads[t'].stage.Redirecting? {
        ApartDestinations(m, threads[t], threads[t']);
      }
      DestChangeBystander(m, d, c, threads[t']);
    }
    StoredPc(m, m', threads[t]);
    CellStepKeepsInv(st, t, m', pc);
  }

  lemma StoredPc(m: Memory, m': Memory, pc: PC)
    requires Shape(m) && PcShape(m, pc) && WorkerOk(m, pc) && pc.AtCell? && pc.stage.Storing?
    requires m' == SetCell(m, m.mig.value.dest, pc.stage.d, m.tables[m.mig.value.dest][pc.stage.d].(value := pc.stage.v))
    requires Shape(m') && Evolves(m, m')
    ensures var pc' := pc.(stage := Redirecting(pc.stage.h, pc.stage.v, pc.stage.d));
            PcShape(m', pc') && WorkerOk(m', pc')
  {
    assert Exhausted(m, pc.s);
    assert Exhausted(m', pc.s);
  }

  /** The destination's hashes, and the open source cells, are as before; copying threads go on copying. */
  lemma StoredCopies(m: Memory, threads: seq<PC>, m': Memory, t: nat, pc: PC)
    requires Shape(m) && Shape(m') && CopiesOk(m, threads) && t < |threads|
    requires m.mig.Some? && m'.mig == m.mig && |m'.tables[m.mig.value.dest]| == |m.tables[m.mig.value.dest]|
    requires forall d :: 0 <= d < |m.tables[m.mig.value.dest]| ==> m'.tables[m.mig.value.dest][d].hash == m.tables[m.mig.value.dest][d].hash
    requires forall s', i', h :: OpenAt(m', s', i', h) ==> OpenAt(m, s', i', h)
    requires forall s, i, d :: Copying(threads[t], s, i, d) ==> Copying(pc, s, i, d)
    ensures CopiesOk(m', threads[t := pc])
  {
    var dest := m.tables[m.mig.value.dest];
    forall d, s, i | 0 <= d < |dest| && dest[d].hash != NULL && OpenAt(m', s, i, dest[d].hash)
      ensures Copied(threads[t := pc], s, i, d)
    {
      assert OpenAt(m, s, i, dest[d].hash);
      CopiedUpdate(threads, t, pc, s, i, d);
    }
  }

  // Mutators reserving and writing a cell

  lemma ReserveTables(m: Memory, k: nat, i: nat, h: nat)
    requires Shape(m) && TablesOk(m) && MutatorTable(m, k) && i < |m.tables[k]| && h != NULL
    requires m.tables[k][i].hash == NULL && Absent(m.tables[k], h)
    ensures var m' := SetCell(m, k, i, m.tables[k][i].(hash := h));
            Shape(m') && Evolves(m, m') && TablesOk(m')
  {
    var m' := SetCell(m, k, i, m.tables[k][i].(hash := h));
    assert TableOk(m.tables[k]) && TableOk(m'.tables[k]);
    forall k' | 0 <= k' < |m'.tables| && RetiredTable(m', k') ensures AllRedirect(m'.tables[k']) {
      assert AllRedirect(m.tables[k']);
    }
  }

  /** A hash new to the root is nowhere else; reserving it keeps what is known of the sources. */
  lemma ReserveSources(m: Memory, threads: seq<PC>, k: nat, i: nat, h: nat)
    requires Shape(m) && SourcesOk(m) && DestOk(m) && CopiesOk(m, threads)
    requires MutatorTable(m, k) && i < |m.tables[k]| && h != NULL && m.tables[k][i].hash == NULL && Absent(m.tables[k], h)
    requires Shape(SetCell(m, k, i, m.tables[k][i].(hash := h)))
    ensures var m' := SetCell(m, k, i, m.tables[k][i].(hash := h));
            SourcesOk(m') && DestOk(m') && CopiesOk(m', threads)
  {
    var m' := SetCell(m, k, i, m.tables[k][i].(hash := h));
    var sources := Sources(m);
    forall h' | h' != NULL && Absent(m'.tables[m.root], h')
      ensures Absent(m.tables[m.root], h') && (k == m.root ==> h' != h)
    {
      if k == m.root { assert m'.tables[k][i].hash == h; }
      assert forall j :: 0 <= j < |m.tables[m.root]| && m.tables[m.root][j].hash != NULL ==>
          m.tables[m.root][j].hash == m'.tables[m.root][j].hash;
    }
    assert forall s :: 0 < s < |sources| ==> m'.tables[sources[s]] == m.tables[sources[s]];
    forall s, j, h' | h' != NULL && OpenAt(m', s, j, h')
      ensures OpenAt(m, s, j, h') || (h' == h && k == m.root && s == 0 && j == i)
    {
    }
    if k == m.root {
      forall s, j ensures !OpenAt(m, s, j, h) {
        if OpenAt(m, s, j, h) { RootKnows(m, s, h); }
      }
    }
    if m.mig.Some? {
      assert m'.tables[m.mig.value.dest] == m.tables[m.mig.value.dest];
      assert k == m.root ==> Absent(m.tables[m.mig.value.dest], h);
    }
  }

  lemma ReserveBystander(m: Memory, k: nat, i: nat, h: nat, pc: PC)
    requires Shape(m) && MutatorTable(m, k) && i < |m.tables[k]| && m.tables[k][i].hash == NULL
    requires pc.AtCell? && PcShape(m, pc) && Shape(SetCell(m, k, i, m.tables[k][i].(hash := h)))
    ensures StageHolds(SetCell(m, k, i, m.tables[k][i].(hash := h)), pc)
  {
  }

  lemma CopiedSame(threads: seq<PC>, t: nat, pc: PC, m: Memory)
    requires Shape(m) && CopiesOk(m, threads) && t < |threads| && !threads[t].AtCell?
    ensures CopiesOk(m, threads[t := pc])
  {
    forall s, i, d | Copied(threads, s, i, d) ensures Copied(threads[t := pc], s, i, d) {
      CopiedUpdate(threads, t, pc, s, i, d);
    }
  }

  lemma ReserveKeepsInv(st: State, t: nat, i: nat)
    requires Inv(st) && CanStep(st, t, Reserve(i))
    ensures Inv(Step(st, t, Reserve(i)))
  {
    var m, threads := st.mem, st.threads;
    var (m', pc) := Effect(m, threads[t], Reserve(i));
    var Located(k, h) := threads[t];
    assert h != NULL && MutatorTable(m, k);
    hide TablesOk, SourcesOk, DestOk, CopiesOk, UnitsOk, ClaimsOk, Exclusive, StatusOk, Held, StageHolds;
    ReserveTables(m, k, i, h);
    ReserveSources(m, threads, k, i, h);
    CopiedSame(threads, t, pc, m');
    forall t' | 0 <= t' < |threads| && t' != t && threads[t'].AtCell? ensures StageHolds(m', threads[t']) {
      ReserveBystander(m, k, i, h, threads[t']);
    }
    hide Shape;
    CellStepKeepsInv(st, t, m', pc);
  }

  /** Writing to a live cell of the root: a write can only succeed there. */
  lemma WriteTables(m: Memory, threads: seq<PC>, i: nat, v: nat)
    requires Shape(m) && TablesOk(m) && SourcesOk(m) && DestOk(m) && CopiesOk(m, threads)
    requires i < |m.tables[m.root]| && m.tables[m.root][i].hash != NULL && m.tables[m.root][i].value != REDIRECT && v != REDIRECT
    ensures var m' := SetCell(m, m.root, i, m.tables[m.root][i].(value := v));
            && Shape(m') && Evolves(m, m') && TablesOk(m') && SourcesOk(m') && DestOk(m') && CopiesOk(m', threads)
            && (forall s, j, h :: OpenAt(m', s, j, h) <==> OpenAt(m, s, j, h))
  {
    var k := m.root;
    var m' := SetCell(m, k, i, m.tables[k][i].(value := v));
    assert TableOk(m.tables[k]) && TableOk(m'.tables[k]);
    forall k' | 0 <= k' < |m'.tables| && RetiredTable(m', k') ensures AllRedirect(m'.tables[k']) {
      assert AllRedirect(m.tables[k']);
      assert Sources(m)[0] == k;
    }
    forall h | Absent(m'.tables[k], h) ensures Absent(m.tables[k], h) {
      assert forall j :: 0 <= j < |m.tables[k]| ==> m.tables[k][j].hash == m'.tables[k][j].hash;
    }
    assert Sources(m)[0] == k;
    assert forall s :: 0 < s < |Sources(m)| ==> m'.tables[Sources(m)[s]] == m.tables[Sources(m)[s]];
    forall s, j, h ensures OpenAt(m', s, j, h) <==> OpenAt(m, s, j, h) {
    }
  }

  lemma WriteBystander(m: Memory, i: nat, v: nat, pc: PC)
    requires Shape(m) && i < |m.tables[m.root]| && m.tables[m.root][i].value != REDIRECT && v != REDIRECT
    requires pc.AtCell? && PcShape(m, pc) && Shape(SetCell(m, m.root, i, m.tables[m.root][i].(value := v)))
    ensures StageHolds(SetCell(m, m.root, i, m.tables[m.root][i].(value := v)), pc)
  {
  }

  lemma LiveCell(tb: Table, i: nat)
    requires i < |tb| && tb[i].value != REDIRECT
    ensures !AllRedirect(tb)
  {
  }

  /** A cell that is not redirected, and that a mutator holds, is a cell of the root. */
  lemma LiveCellIsInRoot(m: Memory, k: nat, i: nat, h: nat)
    requires Shape(m) && TablesOk(m) && MutatorCell(m, k, i, h) && m.tables[k][i].value != REDIRECT
    ensures k == m.root && OpenAt(m, 0, i, h)
  {
    LiveCell(m.tables[k], i);
    assert Sources(m)[0] == m.root;
  }

  lemma WriteKeepsInv(st: State, t: nat, desired: nat)
    requires Inv(st) && CanStep(st, t, Cas(desired))
    requires st.mem.tables[st.threads[t].table][st.threads[t].cell].value == st.threads[t].seen
    ensures Inv(Step(st, t, Cas(desired)))
  {
    var m, threads := st.mem, st.threads;
    var (m', pc) := Effect(m, threads[t], Cas(desired));
    var Holding(k, i, h, seen) := threads[t];
    assert MutatorCell(m, k, i, h);
    LiveCellIsInRoot(m, k, i, h);
    hide TablesOk, SourcesOk, DestOk, CopiesOk, UnitsOk, ClaimsOk, Exclusive, StatusOk, Held, StageHolds, OpenAt;
    WriteTables(m, threads, i, desired);
    CopiedSame(threads, t, pc, m');
    forall t' | 0 <= t' < |threads| && t' != t && threads[t'].AtCell? ensures StageHolds(m', threads[t']) {
      WriteBystander(m, i, desired, threads[t']);
    }
    hide Shape;
    CellStepKeepsInv(st, t, m', pc);
  }

  // ---------------------------------------------------------------- migrations begin and end

  /** The number of units over all the sources is the sum of the sources' numbers of units. */
  lemma {:induction false} CountUnits(tables: seq<Table>, sources: seq<nat>)
    requires forall s :: 0 <= s < |sources| ==> sources[s] < |tables|
    ensures |AllUnits(tables, sources)| == SumUnits(tables, sources)
  {
    if sources == [] {
      assert AllUnits(tables, sources) == {};
    } else {
      var last := |sources| - 1;
      var front := sources[..last];
      var n := NumUnits(|tables[sources[last]]|);
      var mine := set u: nat | u < n :: Unit(last, u);
      CountUnits(tables, front);
      CountBlock(last, n);
      assert AllUnits(tables, sources) == AllUnits(tables, front) + mine;
      assert AllUnits(tables, front) !! mine;
    }
  }

  lemma {:induction false} CountBlock(s: nat, n: nat)
    ensures |set u: nat | u < n :: Unit(s, u)| == n
  {
    if n > 0 {
      CountBlock(s, n - 1);
      assert (set u: nat | u < n :: Unit(s, u)) == (set u: nat | u < n - 1 :: Unit(s, u)) + {Unit(s, n - 1)};
    }
  }

  lemma NoneInside(threads: seq<PC>)
    requires InsideSet(threads) == {}
    ensures forall t :: 0 <= t < |threads| ==> !Inside(threads[t])
  {
    forall t | 0 <= t < |threads| ensures !Inside(threads[t]) {
      assert t !in InsideSet(threads);
    }
  }

  /** Threads that are outside every migration. */
  ghost predicate Outside(pc: PC) {
    pc.Idle? || pc.Located? || pc.Found? || pc.Holding? || pc.Probed?
  }

  /** A fresh migration object over a memory in which no worker is active. */
  lemma FreshMigration(m': Memory, threads: seq<PC>)
    requires Shape(m') && m'.mig.Some?
    requires forall t :: 0 <= t < |threads| ==> Outside(threads[t])
    requires var g := m'.mig.value;
             && g.status == 0 && !g.overflowed && g.done == {} && g.failed == {}
             && (forall s :: 0 <= s < |g.index| ==> g.index[s] == 0)
             && g.remaining == SumUnits(m'.tables, g.sources)
    ensures UnitsOk(m') && ClaimsOk(m', threads) && StatusOk(m'.mig, threads) && Exclusive(threads)
  {
    var g := m'.mig.value;
    CountUnits(m'.tables, g.sources);
    assert Unit(0, 0) in AllUnits(m'.tables, g.sources);
    assert |AllUnits(m'.tables, g.sources)| != 0;
    assert InsideSet(threads) == {};
    assert forall n :: !Held(threads, n);
  }

  /** Appending an empty table as destination of a migration whose sources are in order. */
  lemma FreshDestination(m: Memory, m': Memory, threads: seq<PC>, size: nat)
    requires Shape(m) && Shape(m') && m'.mig.Some? && size >= 1
    requires m'.tables == m.tables + [EmptyTable(size)] && m'.root == m.root && m'.mig.value.dest == |m.tables|
    requires forall k :: 0 <= k < |m.tables| ==> TableOk(m.tables[k])
    requires forall k :: 0 <= k < |m.tables| && k !in m'.mig.value.sources ==> AllRedirect(m.tables[k])
    ensures TablesOk(m') && DestOk(m') && CopiesOk(m', threads)
  {
    var dest := m'.tables[m'.mig.value.dest];
    assert dest == EmptyTable(size);
    assert TableOk(dest);
    forall k | 0 <= k < |m'.tables| && RetiredTable(m', k) ensures AllRedirect(m'.tables[k]) {
      assert k < |m.tables|;
    }
  }

  lemma OutsiderKept(m: Memory, m': Memory, pc: PC)
    requires Shape(m) && Shape(m') && PcShape(m, pc) && Outside(pc)
    requires |m.tables| <= |m'.tables| && m'.tables[..|m.tables|] == m.tables
    requires forall k :: 0 <= k < |m.tables| && MutatorTable(m, k) ==> MutatorTable(m', k)
    ensures PcShape(m', pc) && WorkerOk(m', pc)
  {
    assert forall k :: 0 <= k < |m.tables| ==> m'.tables[k] == m.tables[k];
  }

  lemma BeginKeepsInv(st: State, t: nat, size: nat)
    requires Inv(st) && CanStep(st, t, Begin(size))
    ensures Inv(Step(st, t, Begin(size)))
  {
    var m, threads := st.mem, st.threads;
    var m' := BeginMigration(m, size);
    var after := threads[t := Idle];
    assert forall t' :: 0 <= t' < |after| ==> Outside(after[t']) && PcShape(m, after[t']);
    assert Shape(m');
    assert forall k :: 0 <= k < |m.tables| && MutatorTable(m, k) ==> MutatorTable(m', k);
    FreshDestination(m, m', after, size);
    assert SourcesOk(m') by {
      assert forall s, i, h :: OpenAt(m', s, i, h) ==> OpenAt(m, s, i, h);
    }
    assert SumUnits(m'.tables, m'.mig.value.sources) == NumUnits(|m.tables[m.root]|);
    hide TablesOk, SourcesOk, DestOk, CopiesOk, UnitsOk, ClaimsOk, StatusOk, Exclusive, Shape, PcShape, WorkerOk, MutatorTable;
    FreshMigration(m', after);
    forall t' | 0 <= t' < |after| ensures PcShape(m', after[t']) && WorkerOk(m', after[t']) {
      OutsiderKept(m, m', after[t']);
    }
  }

  /** When a worker is at its final step nobody else is in the migration. */
  lemma LastIsAlone(st: State, t: nat)
    requires Inv(st) && t < |st.threads| && st.threads[t].Last?
    ensures st.mem.mig.Some? && st.mem.mig.value.status == 1
    ensures st.mem.mig.value.overflowed || st.mem.mig.value.remaining == 0
    ensures forall t' :: 0 <= t' < |st.threads| && t' != t ==> Outside(st.threads[t'])
  {
    assert PcShape(st.mem, st.threads[t]);
    hide TablesOk, SourcesOk, DestOk, CopiesOk, UnitsOk, ClaimsOk;
    assert SomeLast(st.threads);
    NoneInside(st.threads);
    forall t' | 0 <= t' < |st.threads| && t' != t ensures Outside(st.threads[t']) {
      assert !st.threads[t'].Last?;
    }
  }

  /** Once no unit remains, every cell of every source has been redirected. */
  lemma AllSourcesRedirected(m: Memory)
    requires Shape(m) && m.mig.Some? && UnitsOk(m) && m.mig.value.remaining == 0
    ensures forall s :: 0 <= s < |m.mig.value.sources| ==> AllRedirect(m.tables[m.mig.value.sources[s]])
  {
    var g := m.mig.value;
    var all := AllUnits(m.tables, g.sources);
    SubsetSize(g.done, all);
    forall s: nat, i: nat | s < |g.sources| && i < |m.tables[g.sources[s]]| ensures m.tables[g.sources[s]][i].value == REDIRECT {
      var n := Unit(s, i / UNIT_SIZE);
      assert n in all;
      assert UnitRedirected(m, s, i / UNIT_SIZE);
    }
  }

  lemma PublishKeepsInv(st: State, t: nat, size: nat)
    requires Inv(st) && CanStep(st, t, Conclude(size)) && !st.mem.mig.value.overflowed
    ensures Inv(Step(st, t, Conclude(size)))
  {
    var m, threads := st.mem, st.threads;
    var m' := Publish(m);
    var after := threads[t := Idle];
    LastIsAlone(st, t);
    AllSourcesRedirected(m);
    assert Shape(m');
    assert InsideSet(after) == {};
    assert TablesOk(m') by {
      forall k | 0 <= k < |m'.tables| && RetiredTable(m', k) ensures AllRedirect(m'.tables[k]) {
        if k in Sources(m) {
          var s :| 0 <= s < |Sources(m)| && Sources(m)[s] == k;
        }
      }
    }
    assert SourcesOk(m') by {
      assert TableOk(m.tables[m'.root]);
    }
    assert forall k :: 0 <= k < |m.tables| && MutatorTable(m, k) ==> MutatorTable(m', k);
    hide TablesOk, SourcesOk, Exclusive, Shape, PcShape, WorkerOk, MutatorTable, UnitsOk, ClaimsOk, DestOk, CopiesOk;
    forall t' | 0 <= t' < |after| ensures PcShape(m', after[t']) && WorkerOk(m', after[t']) {
      if t' == t {
        IdleIsOk(m');
      } else {
        OutsiderKept(m, m', after[t']);
      }
    }
    OutsidersExclusive(after);
    NoMigration(m', after);
  }

  lemma IdleIsOk(m: Memory)
    requires Shape(m)
    ensures PcShape(m, Idle) && WorkerOk(m, Idle)
  {
  }

  lemma OutsidersExclusive(threads: seq<PC>)
    requires forall t :: 0 <= t < |threads| ==> Outside(threads[t])
    ensures Exclusive(threads)
  {
  }

  lemma NoMigration(m: Memory, threads: seq<PC>)
    requires Shape(m) && m.mig.None?
    ensures DestOk(m) && CopiesOk(m, threads) && UnitsOk(m) && ClaimsOk(m, threads)
  {
  }

  lemma NoCopies(m: Memory, threads: seq<PC>)
    requires Shape(m) && CopiesOk(m, threads) && m.mig.Some? && forall t :: 0 <= t < |threads| ==> !threads[t].AtCell?
    ensures var dest := m.tables[m.mig.value.dest];
            forall d, s, i :: 0 <= d < |dest| && dest[d].hash != NULL ==> !OpenAt(m, s, i, dest[d].hash)
  {
    assert forall s, i, d :: !Copied(threads, s, i, d);
  }

  /** With no copy under way, the destination can join the sources: every hash still has one live cell. */
  lemma HandOffSources(m: Memory, threads: seq<PC>, size: nat)
    requires Shape(m) && TablesOk(m) && SourcesOk(m) && DestOk(m) && CopiesOk(m, threads) && m.mig.Some? && size >= 1
    requires forall t :: 0 <= t < |threads| ==> !threads[t].AtCell?
    requires Shape(HandOff(m, size))
    ensures SourcesOk(HandOff(m, size))
  {
    var m' := HandOff(m, size);
    var g := m.mig.value;
    var last := |g.sources|;
    NoCopies(m, threads);
    assert Sources(m') == g.sources + [g.dest];
    assert m'.tables[g.dest] == m.tables[g.dest];
    assert forall k :: 0 <= k < |m.tables| ==> m'.tables[k] == m.tables[k];
    forall s, i, h | h != NULL && OpenAt(m', s, i, h) ensures s == last || OpenAt(m, s, i, h) {
    }
    forall s': nat, i': nat, h: nat | s' < last && h != NULL && OpenAt(m', s', i', h)
      ensures forall i: nat :: !OpenAt(m', last, i, h)
    {
      assert OpenAt(m, s', i', h);
    }
    forall i: nat, s': nat, i': nat, h: nat | h != NULL && OpenAt(m', last, i, h) && OpenAt(m', s', i', h) ensures s' == last && i' == i {
      assert TableOk(m.tables[g.dest]);
    }
  }

  lemma HandOffShape(m: Memory, size: nat)
    requires Shape(m) && m.mig.Some? && size >= 1
    ensures Shape(HandOff(m, size))
    ensures forall k :: 0 <= k < |m.tables| && MutatorTable(m, k) ==> MutatorTable(HandOff(m, size), k)
    ensures SumUnits(HandOff(m, size).tables, HandOff(m, size).mig.value.sources) == HandOff(m, size).mig.value.remaining
  {
    var m' := HandOff(m, size);
    SumUnitsExtend(m.tables, m'.tables, m'.mig.value.sources);
  }

  lemma HandOffRetired(m: Memory, size: nat)
    requires Shape(m) && TablesOk(m) && m.mig.Some?
    ensures forall k :: 0 <= k < |m.tables| && k !in HandOff(m, size).mig.value.sources ==> AllRedirect(m.tables[k])
  {
    var g := m.mig.value;
    forall k | 0 <= k < |m.tables| && k !in HandOff(m, size).mig.value.sources ensures AllRedirect(m.tables[k]) {
      assert HandOff(m, size).mig.value.sources == g.sources + [g.dest];
      assert RetiredTable(m, k);
    }
  }

  lemma {:induction false} SumUnitsExtend(tables: seq<Table>, tables': seq<Table>, sources: seq<nat>)
    requires tables <= tables' && forall s :: 0 <= s < |sources| ==> sources[s] < |tables|
    ensures SumUnits(tables, sources) == SumUnits(tables', sources)
  {
    if sources != [] {
      SumUnitsExtend(tables, tables', sources[..|sources| - 1]);
    }
  }

  lemma HandOffMemory(m: Memory, threads: seq<PC>, after: seq<PC>, size: nat)
    requires Shape(m) && TablesOk(m) && SourcesOk(m) && DestOk(m) && CopiesOk(m, threads) && m.mig.Some? && size >= 1
    requires forall t :: 0 <= t < |threads| ==> !threads[t].AtCell?
    ensures var m' := HandOff(m, size);
            && Shape(m') && TablesOk(m') && SourcesOk(m') && DestOk(m') && CopiesOk(m', after)
            && (forall k :: 0 <= k < |m.tables| && MutatorTable(m, k) ==> MutatorTable(m', k))
            && SumUnits(m'.tables, m'.mig.value.sources) == m'.mig.value.remaining
  {
    var m' := HandOff(m, size);
    HandOffShape(m, size);
    HandOffRetired(m, size);
    assert forall k :: 0 <= k < |m.tables| ==> TableOk(m.tables[k]);
    hide MutatorTable, TablesOk, SourcesOk, DestOk, CopiesOk, SumUnits;
    HandOffSources(m, threads, size);
    FreshDestination(m, m', after, size);
  }

  lemma HandOffKeepsInv(st: State, t: nat, size: nat)
    requires Inv(st) && CanStep(st, t, Conclude(size)) && st.mem.mig.value.overflowed
    ensures Inv(Step(st, t, Conclude(size)))
  {
    hide UnitsOk, ClaimsOk, StatusOk, Exclusive, MutatorTable, TablesOk, SourcesOk, DestOk, CopiesOk;
    var m, threads := st.mem, st.threads;
    var m' := HandOff(m, size);
    var after := threads[t := Idle];
    LastIsAlone(st, t);
    assert size >= 1;
    HandOffMemory(m, threads, after, size);
    hide Shape, PcShape, WorkerOk;
    FreshMigration(m', after);
    forall t' | 0 <= t' < |after| ensures PcShape(m', after[t']) && WorkerOk(m', after[t']) {
      if t' == t {
        IdleIsOk(m');
      } else {
        OutsiderKept(m, m', after[t']);
      }
    }
  }

  // ---------------------------------------------------------------- every step

  /** The steps of `migrateRange` that only read, or whose compare-exchange fails. */
  lemma ReadCellKeepsInv(st: State, t: nat)
    requires Inv(st) && CanStep(st, t, CellStep)
    requires Effect(st.mem, st.threads[t], CellStep).0 == st.mem
    requires !st.threads[t].stage.Storing?
    ensures Inv(Step(st, t, CellStep))
  {
    var m, pc := st.mem, st.threads[t];
    assert PcShape(m, pc) && WorkerOk(m, pc);
    assert TableOk(m.tables[m.mig.value.sources[pc.s]]);
    ReadCellPc(m, pc);
    hide Inv, Effect, PcShape, WorkerOk, Enabled;
    MoveKeepsInv(st, t, Effect(m, pc, CellStep).1);
  }

  lemma ReadCellPc(m: Memory, pc: PC)
    requires Shape(m) && PcShape(m, pc) && WorkerOk(m, pc) && Enabled(m, pc, CellStep) && !pc.stage.Storing?
    requires Effect(m, pc, CellStep).0 == m && TableOk(m.tables[m.mig.value.sources[pc.s]])
    ensures MovesTo(m, pc, Effect(m, pc, CellStep).1)
  {
    var c := m.tables[m.mig.value.sources[pc.s]][pc.i];
    if c.value == REDIRECT {
      AdvanceOk(m, m, pc);
    }
  }

  lemma RedirectEffect(m: Memory, pc: PC)
    requires Shape(m) && PcShape(m, pc) && pc.AtCell? && !pc.stage.Inserting? && !pc.stage.Storing?
    ensures var k := m.mig.value.sources[pc.s];
            || Effect(m, pc, CellStep).0 == m
            || Effect(m, pc, CellStep) == (SetCell(m, k, pc.i, m.tables[k][pc.i].(value := REDIRECT)), Advance(|m.tables[k]|, pc.s, pc.i))
  {
  }

  lemma CellStepKeeps(st: State, t: nat)
    requires Inv(st) && CanStep(st, t, CellStep)
    ensures Inv(Step(st, t, CellStep))
  {
    hide Inv, Effect, Shape, PcShape;
    if st.threads[t].stage.Storing? {
      StoreKeepsInv(st, t);
    } else if Effect(st.mem, st.threads[t], CellStep).0 == st.mem {
      ReadCellKeepsInv(st, t);
    } else {
      RedirectEffect(st.mem, st.threads[t]);
      RedirectKeepsInv(st, t);
    }
  }

  /** A hash about to be migrated is never in the destination: the assertion of `migrateRange` holds. */
  lemma MigratingInsertIsNew(st: State, t: nat, d: nat)
    requires Inv(st) && t < |st.threads| && st.threads[t].AtCell? && st.threads[t].stage.Inserting?
    ensures !(CanStep(st, t, InsertExisting(d)))
  {
    var m, pc := st.mem, st.threads[t];
    var dest := m.tables[m.mig.value.dest];
    assert OpenAt(m, pc.s, pc.i, pc.stage.h);
    if d < |dest| && dest[d].hash == pc.stage.h {
      NotBeingCopied(st.threads, t, d);
      assert false;
    }
  }

  /** Nobody copies the cell that worker t is about to insert. */
  lemma NotBeingCopied(threads: seq<PC>, t: nat, d: nat)
    requires Exclusive(threads) && t < |threads| && threads[t].AtCell? && threads[t].stage.Inserting?
    ensures !Copied(threads, threads[t].s, threads[t].i, d)
  {
    forall t' | 0 <= t' < |threads| ensures !Copying(threads[t'], threads[t].s, threads[t].i, d) {
      if t' != t && threads[t'].AtCell? {
        ApartAtCells(threads, t, t');
      }
    }
  }

  ghost predicate MutatorAction(a: Action) {
    a.LoadRoot? || a.FindCell? || a.Miss? || a.Abandon? || a.LoadValue? || a.Cas? || a.Probe? || a.Check? || a.InsertOverflow?
  }

  lemma MoveStepKeepsInv(st: State, t: nat, a: Action)
    requires Inv(st) && CanStep(st, t, a) && MutatorAction(a) && Effect(st.mem, st.threads[t], a).0 == st.mem
    ensures Inv(Step(st, t, a))
  {
    assert PcShape(st.mem, st.threads[t]) && WorkerOk(st.mem, st.threads[t]);
    MovedPc(st.mem, st.threads[t], a);
    hide Inv, Effect, PcShape, WorkerOk, Enabled;
    MoveKeepsInv(st, t, Effect(st.mem, st.threads[t], a).1);
  }

  lemma MovedPc(m: Memory, pc: PC, a: Action)
    requires Shape(m) && PcShape(m, pc) && WorkerOk(m, pc) && Enabled(m, pc, a) && MutatorAction(a) && Effect(m, pc, a).0 == m
    ensures MovesTo(m, pc, Effect(m, pc, a).1)
  {
    if a.InsertOverflow? {
      assert pc.i / UNIT_SIZE < NumUnits(|m.tables[m.mig.value.sources[pc.s]]|);
    }
    assert a.Check? ==> Exhausted(m, pc.s);
  }

  lemma StepKeepsInv(st: State, t: nat, a: Action)
    requires Inv(st) && CanStep(st, t, a)
    ensures Inv(Step(st, t, a))
  {
    match a
    case Begin(size) => BeginKeepsInv(st, t, size);
    case Reserve(i) => ReserveKeepsInv(st, t, i);
    case Enter => EnterKeepsInv(st, t);
    case Claim => ClaimKeepsInv(st, t);
    case CellStep => CellStepKeeps(st, t);
    case InsertNew(d) => InsertNewKeepsInv(st, t, d);
    case InsertExisting(d) => MigratingInsertIsNew(st, t, d);
    case FinishUnit => FinishUnitKeepsInv(st, t);
    case MarkOverflow => MarkOverflowKeepsInv(st, t);
    case SetEnd => SetEndKeepsInv(st, t);
    case Leave => LeaveKeepsInv(st, t);
    case Conclude(size) =>
      if st.mem.mig.value.overflowed { HandOffKeepsInv(st, t, size); } else { PublishKeepsInv(st, t, size); }
    case Cas(desired) =>
      hide Inv;
      if st.mem.tables[st.threads[t].table][st.threads[t].cell].value == st.threads[t].seen {
        WriteKeepsInv(st, t, desired);
      } else {
        MoveStepKeepsInv(st, t, a);
      }
    case _ => MoveStepKeepsInv(st, t, a);
  }
}
