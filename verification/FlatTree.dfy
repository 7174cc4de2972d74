/**
 The migration of a Grampa flat tree to a larger one.  Any number of workers claim ranges of 32
 slots, exchange every slot for a redirect marker and store the table they found in the slots of
 the new tree; the last worker publishes it.  Every atomic operation is one step, and the slots of
 the old tree may be changed by other threads until they are redirected.
 */
module FlatTree {
  import opened Options
  import opened Counting

  const UNIT: nat := 32  // FlatTreeMigrationUnitSize

  datatype PC =
    | Outside
    | Claiming
    | Exchanging(slot: nat)
    | Writing(slot: nat, table: nat, r: nat)
    | Finishing(unit: nat)
    | SettingEnd
    | Leaving
    | Publishing

  /** A slot is None when it holds the redirect marker; a slot of the new tree is None until it is written. */
  datatype State = State(
    source: seq<Option<nat>>,
    dest: seq<Option<nat>>,
    repeat: nat,
    index: nat,
    remaining: int,
    workers: nat,
    ended: bool,
    published: bool,
    threads: seq<PC>,
    taken: seq<Option<nat>>,  // history: what the exchange of a slot returned
    done: set<nat>)           // history: the units that have been finished

  datatype Action = Swap(slot: nat, table: nat) | Go(t: nat)

  /** The slot of the old tree that slot d of the new tree comes from, and its place among its copies. */
  function Row(repeat: nat, d: nat): nat
    requires repeat > 0
  {
    d / repeat
  }

  function Column(repeat: nat, d: nat): nat
    requires repeat > 0
  {
    d % repeat
  }

  function Place(repeat: nat, slot: nat, r: nat): nat {
    slot * repeat + r
  }

  function Units(size: nat): nat
    requires size > 0
  {
    (size - 1) / UNIT + 1
  }

  function UnitOf(pc: PC): Option<nat> {
    match pc
    case Exchanging(slot) => Some(slot / UNIT)
    case Writing(slot, _, _) => Some(slot / UNIT)
    case Finishing(unit) => Some(unit)
    case _ => None
  }

  /** Counted in the worker status. */
  predicate Active(pc: PC) {
    !pc.Outside? && !pc.Publishing?
  }

  ghost predicate Shape(s: State) {
    s.repeat > 0 && |s.source| > 0 && |s.taken| == |s.source| && |s.dest| == |s.source| * s.repeat && s.index % UNIT == 0
  }

  ghost predicate Enabled(s: State, a: Action) {
    && Shape(s)
    && match a
       case Swap(slot, _) => slot < |s.source| && s.source[slot].Some?
       case Go(t) =>
         t < |s.threads|
         && match s.threads[t]
            case Exchanging(slot) => slot < |s.source|
            case Writing(slot, _, r) => slot < |s.source| && r < s.repeat && Place(s.repeat, slot, r) < |s.dest|
            case Leaving => s.workers > 0
            case _ => true
  }

  /** After slot, the next slot of the range, or its end. */
  function NextSlot(size: nat, slot: nat): PC {
    if (slot + 1) % UNIT != 0 && slot + 1 < size then Exchanging(slot + 1) else Finishing(slot / UNIT)
  }

  function Step(s: State, a: Action): State
    requires Enabled(s, a)
  {
    match a
    case Swap(slot, table) => s.(source := s.source[slot := Some(table)])
    case Go(t) =>
      var pc := s.threads[t];
      match pc
      case Outside => if s.ended then s else s.(workers := s.workers + 1, threads := s.threads[t := Claiming])
      case Claiming =>
        s.(index := s.index + UNIT,
           threads := s.threads[t := if s.index >= |s.source| then Leaving else Exchanging(s.index)])
      case Exchanging(slot) =>
        // the source asserts that the marker is not found here
        var table := if s.source[slot].Some? then s.source[slot].value else 0;
        s.(source := s.source[slot := None], taken := s.taken[slot := Some(table)],
           threads := s.threads[t := Writing(slot, table, 0)])
      case Writing(slot, table, r) =>
        s.(dest := s.dest[Place(s.repeat, slot, r) := Some(table)],
           threads := s.threads[t := if r + 1 < s.repeat then Writing(slot, table, r + 1) else NextSlot(|s.source|, slot)])
      case Finishing(unit) =>
        s.(remaining := s.remaining - 1, done := s.done + {unit},
           threads := s.threads[t := if s.remaining == 1 then SettingEnd else Claiming])
      case SettingEnd => s.(ended := true, threads := s.threads[t := Leaving])
      case Leaving =>
        s.(workers := s.workers - 1, threads := s.threads[t := if s.workers >= 2 then Outside else Publishing])
      case Publishing => s.(published := true, threads := s.threads[t := Outside])
  }

  // ---------------------------------------------------------------- invariant

  ghost predicate SlotsOk(s: State) {
    Shape(s) && forall i :: 0 <= i < |s.source| ==> (s.source[i].None? <==> s.taken[i].Some?)
  }

  /** What is written is what was taken from the slot it comes from. */
  ghost predicate DestOk(s: State) {
    Shape(s) && forall d :: 0 <= d < |s.dest| && s.dest[d].Some? ==>
                  Row(s.repeat, d) < |s.taken| && s.taken[Row(s.repeat, d)] == s.dest[d]
  }

  /** Slot i has been exchanged and all its copies are written. */
  ghost predicate Full(taken: seq<Option<nat>>, dest: seq<Option<nat>>, repeat: nat, i: nat)
    requires repeat > 0 && i < |taken|
  {
    taken[i].Some? && forall d :: 0 <= d < |dest| && Row(repeat, d) == i ==> dest[d].Some?
  }

  /** The part of a range before slot is finished, the part after it untouched. */
  ghost predicate Upto(taken: seq<Option<nat>>, dest: seq<Option<nat>>, repeat: nat, slot: nat)
    requires repeat > 0
  {
    && (forall i: nat :: i < |taken| && i / UNIT == slot / UNIT && i < slot ==> Full(taken, dest, repeat, i))
    && (forall i: nat :: i < |taken| && i / UNIT == slot / UNIT && i > slot ==> taken[i].None?)
  }

  ghost predicate WholeUnit(taken: seq<Option<nat>>, dest: seq<Option<nat>>, repeat: nat, unit: nat)
    requires repeat > 0
  {
    forall i: nat :: i < |taken| && i / UNIT == unit ==> Full(taken, dest, repeat, i)
  }

  /** Exactly the first r copies of a slot are written. */
  ghost predicate Copied(dest: seq<Option<nat>>, repeat: nat, slot: nat, r: nat)
    requires repeat > 0
  {
    forall d :: 0 <= d < |dest| && Row(repeat, d) == slot ==> (dest[d].Some? <==> Column(repeat, d) < r)
  }

  ghost predicate UnitsOk(s: State) {
    && Shape(s)
    && (forall i: nat :: i < |s.source| && i / UNIT * UNIT >= s.index ==> s.taken[i].None?)
    && (forall u :: u in s.done ==> u < Units(|s.source|) && u * UNIT < s.index && WholeUnit(s.taken, s.dest, s.repeat, u))
    && s.remaining == Units(|s.source|) - |s.done|
  }

  ghost predicate Claimed(size: nat, index: nat, done: set<nat>, u: nat)
    requires size > 0
  {
    u * UNIT < index && u < Units(size) && u !in done
  }

  ghost predicate ThreadOk(s: State, pc: PC) {
    && Shape(s)
    && (UnitOf(pc).Some? ==> Claimed(|s.source|, s.index, s.done, UnitOf(pc).value))
    && match pc
       case Outside => true
       case Claiming => true
       case Exchanging(slot) =>
         slot < |s.source| && Upto(s.taken, s.dest, s.repeat, slot) && s.taken[slot].None?
       case Writing(slot, table, r) =>
         && slot < |s.source| && Upto(s.taken, s.dest, s.repeat, slot) && r < s.repeat
         && s.taken[slot] == Some(table) && Copied(s.dest, s.repeat, slot, r)
       case Finishing(unit) => WholeUnit(s.taken, s.dest, s.repeat, unit)
       case SettingEnd => s.remaining == 0
       case Leaving => s.ended || s.index >= |s.source|
       case Publishing => s.workers == 0 && s.ended && !s.published
  }

  ghost predicate Apart(threads: seq<PC>) {
    forall t, t' :: 0 <= t < t' < |threads| && UnitOf(threads[t]).Some? ==> UnitOf(threads[t]) != UnitOf(threads[t'])
  }

  ghost predicate Held(threads: seq<PC>, u: nat) {
    exists t :: 0 <= t < |threads| && UnitOf(threads[t]) == Some(u)
  }

  ghost predicate Ending(threads: seq<PC>) {
    exists t :: 0 <= t < |threads| && threads[t].SettingEnd?
  }

  function CountActive(threads: seq<PC>): nat {
    if threads == [] then 0 else CountActive(threads[..|threads| - 1]) + if Active(threads[|threads| - 1]) then 1 else 0
  }

  ghost predicate StatusOk(s: State) {
    && Shape(s)
    && s.workers == CountActive(s.threads)
    && (s.ended ==> s.remaining == 0)
    && (s.remaining == 0 && !s.ended ==> Ending(s.threads))
    && (s.published ==> s.workers == 0 && s.ended)
    && (forall t, t' :: 0 <= t < t' < |s.threads| ==> !(s.threads[t].Publishing? && s.threads[t'].Publishing?))
    && (forall u: nat :: Claimed(|s.source|, s.index, s.done, u) ==> Held(s.threads, u))
  }

  ghost predicate ThreadsOk(s: State) {
    forall t :: 0 <= t < |s.threads| ==> ThreadOk(s, s.threads[t])
  }

  ghost predicate Inv(s: State) {
    SlotsOk(s) && DestOk(s) && UnitsOk(s) && ThreadsOk(s) && Apart(s.threads) && StatusOk(s)
  }

  // ---------------------------------------------------------------- arithmetic

  lemma PlaceIs(repeat: nat, n: nat, slot: nat, r: nat)
    requires r < repeat && slot < n
    ensures Place(repeat, slot, r) < n * repeat
    ensures Row(repeat, Place(repeat, slot, r)) == slot && Column(repeat, Place(repeat, slot, r)) == r
  {
    var d := Place(repeat, slot, r);
    assert (slot + 1) * repeat <= n * repeat;
    Quotient(repeat, d, slot, r);
  }

  lemma PlaceOf(repeat: nat, d: nat)
    requires repeat > 0
    ensures Place(repeat, Row(repeat, d), Column(repeat, d)) == d && Column(repeat, d) < repeat
  {
  }

  lemma RowInRange(repeat: nat, n: nat, d: nat)
    requires repeat > 0 && d < n * repeat
    ensures Row(repeat, d) < n
  {
    PlaceOf(repeat, d);
    Scale(Row(repeat, d), n, repeat);
  }

  lemma Scale(x: nat, n: nat, m: nat)
    ensures x >= n ==> x * m >= n * m
  {
  }

  // ---------------------------------------------------------------- counting workers

  lemma {:induction false} CountUpdate(threads: seq<PC>, t: nat, pc: PC)
    requires t < |threads|
    ensures CountActive(threads[t := pc]) + (if Active(threads[t]) then 1 else 0) == CountActive(threads) + if Active(pc) then 1 else 0
    decreases |threads|
  {
    var last := |threads| - 1;
    if t < last {
      assert threads[t := pc][..last] == threads[..last][t := pc];
      CountUpdate(threads[..last], t, pc);
    } else {
      assert threads[t := pc][..last] == threads[..last];
    }
  }

  /** Two different active threads are counted twice. */
  lemma TwoActive(threads: seq<PC>, t: nat, t': nat)
    requires t < |threads| && t' < |threads| && t != t' && Active(threads[t]) && Active(threads[t'])
    ensures CountActive(threads) >= 2
  {
    CountUpdate(threads, t, Outside);
    CountUpdate(threads[t := Outside], t', Outside);
  }

  // ---------------------------------------------------------------- the last worker

  /** A leaving worker that is alone finds the end flag set. */
  lemma LastFindsEnd(s: State, t: nat)
    requires Inv(s) && t < |s.threads| && s.threads[t].Leaving? && s.workers == 1
    ensures s.ended
  {
    assert ThreadOk(s, s.threads[t]);
    if !s.ended {
      if s.remaining == 0 {
        var t' :| 0 <= t' < |s.threads| && s.threads[t'].SettingEnd?;
        TwoActive(s.threads, t, t');
      } else {
        var all := UpTo(Units(|s.source|));
        assert s.done <= all;
        assert all <= s.done ==> all == s.done;
        var u :| u in all && u !in s.done;
        assert Claimed(|s.source|, s.index, s.done, u);
        var t' :| 0 <= t' < |s.threads| && UnitOf(s.threads[t']) == Some(u);
        TwoActive(s.threads, t, t');
      }
      assert false;
    }
  }

  // ---------------------------------------------------------------- frames

  /** Everything a thread's assertion mentions is the same, or moved on in a way that cannot hurt it. */
  ghost predicate Harmless(s: State, s': State, pc: PC)
    requires Shape(s) && Shape(s')
  {
    && |s'.source| == |s.source| && s'.repeat == s.repeat && s.index <= s'.index
    && (UnitOf(pc).Some? ==>
          && UnitOf(pc).value !in s'.done
          && (forall i: nat :: i < |s.source| && i / UNIT == UnitOf(pc).value ==> s'.taken[i] == s.taken[i])
          && (forall d: nat :: d < |s.dest| && Row(s.repeat, d) / UNIT == UnitOf(pc).value ==> s'.dest[d] == s.dest[d]))
    && (pc.SettingEnd? ==> s'.remaining == s.remaining)
    && (pc.Leaving? ==> s.ended ==> s'.ended)
    && (pc.Publishing? ==> s'.workers == s.workers && s'.ended == s.ended && s'.published == s.published)
  }

  lemma FullStays(s: State, s': State, u: nat, i: nat)
    requires Shape(s) && Shape(s') && |s'.source| == |s.source| && s'.repeat == s.repeat && i < |s.source| && i / UNIT == u
    requires s'.taken[i] == s.taken[i]
    requires forall d: nat :: d < |s.dest| && Row(s.repeat, d) / UNIT == u ==> s'.dest[d] == s.dest[d]
    ensures Full(s'.taken, s'.dest, s'.repeat, i) == Full(s.taken, s.dest, s.repeat, i)
  {
  }

  lemma BystanderOk(s: State, s': State, pc: PC)
    requires Shape(s) && Shape(s') && ThreadOk(s, pc) && Harmless(s, s', pc)
    ensures ThreadOk(s', pc)
  {
    hide Row, Column;
    if UnitOf(pc).Some? {
      var u := UnitOf(pc).value;
      forall i: nat | i < |s.source| && i / UNIT == u
        ensures Full(s'.taken, s'.dest, s'.repeat, i) == Full(s.taken, s.dest, s.repeat, i)
      {
        FullStays(s, s', u, i);
      }
      hide Full;
    }
  }

  /** The other threads keep their assertions, if the step is harmless to each of them. */
  lemma ThreadsKept(s: State, s': State, t: nat, pc: PC)
    requires ThreadsOk(s) && Shape(s) && Shape(s') && t < |s.threads| && s'.threads == s.threads[t := pc] && ThreadOk(s', pc)
    requires forall t' :: 0 <= t' < |s.threads| && t' != t ==> Harmless(s, s', s.threads[t'])
    ensures ThreadsOk(s')
  {
    hide ThreadOk, Harmless;
    forall t' | 0 <= t' < |s'.threads| ensures ThreadOk(s', s'.threads[t']) {
      if t' != t {
        BystanderOk(s, s', s.threads[t']);
      }
    }
  }

  lemma HeldUpdate(threads: seq<PC>, t: nat, pc: PC, u: nat)
    requires t < |threads| && Held(threads, u) && (UnitOf(threads[t]) == Some(u) ==> UnitOf(pc) == Some(u))
    ensures Held(threads[t := pc], u)
  {
    var t' :| 0 <= t' < |threads| && UnitOf(threads[t']) == Some(u);
    assert UnitOf(threads[t := pc][t']) == Some(u);
  }

  lemma EndingUpdate(threads: seq<PC>, t: nat, pc: PC)
    requires t < |threads| && Ending(threads) && (threads[t].SettingEnd? ==> pc.SettingEnd?)
    ensures Ending(threads[t := pc])
  {
    var t' :| 0 <= t' < |threads| && threads[t'].SettingEnd?;
    assert threads[t := pc][t'].SettingEnd?;
  }

  lemma ApartUpdate(threads: seq<PC>, t: nat, pc: PC)
    requires Apart(threads) && t < |threads|
    requires UnitOf(pc) == UnitOf(threads[t]) || UnitOf(pc).None? || !Held(threads, UnitOf(pc).value)
    ensures Apart(threads[t := pc])
  {
  }

  // ---------------------------------------------------------------- the steps

  lemma SwapKeeps(s: State, slot: nat, table: nat)
    requires Inv(s) && Enabled(s, Swap(slot, table))
    ensures Inv(Step(s, Swap(slot, table)))
  {
    var s' := Step(s, Swap(slot, table));
    forall t | 0 <= t < |s.threads| ensures ThreadOk(s', s.threads[t]) {
      BystanderOk(s, s', s.threads[t]);
    }
  }

  lemma SameUnits(s: State, s': State)
    requires UnitsOk(s) && s'.source == s.source && s'.dest == s.dest && s'.repeat == s.repeat && s'.taken == s.taken
    requires s'.index == s.index && s'.done == s.done && s'.remaining == s.remaining
    ensures UnitsOk(s')
  {
  }

  lemma SameSlots(s: State, s': State)
    requires SlotsOk(s) && DestOk(s) && Shape(s')
    requires s'.source == s.source && s'.dest == s.dest && s'.repeat == s.repeat && s'.taken == s.taken
    ensures SlotsOk(s') && DestOk(s')
  {
  }

  /** A step that changes nothing but the status word. */
  lemma StatusStepKeeps(s: State, s': State, t: nat, pc: PC)
    requires Inv(s) && t < |s.threads| && s' == s.(workers := s'.workers, ended := s'.ended, published := s'.published, threads := s.threads[t := pc])
    requires UnitOf(s.threads[t]).None? && UnitOf(pc).None? && ThreadOk(s', pc)
    requires forall t' :: 0 <= t' < |s.threads| && t' != t ==>
               && (s.threads[t'].Leaving? ==> s.ended ==> s'.ended)
               && (s.threads[t'].Publishing? ==> s'.workers == s.workers && s'.ended == s.ended && s'.published == s.published)
    ensures SlotsOk(s') && DestOk(s') && UnitsOk(s') && ThreadsOk(s') && Apart(s'.threads)
    ensures forall u: nat :: Claimed(|s'.source|, s'.index, s'.done, u) ==> Held(s'.threads, u)
  {
    SameUnits(s, s');
    SameSlots(s, s');
    assert forall t' :: 0 <= t' < |s.threads| ==> ThreadOk(s, s.threads[t']);
    HarmlessStatus(s, s', t);
    ThreadsKept(s, s', t, pc);
    ApartUpdate(s.threads, t, pc);
    hide ThreadOk, UnitsOk, DestOk, SlotsOk, ThreadsOk, Apart;
    forall u: nat | Claimed(|s.source|, s.index, s.done, u) ensures Held(s'.threads, u) {
      HeldUpdate(s.threads, t, pc, u);
    }
  }

  lemma HarmlessStatus(s: State, s': State, t: nat)
    requires Shape(s) && ThreadsOk(s) && t < |s.threads|
    requires s' == s.(workers := s'.workers, ended := s'.ended, published := s'.published, threads := s'.threads)
    requires forall t' :: 0 <= t' < |s.threads| && t' != t ==>
               && (s.threads[t'].Leaving? ==> s.ended ==> s'.ended)
               && (s.threads[t'].Publishing? ==> s'.workers == s.workers && s'.ended == s.ended && s'.published == s.published)
    ensures forall t' :: 0 <= t' < |s.threads| && t' != t ==> Harmless(s, s', s.threads[t'])
  {
    forall t' | 0 <= t' < |s.threads| && t' != t ensures Harmless(s, s', s.threads[t']) {
      assert ThreadOk(s, s.threads[t']);
    }
  }

  lemma EnterKeeps(s: State, t: nat)
    requires Inv(s) && t < |s.threads| && s.threads[t].Outside? && !s.ended
    ensures Inv(Step(s, Go(t)))
  {
    var s' := Step(s, Go(t));
    assert forall t' :: 0 <= t' < |s.threads| ==> ThreadOk(s, s.threads[t']);
    StatusStepKeeps(s, s', t, Claiming);
    CountUpdate(s.threads, t, Claiming);
    hide ThreadOk, UnitsOk, DestOk, SlotsOk, ThreadsOk, Apart;
    if s.remaining == 0 {
      EndingUpdate(s.threads, t, Claiming);
    }
  }

  lemma SetEndKeeps(s: State, t: nat)
    requires Inv(s) && t < |s.threads| && s.threads[t].SettingEnd?
    ensures Inv(Step(s, Go(t)))
  {
    var s' := Step(s, Go(t));
    assert forall t' :: 0 <= t' < |s.threads| ==> ThreadOk(s, s.threads[t']);
    CountUpdate(s.threads, t, Outside);
    StatusStepKeeps(s, s', t, Leaving);
    CountUpdate(s.threads, t, Leaving);
    hide ThreadOk, UnitsOk, DestOk, SlotsOk, ThreadsOk, Apart;
  }

  /** The last worker, and no other, goes on to publish. */
  lemma LeaveKeeps(s: State, t: nat)
    requires Inv(s) && t < |s.threads| && s.threads[t].Leaving?
    ensures Enabled(s, Go(t)) && Inv(Step(s, Go(t)))
    ensures Step(s, Go(t)).threads[t].Publishing? ==> s.ended && Step(s, Go(t)).workers == 0
  {
    CountUpdate(s.threads, t, Outside);
    assert s.workers >= 1;
    var s' := Step(s, Go(t));
    var pc := s'.threads[t];
    assert forall t' :: 0 <= t' < |s.threads| ==> ThreadOk(s, s.threads[t']);
    if s.workers == 1 {
      LastFindsEnd(s, t);
    }
    StatusStepKeeps(s, s', t, pc);
    CountUpdate(s.threads, t, pc);
    hide ThreadOk, UnitsOk, DestOk, SlotsOk, ThreadsOk, Apart;
    if s.remaining == 0 && !s.ended {
      EndingUpdate(s.threads, t, pc);
    }
  }

  lemma PublishKeeps(s: State, t: nat)
    requires Inv(s) && t < |s.threads| && s.threads[t].Publishing?
    ensures Inv(Step(s, Go(t)))
  {
    var s' := Step(s, Go(t));
    assert ThreadOk(s, s.threads[t]);
    StatusStepKeeps(s, s', t, Outside);
    CountUpdate(s.threads, t, Outside);
    hide ThreadOk, UnitsOk, DestOk, SlotsOk, ThreadsOk, Apart;
  }

  // ---------------------------------------------------------------- the steps on slots

  lemma UnclaimedIsNotHeld(s: State, u: nat)
    requires Inv(s) && u * UNIT >= s.index
    ensures !Held(s.threads, u)
  {
    forall t | 0 <= t < |s.threads| ensures UnitOf(s.threads[t]) != Some(u) {
      assert ThreadOk(s, s.threads[t]);
    }
  }

  /** A claimed range is untouched. */
  lemma ClaimedRange(s: State, s': State)
    requires Inv(s) && s.index < |s.source| && s' == s.(index := s.index + UNIT, threads := s'.threads)
    ensures ThreadOk(s', Exchanging(s.index)) && s.index / UNIT * UNIT == s.index
    ensures !Held(s.threads, s.index / UNIT)
  {
    var u := s.index / UNIT;
    UnclaimedIsNotHeld(s, u);
    assert u !in s.done;
  }

  lemma ClaimUnits(s: State, s': State)
    requires UnitsOk(s) && s' == s.(index := s.index + UNIT, threads := s'.threads)
    ensures UnitsOk(s')
  {
  }

  lemma ClaimHeld(s: State, threads: seq<PC>, t: nat, pc: PC)
    requires Inv(s) && t < |s.threads| && UnitOf(s.threads[t]).None? && threads == s.threads[t := pc]
    requires s.index < |s.source| ==> UnitOf(pc) == Some(s.index / UNIT)
    ensures forall u: nat :: Claimed(|s.source|, s.index + UNIT, s.done, u) ==> Held(threads, u)
  {
    forall u: nat | Claimed(|s.source|, s.index + UNIT, s.done, u) ensures Held(threads, u) {
      if u * UNIT < s.index {
        HeldUpdate(s.threads, t, pc, u);
      } else {
        assert u == s.index / UNIT;
        assert UnitOf(threads[t]) == Some(u);
      }
    }
  }

  lemma ClaimKeeps(s: State, t: nat)
    requires Inv(s) && t < |s.threads| && s.threads[t].Claiming?
    ensures Inv(Step(s, Go(t)))
  {
    var s' := Step(s, Go(t));
    var pc := s'.threads[t];
    if s.index < |s.source| {
      ClaimedRange(s, s');
    }
    ClaimUnits(s, s');
    ClaimHeld(s, s'.threads, t, pc);
    ApartUpdate(s.threads, t, pc);
    CountUpdate(s.threads, t, pc);
    HarmlessElsewhere(s, s', t);
    ThreadsKept(s, s', t, pc);
    SameSlots(s, s');
    hide ThreadOk, UnitsOk, DestOk, SlotsOk, ThreadsOk, Apart;
    if s.remaining == 0 && !s.ended {
      EndingUpdate(s.threads, t, pc);
    }
  }

  /** A step that changes slots of the mover's unit only is harmless to the others. */
  lemma HarmlessElsewhere(s: State, s': State, t: nat)
    requires Shape(s) && ThreadsOk(s) && Apart(s.threads) && t < |s.threads| && Shape(s')
    requires |s'.source| == |s.source| && s'.repeat == s.repeat && s.index <= s'.index && s'.done == s.done
    requires s'.remaining == s.remaining && s'.ended == s.ended && s'.workers == s.workers && s'.published == s.published
    requires forall i: nat :: i < |s.source| && UnitOf(s.threads[t]) != Some(i / UNIT) ==> s'.taken[i] == s.taken[i]
    requires forall d: nat :: d < |s.dest| && UnitOf(s.threads[t]) != Some(Row(s.repeat, d) / UNIT) ==> s'.dest[d] == s.dest[d]
    ensures forall t' :: 0 <= t' < |s.threads| && t' != t ==> Harmless(s, s', s.threads[t'])
  {
    hide Row;
    forall t' | 0 <= t' < |s.threads| && t' != t ensures Harmless(s, s', s.threads[t']) {
      assert ThreadOk(s, s.threads[t']);
      if UnitOf(s.threads[t']).Some? {
        ApartAt(s.threads, t, t');
      }
    }
  }

  lemma ApartAt(threads: seq<PC>, t: nat, t': nat)
    requires Apart(threads) && t < |threads| && t' < |threads| && t != t' && UnitOf(threads[t']).Some?
    ensures UnitOf(threads[t]) != UnitOf(threads[t'])
  {
    if t < t' {
      assert UnitOf(threads[t]).Some? ==> UnitOf(threads[t]) != UnitOf(threads[t']);
    }
  }

  /** The marker is never found by the exchange: every slot is exchanged once. */
  lemma ExchangeFindsTable(s: State, t: nat)
    requires Inv(s) && t < |s.threads| && s.threads[t].Exchanging?
    ensures Enabled(s, Go(t)) && s.source[s.threads[t].slot].Some? && s.taken[s.threads[t].slot].None?
  {
    assert ThreadOk(s, s.threads[t]);
  }

  lemma NothingCopied(s: State, slot: nat)
    requires DestOk(s) && slot < |s.source| && s.taken[slot].None?
    ensures Copied(s.dest, s.repeat, slot, 0)
  {
    forall d | 0 <= d < |s.dest| && Row(s.repeat, d) == slot ensures s.dest[d].None? {
    }
  }

  lemma ExchangedSlots(s: State, s': State, slot: nat, table: nat)
    requires SlotsOk(s) && DestOk(s) && slot < |s.source| && s.taken[slot].None?
    requires s' == s.(source := s.source[slot := None], taken := s.taken[slot := Some(table)], threads := s'.threads)
    ensures SlotsOk(s') && DestOk(s')
  {
  }

  lemma ExchangedUnits(s: State, s': State, slot: nat, table: nat)
    requires UnitsOk(s) && slot < |s.source| && Claimed(|s.source|, s.index, s.done, slot / UNIT)
    requires s' == s.(source := s.source[slot := None], taken := s.taken[slot := Some(table)], threads := s'.threads)
    ensures UnitsOk(s')
  {
    hide Row, Full;
    DoneUnitsStay(s, s', slot / UNIT);
  }

  /** Units that are finished are not touched any more. */
  lemma DoneUnitsStay(s: State, s': State, mine: nat)
    requires UnitsOk(s) && Shape(s') && |s'.source| == |s.source| && s'.repeat == s.repeat && mine !in s.done
    requires forall i: nat :: i < |s.source| && i / UNIT != mine ==> s'.taken[i] == s.taken[i]
    requires forall d: nat :: d < |s.dest| && Row(s.repeat, d) / UNIT != mine ==> s'.dest[d] == s.dest[d]
    ensures forall u :: u in s.done ==> WholeUnit(s'.taken, s'.dest, s'.repeat, u)
  {
    hide Row;
    forall u, i: nat | u in s.done && i < |s.source| && i / UNIT == u ensures Full(s'.taken, s'.dest, s'.repeat, i) {
      assert WholeUnit(s.taken, s.dest, s.repeat, u);
      FullStays(s, s', u, i);
    }
  }

  lemma ExchangedUpto(s: State, slot: nat, table: nat)
    requires Shape(s) && slot < |s.source| && Upto(s.taken, s.dest, s.repeat, slot)
    ensures Upto(s.taken[slot := Some(table)], s.dest, s.repeat, slot)
  {
    forall i: nat | i < |s.taken| && i / UNIT == slot / UNIT && i < slot
      ensures Full(s.taken[slot := Some(table)], s.dest, s.repeat, i)
    {
      assert Full(s.taken, s.dest, s.repeat, i);
    }
  }

  /** Where a step stays within its unit, the accounts of units and workers stay as they are. */
  lemma SameUnitStatus(s: State, s': State, t: nat, pc: PC)
    requires Inv(s) && Shape(s') && t < |s.threads| && s'.threads == s.threads[t := pc]
    requires |s'.source| == |s.source| && s'.index == s.index && s'.done == s.done && s'.remaining == s.remaining
    requires s'.workers == s.workers && s'.ended == s.ended && s'.published == s.published
    requires UnitOf(s.threads[t]).Some? && UnitOf(pc) == UnitOf(s.threads[t])
    ensures Apart(s'.threads) && StatusOk(s')
  {
    ApartUpdate(s.threads, t, pc);
    CountUpdate(s.threads, t, pc);
    hide ThreadOk, ThreadsOk, UnitsOk, DestOk, SlotsOk, Apart;
    forall u: nat | Claimed(|s.source|, s.index, s.done, u) ensures Held(s'.threads, u) {
      HeldUpdate(s.threads, t, pc, u);
    }
    if s.remaining == 0 && !s.ended {
      EndingUpdate(s.threads, t, pc);
    }
  }

  lemma ExchangeKeeps(s: State, t: nat)
    requires Inv(s) && t < |s.threads| && s.threads[t].Exchanging?
    ensures Enabled(s, Go(t)) && Inv(Step(s, Go(t)))
  {
    ExchangeFindsTable(s, t);
    var s' := Step(s, Go(t));
    var pc, slot := s'.threads[t], s.threads[t].slot;
    var table := pc.table;
    assert ThreadOk(s, s.threads[t]);
    ExchangedSlots(s, s', slot, table);
    ExchangedUnits(s, s', slot, table);
    ExchangedUpto(s, slot, table);
    NothingCopied(s, slot);
    assert ThreadOk(s', pc) by { hide Row, Full, Upto, Copied; }
    SameUnitStatus(s, s', t, pc);
    HarmlessElsewhere(s, s', t);
    hide ThreadOk, UnitsOk, DestOk, SlotsOk, Apart, StatusOk, Harmless, ThreadsOk;
    ThreadsKept(s, s', t, pc);
  }

  // ---------------------------------------------------------------- copying

  lemma CopyOne(dest: seq<Option<nat>>, repeat: nat, slot: nat, r: nat, table: nat)
    requires r < repeat && Place(repeat, slot, r) < |dest| && Copied(dest, repeat, slot, r)
    ensures Copied(dest[Place(repeat, slot, r) := Some(table)], repeat, slot, r + 1)
  {
    var p := Place(repeat, slot, r);
    var dest' := dest[p := Some(table)];
    forall d | 0 <= d < |dest| && Row(repeat, d) == slot ensures dest'[d].Some? <==> Column(repeat, d) < r + 1 {
      PlaceOf(repeat, d);
      PlaceIs(repeat, slot + 1, slot, r);
    }
  }

  lemma AllCopied(taken: seq<Option<nat>>, dest: seq<Option<nat>>, repeat: nat, slot: nat)
    requires repeat > 0 && slot < |taken| && taken[slot].Some? && Copied(dest, repeat, slot, repeat)
    ensures Full(taken, dest, repeat, slot)
  {
    forall d | 0 <= d < |dest| && Row(repeat, d) == slot ensures dest[d].Some? {
      PlaceOf(repeat, d);
    }
  }

  lemma FullGrows(taken: seq<Option<nat>>, dest: seq<Option<nat>>, repeat: nat, i: nat, p: nat, table: nat)
    requires repeat > 0 && i < |taken| && p < |dest| && Full(taken, dest, repeat, i)
    ensures Full(taken, dest[p := Some(table)], repeat, i)
  {
  }

  lemma UptoGrows(taken: seq<Option<nat>>, dest: seq<Option<nat>>, repeat: nat, slot: nat, p: nat, table: nat)
    requires repeat > 0 && p < |dest| && Upto(taken, dest, repeat, slot)
    ensures Upto(taken, dest[p := Some(table)], repeat, slot)
  {
    forall i: nat | i < |taken| && i / UNIT == slot / UNIT && i < slot ensures Full(taken, dest[p := Some(table)], repeat, i) {
      FullGrows(taken, dest, repeat, i, p, table);
    }
  }

  /** With all copies of a slot written, the range goes on to the next slot or is finished. */
  lemma NextOk(s: State, slot: nat)
    requires Shape(s) && slot < |s.source| && Claimed(|s.source|, s.index, s.done, slot / UNIT)
    requires Upto(s.taken, s.dest, s.repeat, slot) && Full(s.taken, s.dest, s.repeat, slot)
    ensures ThreadOk(s, NextSlot(|s.source|, slot)) && UnitOf(NextSlot(|s.source|, slot)) == Some(slot / UNIT)
  {
    hide Full;
    if (slot + 1) % UNIT != 0 && slot + 1 < |s.source| {
      assert (slot + 1) / UNIT == slot / UNIT;
      assert forall i: nat :: i / UNIT == slot / UNIT && i < slot + 1 ==> i < slot || i == slot;
    } else {
      forall i: nat | i < |s.source| && i / UNIT == slot / UNIT ensures Full(s.taken, s.dest, s.repeat, i) {
        assert i <= slot;
      }
    }
  }

  lemma WrittenSlots(s: State, s': State, slot: nat, r: nat, table: nat)
    requires SlotsOk(s) && DestOk(s) && slot < |s.source| && r < s.repeat && s.taken[slot] == Some(table)
    requires Place(s.repeat, slot, r) < |s.dest|
    requires s' == s.(dest := s.dest[Place(s.repeat, slot, r) := Some(table)], threads := s'.threads)
    ensures SlotsOk(s') && DestOk(s')
  {
    PlaceIs(s.repeat, |s.source|, slot, r);
    hide Row, Place;
  }

  lemma WrittenUnits(s: State, s': State, slot: nat, r: nat, table: nat)
    requires UnitsOk(s) && slot < |s.source| && r < s.repeat && Place(s.repeat, slot, r) < |s.dest|
    requires Claimed(|s.source|, s.index, s.done, slot / UNIT)
    requires s' == s.(dest := s.dest[Place(s.repeat, slot, r) := Some(table)], threads := s'.threads)
    ensures UnitsOk(s')
  {
    PlaceIs(s.repeat, |s.source|, slot, r);
    hide Row, Full, Place;
    DoneUnitsStay(s, s', slot / UNIT);
  }

  lemma WrittenPc(s: State, s': State, slot: nat, table: nat, r: nat)
    requires ThreadOk(s, Writing(slot, table, r)) && Place(s.repeat, slot, r) < |s.dest|
    requires s' == s.(dest := s.dest[Place(s.repeat, slot, r) := Some(table)], threads := s'.threads)
    ensures var pc := if r + 1 < s.repeat then Writing(slot, table, r + 1) else NextSlot(|s.source|, slot);
            ThreadOk(s', pc) && UnitOf(pc) == Some(slot / UNIT)
  {
    var p := Place(s.repeat, slot, r);
    CopyOne(s.dest, s.repeat, slot, r, table);
    UptoGrows(s.taken, s.dest, s.repeat, slot, p, table);
    hide Row, Full, Upto, Copied, Place;
    if r + 1 == s.repeat {
      AllCopied(s'.taken, s'.dest, s'.repeat, slot);
      NextOk(s', slot);
    }
  }

  lemma WriteKeeps(s: State, t: nat)
    requires Inv(s) && t < |s.threads| && s.threads[t].Writing?
    ensures Enabled(s, Go(t)) && Inv(Step(s, Go(t)))
    ensures s.dest[Place(s.repeat, s.threads[t].slot, s.threads[t].r)].None?
  {
    var slot, table, r := s.threads[t].slot, s.threads[t].table, s.threads[t].r;
    assert ThreadOk(s, s.threads[t]);
    PlaceIs(s.repeat, |s.source|, slot, r);
    assert Enabled(s, Go(t)) && s.dest[Place(s.repeat, slot, r)].None?;
    var s' := Step(s, Go(t));
    hide Row, Column, Full, Upto, Copied, Place;
    WrittenSlots(s, s', slot, r, table);
    WrittenUnits(s, s', slot, r, table);
    WrittenPc(s, s', slot, table, r);
    var pc := s'.threads[t];
    SameUnitStatus(s, s', t, pc);
    HarmlessElsewhere(s, s', t);
    hide ThreadOk, UnitsOk, DestOk, SlotsOk, Apart, StatusOk, Harmless, ThreadsOk;
    ThreadsKept(s, s', t, pc);
  }

  // ---------------------------------------------------------------- finishing units

  lemma FinishedUnits(s: State, s': State, unit: nat)
    requires UnitsOk(s) && Claimed(|s.source|, s.index, s.done, unit) && WholeUnit(s.taken, s.dest, s.repeat, unit)
    requires s' == s.(remaining := s.remaining - 1, done := s.done + {unit}, threads := s'.threads)
    ensures UnitsOk(s') && s.remaining >= 1
  {
    hide Full, WholeUnit;
    assert s.done + {unit} <= UpTo(Units(|s.source|));
    SubsetSize(s.done + {unit}, UpTo(Units(|s.source|)));
  }

  lemma FinishKeeps(s: State, t: nat)
    requires Inv(s) && t < |s.threads| && s.threads[t].Finishing?
    ensures Inv(Step(s, Go(t)))
  {
    var s' := Step(s, Go(t));
    var unit, pc := s.threads[t].unit, s'.threads[t];
    assert ThreadOk(s, s.threads[t]);
    FinishedUnits(s, s', unit);
    HarmlessFinish(s, s', t);
    SameSlots(s, s');
    ApartUpdate(s.threads, t, pc);
    CountUpdate(s.threads, t, pc);
    hide UnitsOk, DestOk, SlotsOk, Apart, Harmless, WholeUnit;
    ThreadsKept(s, s', t, pc);
    hide ThreadOk, ThreadsOk;
    forall u: nat | Claimed(|s.source|, s.index, s'.done, u) ensures Held(s'.threads, u) {
      assert u != unit && Claimed(|s.source|, s.index, s.done, u);
      HeldUpdate(s.threads, t, pc, u);
    }
    if s'.remaining == 0 {
      assert s'.threads[t].SettingEnd?;
    }
  }

  lemma HarmlessFinish(s: State, s': State, t: nat)
    requires Shape(s) && ThreadsOk(s) && Apart(s.threads) && t < |s.threads| && s.threads[t].Finishing? && s.remaining >= 1
    requires s' == s.(remaining := s.remaining - 1, done := s.done + {s.threads[t].unit}, threads := s'.threads)
    ensures forall t' :: 0 <= t' < |s.threads| && t' != t ==> Harmless(s, s', s.threads[t'])
  {
    forall t' | 0 <= t' < |s.threads| && t' != t ensures Harmless(s, s', s.threads[t']) {
      assert ThreadOk(s, s.threads[t']);
      if UnitOf(s.threads[t']).Some? {
        ApartAt(s.threads, t, t');
      }
    }
  }

  // ---------------------------------------------------------------- theorems

  lemma StepKeepsInv(s: State, a: Action)
    requires Inv(s) && Enabled(s, a)
    ensures Inv(Step(s, a))
  {
    if a.Swap? {
      SwapKeeps(s, a.slot, a.table);
    } else {
      var pc := s.threads[a.t];
      hide Inv;
      if pc.Outside? {
        if !s.ended { EnterKeeps(s, a.t); }
      } else if pc.Claiming? {
        ClaimKeeps(s, a.t);
      } else if pc.Exchanging? {
        ExchangeKeeps(s, a.t);
      } else if pc.Writing? {
        WriteKeeps(s, a.t);
      } else if pc.Finishing? {
        FinishKeeps(s, a.t);
      } else if pc.SettingEnd? {
        SetEndKeeps(s, a.t);
      } else if pc.Leaving? {
        LeaveKeeps(s, a.t);
      } else {
        PublishKeeps(s, a.t);
      }
    }
  }

  /** A fresh migration, with any number of threads outside. */
  lemma FreshMigration(s: State, n: nat)
    requires n > 0 && |s.source| == n && (forall i :: 0 <= i < n ==> s.source[i].Some?) && s.repeat > 0
    requires s.taken == seq(n, _ => None) && s.dest == seq(n * s.repeat, _ => None) && s.index == 0 && s.done == {}
    requires s.remaining == Units(n) && s.workers == 0 && !s.ended && !s.published
    requires forall t :: 0 <= t < |s.threads| ==> s.threads[t].Outside?
    ensures Inv(s)
  {
    NoneActive(s.threads);
  }

  lemma {:induction false} NoneActive(threads: seq<PC>)
    requires forall t :: 0 <= t < |threads| ==> threads[t].Outside?
    ensures CountActive(threads) == 0
  {
    if threads != [] {
      NoneActive(threads[..|threads| - 1]);
    }
  }

  /** When the tree is published nobody works on it, every slot is redirected, and every new slot is written. */
  lemma PublishedIsComplete(s: State, t: nat, d: nat)
    requires Inv(s) && t < |s.threads| && s.threads[t].Publishing? && d < |s.dest|
    ensures forall t' :: 0 <= t' < |s.threads| ==> !Active(s.threads[t']) && (s.threads[t'].Publishing? ==> t' == t)
    ensures forall i :: 0 <= i < |s.source| ==> s.source[i].None?
    ensures Row(s.repeat, d) < |s.source| && s.dest[d].Some? && s.dest[d] == s.taken[Row(s.repeat, d)]
  {
    assert ThreadOk(s, s.threads[t]);
    AllUnitsDone(s, d);
    forall t' | 0 <= t' < |s.threads| ensures !Active(s.threads[t']) {
      ActiveCounts(s.threads, t');
    }
  }

  lemma ActiveCounts(threads: seq<PC>, t: nat)
    requires t < |threads| && CountActive(threads) == 0
    ensures !Active(threads[t])
  {
    CountUpdate(threads, t, Outside);
  }

  // ---------------------------------------------------------------- progress

  /** What a worker is at: the later, the smaller. */
  function Phase(pc: PC): nat {
    match pc
    case Outside => 0
    case Publishing => 1
    case Leaving => 2
    case SettingEnd => 3
    case Claiming => 4
    case Finishing(_) => 5
    case Exchanging(_) => 6
    case Writing(_, _, _) => 6
  }

  /** Twice the slots that are left in the worker's range, less one once the slot is exchanged. */
  function SlotsLeft(pc: PC): int {
    match pc
    case Exchanging(slot) => 2 * (UNIT - slot % UNIT)
    case Writing(slot, _, _) => 2 * (UNIT - slot % UNIT) - 1
    case _ => 0
  }

  function CopiesLeft(repeat: nat, pc: PC): int {
    match pc
    case Writing(_, _, r) => repeat - r
    case _ => 0
  }

  function SlotsUnclaimed(s: State): int {
    if s.index < |s.source| then |s.source| - s.index else 0
  }

  /** What is left for worker t in s' is less than in s: slots to claim first, then phase, slots and copies. */
  predicate Nearer(s: State, s': State, t: nat)
    requires t < |s.threads| && t < |s'.threads|
  {
    var pc, pc' := s.threads[t], s'.threads[t];
    || SlotsUnclaimed(s') < SlotsUnclaimed(s)
    || (SlotsUnclaimed(s') == SlotsUnclaimed(s)
        && (|| Phase(pc') < Phase(pc)
            || (Phase(pc') == Phase(pc)
                && (SlotsLeft(pc') < SlotsLeft(pc)
                    || (SlotsLeft(pc') == SlotsLeft(pc) && CopiesLeft(s'.repeat, pc') < CopiesLeft(s.repeat, pc))))))
  }

  /** A worker can always go on. */
  lemma WorkerCanGo(s: State, t: nat)
    requires Inv(s) && t < |s.threads| && !s.threads[t].Outside?
    ensures Enabled(s, Go(t))
  {
    var pc := s.threads[t];
    assert ThreadOk(s, pc);
    if pc.Leaving? {
      LeaveKeeps(s, t);
    } else if pc.Writing? {
      PlaceIs(s.repeat, |s.source|, pc.slot, pc.r);
    }
    hide Inv, Upto, Copied, WholeUnit, Claimed;
  }

  lemma NextSlotIsLess(size: nat, slot: nat)
    ensures var pc := NextSlot(size, slot);
            Phase(pc) < 6 || (Phase(pc) == 6 && 0 < SlotsLeft(pc) < 2 * (UNIT - slot % UNIT) - 1)
  {
  }

  /** Every step of a worker brings it nearer to its end. */
  lemma WorkerAdvances(s: State, t: nat)
    requires Inv(s) && t < |s.threads| && !s.threads[t].Outside?
    ensures Enabled(s, Go(t)) && Nearer(s, Step(s, Go(t)), t)
    ensures SlotsUnclaimed(s) >= 0 && SlotsLeft(s.threads[t]) >= 0 && CopiesLeft(s.repeat, s.threads[t]) >= 0
  {
    WorkerCanGo(s, t);
    var pc := s.threads[t];
    hide Inv;
    if pc.Writing? {
      NextSlotIsLess(|s.source|, pc.slot);
      WriterAdvances(s, t);
    } else {
      hide NextSlot, Place;
    }
  }

  lemma WriterAdvances(s: State, t: nat)
    requires t < |s.threads| && s.threads[t].Writing? && Enabled(s, Go(t))
    ensures Nearer(s, Step(s, Go(t)), t)
  {
    var pc := s.threads[t];
    NextSlotIsLess(|s.source|, pc.slot);
    hide NextSlot, Place;
    assert SlotsUnclaimed(Step(s, Go(t))) == SlotsUnclaimed(s);
  }

  /** Nobody else takes it back. */
  lemma OthersDoNotDelay(s: State, a: Action, t: nat)
    requires Inv(s) && Enabled(s, a) && t < |s.threads| && (a.Go? ==> a.t != t)
    ensures Step(s, a).threads[t] == s.threads[t] && SlotsUnclaimed(Step(s, a)) <= SlotsUnclaimed(s) && Step(s, a).repeat == s.repeat
  {
  }

  /** A thread joins unless the end flag is set. */
  lemma JoinsUnlessEnded(s: State, t: nat)
    requires Inv(s) && t < |s.threads| && s.threads[t].Outside?
    ensures Enabled(s, Go(t))
    ensures Active(Step(s, Go(t)).threads[t]) <==> !s.ended
  {
  }

  /** Once a range was claimed somebody is at work, until the tree is published. */
  ghost predicate Attended(s: State) {
    s.index > 0 ==> s.workers > 0 || s.published || exists t :: 0 <= t < |s.threads| && s.threads[t].Publishing?
  }

  lemma AttendedStays(s: State, a: Action)
    requires Inv(s) && Enabled(s, a) && Attended(s)
    ensures Attended(Step(s, a))
  {
    var s' := Step(s, a);
    if a.Go? {
      var pc := s.threads[a.t];
      CountUpdate(s.threads, a.t, Outside);
      assert Active(pc) ==> s.workers > 0;
      if pc.Leaving? && s.workers == 1 {
        assert s'.threads[a.t].Publishing?;
      } else if exists t :: 0 <= t < |s.threads| && s.threads[t].Publishing? {
        var t :| 0 <= t < |s.threads| && s.threads[t].Publishing?;
        assert t != a.t ==> s'.threads[t].Publishing?;
      }
    }
    hide UnitsOk, DestOk, SlotsOk, ThreadsOk, Apart;
  }

  /** When all threads have gone again, the new tree is published and complete. */
  lemma IdleMeansPublished(s: State, d: nat)
    requires Inv(s) && Attended(s) && s.index > 0 && (forall t :: 0 <= t < |s.threads| ==> s.threads[t].Outside?) && d < |s.dest|
    ensures s.published && forall i :: 0 <= i < |s.source| ==> s.source[i].None?
    ensures Row(s.repeat, d) < |s.source| && s.dest[d].Some? && s.dest[d] == s.taken[Row(s.repeat, d)]
  {
    NoneActive(s.threads);
    AllUnitsDone(s, d);
  }

  lemma AllUnitsDone(s: State, d: nat)
    requires Inv(s) && s.remaining == 0 && d < |s.dest|
    ensures forall i :: 0 <= i < |s.source| ==> s.source[i].None?
    ensures Row(s.repeat, d) < |s.source| && s.dest[d].Some? && s.dest[d] == s.taken[Row(s.repeat, d)]
  {
    var all := UpTo(Units(|s.source|));
    assert s.done <= all;
    SubsetSize(s.done, all);
    forall i: nat | i < |s.source| ensures Full(s.taken, s.dest, s.repeat, i) && s.source[i].None? {
      assert i / UNIT in all && WholeUnit(s.taken, s.dest, s.repeat, i / UNIT);
    }
    RowInRange(s.repeat, |s.source|, d);
    assert Full(s.taken, s.dest, s.repeat, Row(s.repeat, d));
  }

  /** What a slot held when it was exchanged, and what was written for it, stays. */
  lemma WrittenOnce(s: State, a: Action, i: nat, d: nat)
    requires Inv(s) && Enabled(s, a) && i < |s.source| && d < |s.dest|
    ensures s.taken[i].Some? ==> Step(s, a).taken[i] == s.taken[i] && Step(s, a).source[i].None?
    ensures s.dest[d].Some? ==> Step(s, a).dest[d] == s.dest[d]
    ensures s.taken[i].None? && Step(s, a).taken[i].Some? ==> Step(s, a).taken[i] == s.source[i]
  {
    if a.Go? && s.threads[a.t].Exchanging? {
      ExchangeFindsTable(s, a.t);
    } else if a.Go? && s.threads[a.t].Writing? {
      WriteKeeps(s, a.t);
    }
  }

  ghost predicate CanRun(s: State, run: seq<Action>)
    decreases |run|
  {
    run == [] || (Enabled(s, run[0]) && CanRun(Step(s, run[0]), run[1..]))
  }

  ghost function Final(s: State, run: seq<Action>): State
    requires CanRun(s, run)
    decreases |run|
  {
    if run == [] then s else Final(Step(s, run[0]), run[1..])
  }

  /** The table stored last in a slot that holds table when the run begins. */
  function LastStored(table: nat, slot: nat, run: seq<Action>): nat
    decreases |run|
  {
    if run == [] then table
    else LastStored(if run[0].Swap? && run[0].slot == slot then run[0].table else table, slot, run[1..])
  }

  /** The table of a slot: what it holds, or what it held when it was exchanged. */
  ghost function TableOf(s: State, slot: nat): Option<nat>
    requires slot < |s.source| == |s.taken|
  {
    if s.source[slot].Some? then s.source[slot] else s.taken[slot]
  }

  /**
   Over every run of workers and of threads that change slots: no change of a slot is lost.  The
   slot holds the table stored in it last, and once it is exchanged, that table is what was taken.
   */
  lemma {:induction false} NoChangeIsLost(s: State, slot: nat, table: nat, run: seq<Action>)
    requires Inv(s) && CanRun(s, run) && slot < |s.source| && TableOf(s, slot) == Some(table)
    ensures var s' := Final(s, run);
            Inv(s') && slot < |s'.source| && TableOf(s', slot) == Some(LastStored(table, slot, run))
    decreases |run|
  {
    if run != [] {
      TableOfStep(s, run[0], slot, table);
      StepKeepsInv(s, run[0]);
      assert [run[0]][1..] == [];
      hide Inv, Step, Enabled, TableOf;
      NoChangeIsLost(Step(s, run[0]), slot, LastStored(table, slot, [run[0]]), run[1..]);
    }
  }

  lemma TableOfStep(s: State, a: Action, slot: nat, table: nat)
    requires Inv(s) && Enabled(s, a) && slot < |s.source| && TableOf(s, slot) == Some(table)
    ensures slot < |Step(s, a).source| == |Step(s, a).taken|
    ensures TableOf(Step(s, a), slot) == Some(LastStored(table, slot, [a]))
  {
    assert [a][1..] == [];
    if a.Go? && s.threads[a.t].Exchanging? {
      ExchangeFindsTable(s, a.t);
    }
    hide UnitsOk, DestOk, ThreadsOk, Apart, StatusOk;
  }

  /** locateTable: the slot of a hash in a tree with that many hashes per slot, a power of two. */
  function SlotOf(range: nat, h: nat): nat
    requires range > 0
  {
    h / range
  }

  /**
   locateTable in the new tree: with repeat times as many hashes per slot of the old tree as of
   the new one, every hash finds the table that its old slot held when it was exchanged.
   */
  lemma HashesAreRouted(s: State, t: nat, newRange: nat, oldRange: nat, h: nat)
    requires Inv(s) && t < |s.threads| && s.threads[t].Publishing?
    requires 0 < newRange <= oldRange == newRange * s.repeat && h < newRange * |s.dest|
    ensures SlotOf(newRange, h) < |s.dest| && SlotOf(oldRange, h) < |s.source|
    ensures s.dest[SlotOf(newRange, h)].Some? && s.dest[SlotOf(newRange, h)] == s.taken[SlotOf(oldRange, h)]
  {
    Below(newRange, |s.dest|, h);
    Shifts(newRange, s.repeat, h);
    PublishedIsComplete(s, t, SlotOf(newRange, h));
  }

  lemma Below(m: nat, n: nat, h: nat)
    requires m > 0 && h < m * n
    ensures SlotOf(m, h) < n
  {
    assert h == (h / m) * m + h % m;
    Scale(h / m, n, m);
  }

  /** Shifting in two steps is shifting once. */
  lemma Shifts(m: nat, k: nat, h: nat)
    requires m > 0 && k > 0 && m * k > 0
    ensures SlotOf(m * k, h) == Row(k, SlotOf(m, h))
  {
    var d := h / m;
    var q, c, r := d / k, d % k, h % m;
    assert h == (q * k + c) * m + r;
    assert (q * k + c) * m == q * (m * k) + c * m;
    Scale(k - 1, c, m);
    Spread(m, k, c, r);
    Quotient(m * k, h, q, c * m + r);
  }

  lemma Spread(m: nat, k: nat, c: nat, r: nat)
    requires c < k && r < m
    ensures 0 <= c * m + r < m * k
  {
    Scale(k, c + 1, m);
    assert (c + 1) * m == c * m + m;
  }
}
