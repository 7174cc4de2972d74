/**
 One table of `ConcurrentMap_Linear` under concurrent `find` and `insertOrFind`: every load,
 fetchSub, fetchAdd and compare-exchange is one step, and any number of threads interleave.
 */
module LinearTable {
  import opened Counting
  import opened Ring

  const NULL: nat := 0

  datatype Result = NotFound | AlreadyFound | InsertedNew | Overflow

  /** Where a thread stands; o is the distance of the probed cell from the hash's home. */
  datatype PC =
    | Idle
    | Probing(h: nat, o: nat, insert: bool)
    | TakingPermit(h: nat, o: nat)
    | Refused(h: nat, o: nat)
    | Reserving(h: nat, o: nat)
    | LostRace(h: nat, o: nat, winner: nat)
    | Done(h: nat, o: nat, result: Result)

  /** `remaining` is cellsRemaining. */
  datatype State = State(hashes: seq<nat>, remaining: int, threads: seq<PC>)

  datatype Action = Start(h: nat, insert: bool) | Go

  function Size(st: State): nat { |st.hashes| }

  /** The initial permits: three quarters of the size mask, rounded down. */
  function Capacity(n: nat): int
    requires n > 0
  {
    3 * (n - 1) / 4
  }

  function Cell(hashes: seq<nat>, h: nat, o: nat): nat
    requires o < |hashes|
  {
    Pos(|hashes|, Home(|hashes|, h), o)
  }

  predicate Enabled(st: State, t: nat, a: Action) {
    && t < |st.threads|
    && match a
       case Start(h, _) => (st.threads[t].Idle? || st.threads[t].Done?) && h != NULL && Size(st) > 0
       case Go =>
         match st.threads[t]
         case Idle => false
         case Done(_, _, _) => false
         case Probing(_, o, _) => o < Size(st)
         case TakingPermit(_, o) => o < Size(st)
         case Refused(_, o) => o < Size(st)
         case Reserving(_, o) => o < Size(st)
         case LostRace(_, o, _) => o < Size(st)
  }

  function Step(st: State, t: nat, a: Action): State
    requires Enabled(st, t, a)
  {
    match a
    case Start(h, insert) => st.(threads := st.threads[t := Probing(h, 0, insert)])
    case Go =>
      match st.threads[t]
      case Probing(h, o, insert) =>
        var probe := st.hashes[Cell(st.hashes, h, o)];
        var pc :=
          if probe == h then Done(h, o, AlreadyFound)
          else if probe != NULL then Probing(h, o + 1, insert)
          else if insert then TakingPermit(h, o)
          else Done(h, o, NotFound);
        st.(threads := st.threads[t := pc])
      case TakingPermit(h, o) =>
        st.(remaining := st.remaining - 1,
            threads := st.threads[t := if st.remaining <= 0 then Refused(h, o) else Reserving(h, o)])
      case Refused(h, o) =>
        st.(remaining := st.remaining + 1, threads := st.threads[t := Done(h, o, Overflow)])
      case Reserving(h, o) =>
        var c := Cell(st.hashes, h, o);
        if st.hashes[c] == NULL then
          st.(hashes := st.hashes[c := h], threads := st.threads[t := Done(h, o, InsertedNew)])
        else
          st.(threads := st.threads[t := LostRace(h, o, st.hashes[c])])
      case LostRace(h, o, winner) =>
        st.(remaining := st.remaining + 1,
            threads := st.threads[t := if winner == h then Done(h, o, AlreadyFound) else Probing(h, o + 1, true)])
  }

  // ---------------------------------------------------------------- invariant

  ghost predicate Absent(hashes: seq<nat>, h: nat) {
    forall i :: 0 <= i < |hashes| ==> hashes[i] != h
  }

  ghost function Occupied(hashes: seq<nat>): set<nat> {
    set i: nat | i < |hashes| && hashes[i] != NULL
  }

  /** Threads that own a permit but have not used it. */
  predicate Permitted(pc: PC) { pc.Reserving? || pc.LostRace? }

  ghost function Granted(threads: seq<PC>): set<nat> {
    set t: nat | t < |threads| && Permitted(threads[t])
  }

  /** Threads that took a permit too many and are about to give it back. */
  ghost function Undoing(threads: seq<PC>): set<nat> {
    set t: nat | t < |threads| && threads[t].Refused?
  }

  /** The first o cells from the home of h are all reserved, by other hashes. */
  ghost predicate Passed(hashes: seq<nat>, h: nat, o: nat)
    requires o <= |hashes|
  {
    forall j :: 0 <= j < o ==> hashes[Cell(hashes, h, j)] != NULL && hashes[Cell(hashes, h, j)] != h
  }

  /** Every reserved cell can be reached from its hash's home without crossing an empty cell or the same hash. */
  ghost predicate NoGaps(hashes: seq<nat>) {
    forall i :: 0 <= i < |hashes| && hashes[i] != NULL ==> Passed(hashes, hashes[i], Off(|hashes|, Home(|hashes|, hashes[i]), i))
  }

  ghost predicate Unique(hashes: seq<nat>) {
    forall i, j :: 0 <= i < j < |hashes| && hashes[i] != NULL ==> hashes[i] != hashes[j]
  }

  ghost predicate ThreadOk(hashes: seq<nat>, pc: PC) {
    match pc
    case Idle => true
    case Probing(h, o, _) => h != NULL && o < |hashes| && Passed(hashes, h, o)
    case TakingPermit(h, o) => h != NULL && o < |hashes| && Passed(hashes, h, o)
    case Refused(h, o) => h != NULL && o < |hashes|
    case Reserving(h, o) => h != NULL && o < |hashes| && Passed(hashes, h, o)
    case LostRace(h, o, w) => h != NULL && o < |hashes| && Passed(hashes, h, o) && w != NULL && hashes[Cell(hashes, h, o)] == w
    case Done(h, o, result) =>
      h != NULL && o < |hashes| && (result.AlreadyFound? || result.InsertedNew? ==> hashes[Cell(hashes, h, o)] == h)
  }

  ghost predicate PermitsOk(st: State)
    requires Size(st) > 0
  {
    && st.remaining == Capacity(Size(st)) - |Occupied(st.hashes)| - |Granted(st.threads)| - |Undoing(st.threads)|
    && |Occupied(st.hashes)| + |Granted(st.threads)| <= Capacity(Size(st))
  }

  ghost predicate Inv(st: State) {
    && Size(st) > 0
    && PermitsOk(st)
    && Unique(st.hashes)
    && NoGaps(st.hashes)
    && forall t :: 0 <= t < |st.threads| ==> ThreadOk(st.hashes, st.threads[t])
  }

  // ---------------------------------------------------------------- proof

  /** The permits leave some cell empty, so no probe goes round the whole table. */
  lemma NeverAllPassed(hashes: seq<nat>, h: nat)
    requires |hashes| > 0 && |Occupied(hashes)| <= Capacity(|hashes|)
    ensures !Passed(hashes, h, |hashes|)
  {
    if Passed(hashes, h, |hashes|) {
      var n := |hashes|;
      forall i | i in UpTo(n) ensures i in Occupied(hashes) {
        var o := Off(n, Home(n, h), i);
        assert hashes[Cell(hashes, h, o)] != NULL;
      }
      SubsetSize(UpTo(n), Occupied(hashes));
      assert false;
    }
  }

  /** A hash that is in the table is met before any empty cell. */
  lemma MissMeansAbsent(hashes: seq<nat>, h: nat, o: nat)
    requires NoGaps(hashes) && h != NULL && o < |hashes| && Passed(hashes, h, o) && hashes[Cell(hashes, h, o)] == NULL
    ensures Absent(hashes, h)
  {
    forall i | 0 <= i < |hashes| ensures hashes[i] != h {
      assert Cell(hashes, h, Off(|hashes|, Home(|hashes|, h), i)) == i;
    }
  }

  lemma PassedStays(hashes: seq<nat>, hashes': seq<nat>, h: nat, o: nat)
    requires |hashes'| == |hashes| && o <= |hashes| && Passed(hashes, h, o)
    requires forall i :: 0 <= i < |hashes| && hashes[i] != NULL ==> hashes'[i] == hashes[i]
    ensures Passed(hashes', h, o)
  {
    forall j | 0 <= j < o ensures hashes'[Cell(hashes', h, j)] != NULL && hashes'[Cell(hashes', h, j)] != h {
      assert hashes[Cell(hashes, h, j)] != NULL;
    }
  }

  lemma ReserveKeepsTable(hashes: seq<nat>, h: nat, o: nat)
    requires Unique(hashes) && NoGaps(hashes) && h != NULL && o < |hashes| && Passed(hashes, h, o)
    requires hashes[Cell(hashes, h, o)] == NULL
    ensures var hashes' := hashes[Cell(hashes, h, o) := h];
            Unique(hashes') && NoGaps(hashes') && |Occupied(hashes')| == |Occupied(hashes)| + 1
  {
    var c := Cell(hashes, h, o);
    var hashes' := hashes[c := h];
    MissMeansAbsent(hashes, h, o);
    assert Occupied(hashes') == Occupied(hashes) + {c};
    forall i | 0 <= i < |hashes'| && hashes'[i] != NULL
      ensures Passed(hashes', hashes'[i], Off(|hashes'|, Home(|hashes'|, hashes'[i]), i))
    {
      if i == c {
        OffPos(|hashes|, Home(|hashes|, h), o);
        PassedStays(hashes, hashes', h, o);
      } else {
        PassedStays(hashes, hashes', hashes[i], Off(|hashes|, Home(|hashes|, hashes[i]), i));
      }
    }
  }

  lemma GrantedUpdate(threads: seq<PC>, t: nat, pc: PC)
    requires t < |threads|
    ensures |Granted(threads[t := pc])| == |Granted(threads)| + (if Permitted(pc) then 1 else 0) - (if Permitted(threads[t]) then 1 else 0)
  {
    var before, after := Granted(threads), Granted(threads[t := pc]);
    if Permitted(threads[t]) == Permitted(pc) {
      assert after == before;
    } else if Permitted(pc) {
      assert after == before + {t};
    } else {
      assert before == after + {t};
    }
  }

  lemma UndoingUpdate(threads: seq<PC>, t: nat, pc: PC)
    requires t < |threads|
    ensures |Undoing(threads[t := pc])| == |Undoing(threads)| + (if pc.Refused? then 1 else 0) - (if threads[t].Refused? then 1 else 0)
  {
    var before, after := Undoing(threads), Undoing(threads[t := pc]);
    if threads[t].Refused? == pc.Refused? {
      assert after == before;
    } else if pc.Refused? {
      assert after == before + {t};
    } else {
      assert before == after + {t};
    }
  }

  lemma StepKeepsInv(st: State, t: nat, a: Action)
    requires Inv(st) && Enabled(st, t, a)
    ensures Inv(Step(st, t, a))
  {
    var st' := Step(st, t, a);
    var pc := st.threads[t];
    assert ThreadOk(st.hashes, pc);
    GrantedUpdate(st.threads, t, st'.threads[t]);
    UndoingUpdate(st.threads, t, st'.threads[t]);
    NextThreadOk(st, t, a);
    if a.Go? && pc.Reserving? && st'.hashes != st.hashes {
      ReserveKeepsTable(st.hashes, pc.h, pc.o);
    }
    forall t' | 0 <= t' < |st.threads| && t' != t ensures ThreadOk(st'.hashes, st'.threads[t']) {
      OthersOk(st.hashes, st'.hashes, st.threads[t']);
    }
  }

  lemma OthersOk(hashes: seq<nat>, hashes': seq<nat>, pc: PC)
    requires ThreadOk(hashes, pc) && |hashes'| == |hashes|
    requires forall i :: 0 <= i < |hashes| && hashes[i] != NULL ==> hashes'[i] == hashes[i]
    ensures ThreadOk(hashes', pc)
  {
    if pc.Probing? || pc.TakingPermit? || pc.Reserving? || pc.LostRace? {
      PassedStays(hashes, hashes', pc.h, pc.o);
    }
  }

  lemma NextThreadOk(st: State, t: nat, a: Action)
    requires Inv(st) && Enabled(st, t, a)
    ensures ThreadOk(Step(st, t, a).hashes, Step(st, t, a).threads[t])
  {
    var pc := st.threads[t];
    assert ThreadOk(st.hashes, pc);
    if a.Go? && (pc.Probing? || pc.LostRace?) {
      var probe := st.hashes[Cell(st.hashes, pc.h, pc.o)];
      if probe != NULL && probe != pc.h {
        assert Passed(st.hashes, pc.h, pc.o + 1);
        NeverAllPassed(st.hashes, pc.h);
      }
    }
  }

  // ---------------------------------------------------------------- what callers rely on

  /** The hashes of the table. */
  ghost function Keys(st: State): iset<nat> {
    iset h: nat | h != NULL && !Absent(st.hashes, h)
  }

  /**
   `find` and `insertOrFind` are atomic: each answer is true of the set of hashes at the step
   that gives it, only an InsertedNew changes that set, and it adds a hash that was not there.
   */
  lemma AnswersAreAtomic(st: State, t: nat, a: Action)
    requires Inv(st) && Enabled(st, t, a)
    ensures Inv(Step(st, t, a))
    ensures var pc' := Step(st, t, a).threads[t];
            && (pc'.Done? && pc'.result.InsertedNew? ==> pc'.h !in Keys(st) && Keys(Step(st, t, a)) == Keys(st) + iset{pc'.h})
            && (!(pc'.Done? && pc'.result.InsertedNew?) ==> Keys(Step(st, t, a)) == Keys(st))
            && (pc'.Done? && pc'.result.NotFound? ==> pc'.h !in Keys(st))
            && (pc'.Done? && pc'.result.AlreadyFound? ==> pc'.h in Keys(st) && st.hashes[Cell(st.hashes, pc'.h, pc'.o)] == pc'.h)
  {
    var st' := Step(st, t, a);
    var pc := st.threads[t];
    assert ThreadOk(st.hashes, pc);
    StepKeepsInv(st, t, a);
    if a.Go? && (pc.Probing? || pc.Reserving?) && st.hashes[Cell(st.hashes, pc.h, pc.o)] == NULL {
      MissMeansAbsent(st.hashes, pc.h, pc.o);
    }
    if st'.hashes != st.hashes {
      var c := Cell(st.hashes, pc.h, pc.o);
      forall h: nat | h != NULL ensures !Absent(st'.hashes, h) <==> (h == pc.h || !Absent(st.hashes, h)) {
        if !Absent(st.hashes, h) {
          var i :| 0 <= i < |st.hashes| && st.hashes[i] == h;
          assert st'.hashes[i] == h;
        }
        assert st'.hashes[c] == pc.h;
      }
    }
  }

  /** A cell, once reserved, keeps its hash for good. */
  lemma ReservedStays(st: State, t: nat, a: Action, i: nat)
    requires Enabled(st, t, a) && i < Size(st) && st.hashes[i] != NULL
    ensures Step(st, t, a).hashes[i] == st.hashes[i]
  {
  }

  /** Reserved cells and permits under way never exceed three quarters of the size mask, so an empty cell is left. */
  lemma NeverOverfull(st: State)
    requires Inv(st)
    ensures 4 * (|Occupied(st.hashes)| + |Granted(st.threads)|) <= 3 * (Size(st) - 1)
    ensures exists i :: 0 <= i < Size(st) && st.hashes[i] == NULL
  {
    var n := Size(st);
    if forall i :: 0 <= i < n ==> st.hashes[i] != NULL {
      assert UpTo(n) <= Occupied(st.hashes);
      SubsetSize(UpTo(n), Occupied(st.hashes));
      assert false;
    }
  }

  /** An overflow is reported only when the reserved cells and the permits others hold or are giving back use up the capacity. */
  lemma OverflowMeansFull(st: State, t: nat)
    requires Inv(st) && Enabled(st, t, Go) && st.threads[t].TakingPermit?
    ensures Step(st, t, Go).threads[t].Refused? <==>
              |Occupied(st.hashes)| + |Granted(st.threads)| + |Undoing(st.threads)| >= 3 * (Size(st) - 1) / 4
  {
  }

  /** What a thread has left to do, in steps of its own. */
  function Left(n: nat, pc: PC): int {
    match pc
    case Idle => 0
    case Done(_, _, _) => 0
    case Probing(_, o, _) => 4 * (n - o)
    case TakingPermit(_, o) => 4 * (n - o) - 1
    case Reserving(_, o) => 4 * (n - o) - 2
    case Refused(_, o) => 4 * (n - o) - 2
    case LostRace(_, o, _) => 4 * (n - o) - 3
  }

  /** No call runs for more than one lap of the table, whatever the other threads do. */
  lemma CallsEnd(st: State, t: nat, t': nat, a: Action)
    requires Inv(st) && Enabled(st, t, a) && t' < |st.threads|
    ensures t' == t && a.Go? ==> 0 <= Left(Size(st), Step(st, t, a).threads[t]) < Left(Size(st), st.threads[t])
    ensures t' != t ==> Left(Size(st), Step(st, t, a).threads[t']) == Left(Size(st), st.threads[t'])
    ensures Left(Size(st), st.threads[t']) <= 4 * Size(st)
  {
    StepKeepsInv(st, t, a);
    assert ThreadOk(st.hashes, st.threads[t]) && ThreadOk(st.hashes, st.threads[t']);
    assert ThreadOk(Step(st, t, a).hashes, Step(st, t, a).threads[t]);
  }

  /** A thread that is in the middle of a call can always take its next step. */
  lemma NeverStuck(st: State, t: nat)
    requires Inv(st) && t < |st.threads| && !st.threads[t].Idle? && !st.threads[t].Done?
    ensures Enabled(st, t, Go)
  {
    assert ThreadOk(st.hashes, st.threads[t]);
  }

  /** The thread is in a call of find, or of insertOrFind, for hash h, or has its answer. */
  predicate Serves(pc: PC, h: nat, insert: bool) {
    match pc
    case Idle => false
    case Probing(g, _, i) => g == h && i == insert
    case TakingPermit(g, _) => g == h && insert
    case Refused(g, _) => g == h && insert
    case Reserving(g, _) => g == h && insert
    case LostRace(g, _, _) => g == h && insert
    case Done(g, _, r) => g == h && r in (if insert then {AlreadyFound, InsertedNew, Overflow} else {AlreadyFound, NotFound})
  }

  ghost predicate CanRun(st: State, run: seq<(nat, Action)>)
    decreases |run|
  {
    run == [] || (Enabled(st, run[0].0, run[0].1) && CanRun(Step(st, run[0].0, run[0].1), run[1..]))
  }

  ghost function Final(st: State, run: seq<(nat, Action)>): State
    requires CanRun(st, run)
    decreases |run|
  {
    if run == [] then st else Final(Step(st, run[0].0, run[0].1), run[1..])
  }

  /** One step of the thread in such a call: find leaves cells and permits alone. */
  lemma ServiceStep(st: State, t: nat, h: nat, insert: bool)
    requires Enabled(st, t, Go) && Serves(st.threads[t], h, insert)
    ensures Serves(Step(st, t, Go).threads[t], h, insert)
    ensures !insert ==> Step(st, t, Go).hashes == st.hashes && Step(st, t, Go).remaining == st.remaining
  {
  }

  /** Thread t starts no call in the run. */
  ghost predicate StartsNothing(run: seq<(nat, Action)>, t: nat) {
    forall i :: 0 <= i < |run| && run[i].0 == t ==> run[i].1.Go?
  }

  /**
   A call is served as it was made: from its start on, whatever the other threads do and until the
   thread starts another one, the thread works for that hash, an insert is answered with
   AlreadyFound, InsertedNew or Overflow, and a find with AlreadyFound or NotFound.
   */
  lemma {:induction false} CallIsServed(st: State, t: nat, h: nat, insert: bool, run: seq<(nat, Action)>)
    requires CanRun(st, run) && t < |st.threads| && StartsNothing(run, t)
    requires Serves(st.threads[t], h, insert)
    ensures t < |Final(st, run).threads| && Serves(Final(st, run).threads[t], h, insert)
    decreases |run|
  {
    if run != [] {
      if run[0].0 == t {
        ServiceStep(st, t, h, insert);
      }
      assert forall i :: 0 <= i < |run[1..]| ==> run[1..][i] == run[i + 1];
      hide Serves;
      CallIsServed(Step(st, run[0].0, run[0].1), t, h, insert, run[1..]);
    }
  }

  lemma StartServes(st: State, t: nat, h: nat, insert: bool)
    requires Enabled(st, t, Start(h, insert))
    ensures var st' := Step(st, t, Start(h, insert));
            Serves(st'.threads[t], h, insert) && !st'.threads[t].Done? && st'.hashes == st.hashes && st'.remaining == st.remaining
  {
  }

  /** Table::create. */
  lemma FreshTable(n: nat, k: nat)
    requires n > 0
    ensures Inv(State(seq(n, _ => NULL), 3 * (n - 1) / 4, seq(k, _ => Idle)))
  {
    var st := State(seq(n, _ => NULL), Capacity(n), seq(k, _ => Idle));
    assert Occupied(st.hashes) == {} && Granted(st.threads) == {} && Undoing(st.threads) == {};
  }
}
