/**
 Quiescent-state-based reclamation: an enqueued action runs once every context that was in use
 has been quiescent since.  Actions are identified by their order of enqueueing.
 */
module Qsbr {
  import opened Options

  /** nextFree is a signed bit field of 14 bits. */
  datatype Status = Status(inUse: bool, wasIdle: bool, nextFree: int)

  type Action = nat

  datatype State = State(
    status: seq<Status>,
    freeIndex: int,
    numContexts: int,
    remaining: int,
    deferred: seq<Action>,
    pending: seq<Action>,
    executed: seq<Action>)

  datatype Event = Create | Destroy(context: nat) | Update(context: nat) | Enqueue(action: Action)

  /** What a signed 14-bit field keeps of a number. */
  function S14(x: int): int {
    (x + 8192) % 16384 - 8192
  }

  const INITIAL := State([], -1, 0, 0, [], [], [])

  function Awake(status: seq<Status>): (r: seq<Status>)
    ensures |r| == |status|
    ensures forall i :: 0 <= i < |status| ==> r[i] == status[i].(wasIdle := false)
  {
    seq(|status|, i requires 0 <= i < |status| => status[i].(wasIdle := false))
  }

  /** onAllQuiescentStatesPassed, and the execution of the actions it hands out. */
  function Quiesce(s: State): State {
    s.(executed := s.executed + s.pending, pending := s.deferred, deferred := [],
       remaining := s.numContexts, status := Awake(s.status))
  }

  predicate InUse(s: State, c: nat) {
    c < |s.status| && s.status[c].inUse
  }

  /**
   What the source asserts, without its assertion that the slot createContext hands out is unused;
   a context is destroyed only while it is in use.
   */
  predicate Enabled(s: State, e: Event) {
    match e
    case Create => s.numContexts + 1 < 16384 && s.freeIndex < |s.status|
    case Destroy(c) => InUse(s, c)
    case Update(c) => InUse(s, c)
    case Enqueue(_) => true
  }

  function Released(s: State, c: nat): State
    requires InUse(s, c)
  {
    s.(remaining := if s.status[c].wasIdle then s.remaining else s.remaining - 1,
       status := s.status[c := Status(false, s.status[c].wasIdle, S14(s.freeIndex))],
       freeIndex := c,
       numContexts := s.numContexts - 1)
  }

  function Apply(s: State, e: Event): State
    requires Enabled(s, e)
  {
    match e
    case Create =>
      if s.freeIndex >= 0 then
        s.(numContexts := s.numContexts + 1, remaining := s.remaining + 1,
           freeIndex := s.status[s.freeIndex].nextFree, status := s.status[s.freeIndex := Status(true, false, 0)])
      else
        s.(numContexts := s.numContexts + 1, remaining := s.remaining + 1, status := s.status + [Status(true, false, 0)])
    case Destroy(c) =>
      var r := Released(s, c);
      if r.remaining == 0 then Quiesce(r) else r
    case Update(c) =>
      if s.status[c].wasIdle then s
      else
        var r := s.(status := s.status[c := s.status[c].(wasIdle := true)], remaining := s.remaining - 1);
        if r.remaining > 0 then r else Quiesce(r)
    case Enqueue(a) => s.(deferred := s.deferred + [a])
  }

  function After(es: seq<Event>): Option<State>
    decreases |es|
  {
    if es == [] then Some(INITIAL)
    else
      match After(es[..|es| - 1])
      case None => None
      case Some(s) => if Enabled(s, es[|es| - 1]) then Some(Apply(s, es[|es| - 1])) else None
  }

  lemma AfterOne(es: seq<Event>, e: Event)
    requires After(es).Some? && Enabled(After(es).value, e)
    ensures After(es + [e]) == Some(Apply(After(es).value, e))
  {
    assert (es + [e])[..|es|] == es;
  }

  // ---------------------------------------------------------------- the free list

  /** l is the list of slots that starts at free. */
  ghost predicate Chain(status: seq<Status>, free: int, l: seq<nat>)
    decreases |l|
  {
    if l == [] then free < 0
    else free == l[0] && l[0] < |status| && Chain(status, status[l[0]].nextFree, l[1..])
  }

  ghost predicate NoRepeats(l: seq<nat>) {
    forall i, j :: 0 <= i < j < |l| ==> l[i] != l[j]
  }

  ghost predicate OnlyUnused(status: seq<Status>, l: seq<nat>) {
    forall i :: 0 <= i < |l| ==> l[i] < |status| && !status[l[i]].inUse
  }

  ghost predicate Covers(status: seq<Status>, l: seq<nat>) {
    forall i: nat :: i < |status| && !status[i].inUse ==> i in l
  }

  ghost predicate IsFreeList(status: seq<Status>, free: int, l: seq<nat>) {
    Chain(status, free, l) && NoRepeats(l) && OnlyUnused(status, l)
  }

  /** The free list ends, and it holds unused slots only. */
  ghost predicate FreeListSafe(status: seq<Status>, free: int) {
    exists l: seq<nat> :: IsFreeList(status, free, l)
  }

  /** The free list holds every unused slot once. */
  ghost predicate FreeListComplete(status: seq<Status>, free: int) {
    exists l: seq<nat> :: IsFreeList(status, free, l) && Covers(status, l)
  }

  lemma {:induction false} ChainStays(status: seq<Status>, status': seq<Status>, free: int, l: seq<nat>)
    requires Chain(status, free, l) && |status| <= |status'|
    requires forall i :: 0 <= i < |l| && l[i] < |status| ==> status'[l[i]].nextFree == status[l[i]].nextFree
    ensures Chain(status', free, l)
    decreases |l|
  {
    if l != [] {
      assert status'[l[0]].nextFree == status[l[0]].nextFree;
      forall i | 0 <= i < |l[1..]| && l[1..][i] < |status| ensures status'[l[1..][i]].nextFree == status[l[1..][i]].nextFree {
        assert l[1..][i] == l[i + 1];
      }
      ChainStays(status, status', status[l[0]].nextFree, l[1..]);
    }
  }

  /** A chain from a slot of another chain is the rest of that chain. */
  lemma {:induction false} ChainIsUnique(status: seq<Status>, free: int, l: seq<nat>, k: seq<nat>, p: nat)
    requires Chain(status, free, l) && p < |l| && Chain(status, l[p], k)
    ensures k == l[p..]
    decreases p, |k|
  {
    if p > 0 {
      assert l[1..][p - 1] == l[p];
      ChainIsUnique(status, status[l[0]].nextFree, l[1..], k, p - 1);
      assert l[1..][p - 1..] == l[p..];
    } else {
      SameChain(status, free, l, k);
      assert l[0..] == l;
    }
  }

  lemma {:induction false} SameChain(status: seq<Status>, free: int, l: seq<nat>, k: seq<nat>)
    requires Chain(status, free, l) && Chain(status, free, k)
    ensures l == k
    decreases |l|
  {
    if l != [] && k != [] {
      SameChain(status, status[l[0]].nextFree, l[1..], k[1..]);
      assert l == [l[0]] + l[1..] && k == [k[0]] + k[1..];
    }
  }

  lemma FitsS14(x: int)
    ensures S14(x) == x <==> -8192 <= x < 8192
  {
  }

  lemma TailHas(l: seq<nat>)
    requires NoRepeats(l) && l != []
    ensures forall i :: i in l[1..] <==> i in l && i != l[0]
  {
    assert l == [l[0]] + l[1..];
    assert forall j :: 0 <= j < |l[1..]| ==> l[1..][j] == l[j + 1];
  }

  lemma TailOf(status: seq<Status>, l: seq<nat>)
    requires NoRepeats(l) && OnlyUnused(status, l) && l != []
    ensures NoRepeats(l[1..]) && OnlyUnused(status, l[1..])
  {
  }

  /** The new list is the freed slot and whatever its nextFree field leads to. */
  lemma ReleaseSlot(status: seq<Status>, free: int, c: nat, idle: bool, l: seq<nat>)
    requires IsFreeList(status, S14(free), l) && c < |status| && status[c].inUse
    ensures var status' := status[c := Status(false, idle, S14(free))];
            IsFreeList(status', c, [c] + l) && (Covers(status, l) ==> Covers(status', [c] + l))
  {
    var status' := status[c := Status(false, idle, S14(free))];
    hide S14;
    ChainStays(status, status', S14(free), l);
    var k := [c] + l;
    assert k[1..] == l;
    assert Covers(status, l) ==> Covers(status', k) by {
      assert k[0] == c;
      assert forall i :: i in l ==> i in k;
    }
  }

  lemma ReleasedList(status: seq<Status>, free: int, c: nat, idle: bool, k: seq<nat>)
    requires c < |status| && status[c].inUse && IsFreeList(status[c := Status(false, idle, S14(free))], c, k)
    ensures k != [] && k[0] == c && IsFreeList(status, S14(free), k[1..])
    ensures Covers(status[c := Status(false, idle, S14(free))], k) ==> Covers(status, k[1..])
  {
    var status' := status[c := Status(false, idle, S14(free))];
    var rest := k[1..];
    TailHas(k);
    TailOf(status', k);
    hide S14, NoRepeats;
    ChainStays(status', status, S14(free), rest);
    assert c !in rest;
    assert OnlyUnused(status, rest);
    assert Covers(status', k) ==> Covers(status, rest) by {
      hide Chain;
    }
  }

  /**
   Destroying a context leaves unused slots only on the free list exactly when the 14 bits that are
   kept of the previous head lead to unused slots only.
   */
  lemma DestroyStaysSafe(s: State, c: nat)
    requires InUse(s, c)
    ensures FreeListSafe(Released(s, c).status, Released(s, c).freeIndex) <==> FreeListSafe(s.status, S14(s.freeIndex))
  {
    var free, idle := s.freeIndex, s.status[c].wasIdle;
    hide S14, IsFreeList;
    if l: seq<nat> :| IsFreeList(s.status, S14(free), l) {
      ReleaseSlot(s.status, free, c, idle, l);
    }
    if k: seq<nat> :| IsFreeList(Released(s, c).status, c, k) {
      ReleasedList(s.status, free, c, idle, k);
    }
  }

  /** With at most 16384 slots the head is kept, or its 14 bits are negative and the list is cut there. */
  lemma TruncatedHead(status: seq<Status>, free: int)
    requires FreeListSafe(status, free) && -8192 <= free < 16384
    ensures FreeListSafe(status, S14(free))
    ensures free < 8192 ==> S14(free) == free
    ensures free >= 8192 ==> S14(free) < 0
  {
    if free >= 8192 {
      assert IsFreeList(status, S14(free), []);
    }
  }

  lemma NotInTail(l: seq<nat>, p: nat)
    requires NoRepeats(l) && 0 < p < |l|
    ensures l[0] !in l[p..]
  {
    assert forall q :: 0 <= q < |l| - p ==> l[p..][q] == l[p + q];
  }

  /** Two lists of all unused slots start at the same slot. */
  lemma OneHead(status: seq<Status>, free: int, l: seq<nat>, other: int, k: seq<nat>)
    requires IsFreeList(status, free, l) && Covers(status, l) && IsFreeList(status, other, k) && Covers(status, k) && free >= 0
    ensures free == other
  {
    assert l[0] == free && l[0] in k;
    var y := k[0];
    assert y in l;
    var p: nat :| p < |l| && l[p] == y;
    ChainIsUnique(status, free, l, k, p);
    if p > 0 {
      NotInTail(l, p);
    }
  }

  /**
   destroyContext keeps every unused slot on the free list exactly when the slot that was freed
   before it is below 8192; the source allows twice as many contexts.
   */
  lemma DestroyKeepsFreeList(s: State, c: nat)
    requires FreeListComplete(s.status, s.freeIndex) && InUse(s, c) && s.freeIndex >= -8192
    ensures FreeListComplete(Released(s, c).status, Released(s, c).freeIndex) <==> s.freeIndex < 8192
  {
    var free, idle := s.freeIndex, s.status[c].wasIdle;
    FitsS14(free);
    hide S14, IsFreeList, Covers;
    var l: seq<nat> :| IsFreeList(s.status, free, l) && Covers(s.status, l);
    if free < 8192 {
      ReleaseSlot(s.status, free, c, idle, l);
    } else if k: seq<nat> :| IsFreeList(Released(s, c).status, c, k) && Covers(Released(s, c).status, k) {
      ReleasedList(s.status, free, c, idle, k);
      OneHead(s.status, free, l, S14(free), k[1..]);
      assert false;
    }
  }

  /** Slots that differ in wasIdle only have the same list. */
  lemma SameSlots(status: seq<Status>, status': seq<Status>, free: int, l: seq<nat>)
    requires IsFreeList(status, free, l) && |status'| == |status|
    requires forall i :: 0 <= i < |status| ==> status'[i].inUse == status[i].inUse && status'[i].nextFree == status[i].nextFree
    ensures IsFreeList(status', free, l) && (Covers(status, l) ==> Covers(status', l))
  {
    ChainStays(status, status', free, l);
  }

  /** Taking the first slot of the list. */
  lemma TakeSlot(status: seq<Status>, free: int, l: seq<nat>)
    requires IsFreeList(status, free, l) && free >= 0
    ensures l != [] && free < |status| && !status[free].inUse
    ensures var status' := status[free := Status(true, false, 0)];
            IsFreeList(status', status[free].nextFree, l[1..]) && (Covers(status, l) ==> Covers(status', l[1..]))
  {
    var status' := status[free := Status(true, false, 0)];
    var rest := l[1..];
    TailHas(l);
    TailOf(status, l);
    hide NoRepeats;
    ChainStays(status, status', status[free].nextFree, rest);
    assert free !in rest;
    assert OnlyUnused(status', rest);
    assert Covers(status, l) ==> Covers(status', rest) by {
      hide Chain;
    }
  }

  lemma AppendSlot(status: seq<Status>, free: int, l: seq<nat>)
    requires IsFreeList(status, free, l)
    ensures var status' := status + [Status(true, false, 0)];
            IsFreeList(status', free, l) && (Covers(status, l) ==> Covers(status', l))
  {
    ChainStays(status, status + [Status(true, false, 0)], free, l);
  }

  // ---------------------------------------------------------------- the counters

  function CountInUse(status: seq<Status>): nat {
    if status == [] then 0 else CountInUse(status[..|status| - 1]) + if status[|status| - 1].inUse then 1 else 0
  }

  /** Contexts in use that have not been quiescent in this interval. */
  function CountActive(status: seq<Status>): nat {
    if status == [] then 0
    else CountActive(status[..|status| - 1]) + if status[|status| - 1].inUse && !status[|status| - 1].wasIdle then 1 else 0
  }

  lemma {:induction false} CountOne(status: seq<Status>, c: nat, x: Status)
    requires c < |status|
    ensures CountInUse(status[c := x]) - (if x.inUse then 1 else 0) == CountInUse(status) - (if status[c].inUse then 1 else 0)
    ensures CountActive(status[c := x]) - (if x.inUse && !x.wasIdle then 1 else 0)
         == CountActive(status) - (if status[c].inUse && !status[c].wasIdle then 1 else 0)
    decreases |status|
  {
    var last := |status| - 1;
    if c < last {
      assert status[c := x][..last] == status[..last][c := x];
      CountOne(status[..last], c, x);
    } else {
      assert status[c := x][..last] == status[..last];
    }
  }

  lemma {:induction false} CountAwake(status: seq<Status>)
    ensures CountInUse(Awake(status)) == CountActive(Awake(status)) == CountInUse(status)
    decreases |status|
  {
    if status != [] {
      var last := |status| - 1;
      assert Awake(status)[..last] == Awake(status[..last]);
      CountAwake(status[..last]);
    }
  }

  lemma {:induction false} NoneActive(status: seq<Status>, c: nat)
    requires CountActive(status) == 0 && c < |status|
    ensures !status[c].inUse || status[c].wasIdle
    decreases |status|
  {
    var last := |status| - 1;
    if c < last {
      NoneActive(status[..last], c);
      assert status[..last][c] == status[c];
    }
  }

  lemma {:induction false} ActiveInUse(status: seq<Status>)
    ensures CountActive(status) <= CountInUse(status)
    decreases |status|
  {
    if status != [] {
      ActiveInUse(status[..|status| - 1]);
    }
  }

  lemma CountAppend(status: seq<Status>, x: Status)
    ensures CountInUse(status + [x]) == CountInUse(status) + if x.inUse then 1 else 0
    ensures CountActive(status + [x]) == CountActive(status) + if x.inUse && !x.wasIdle then 1 else 0
  {
    assert (status + [x])[..|status|] == status;
  }

  ghost predicate CountsOk(s: State) {
    && s.remaining == CountActive(s.status)
    && s.numContexts == CountInUse(s.status)
    && (s.numContexts > 0 ==> s.remaining > 0)
  }

  /** Whatever slots are handed out, a round waits for every active context. */
  ghost predicate CountsCover(s: State) {
    s.remaining >= CountActive(s.status) && s.numContexts >= CountInUse(s.status)
  }

  ghost predicate FieldsOk(status: seq<Status>, free: int) {
    free >= -8192 && forall i :: 0 <= i < |status| ==> -8192 <= status[i].nextFree < 8192
  }

  /** No index leads outside the slots. */
  ghost predicate IndexOk(status: seq<Status>, free: int) {
    free < |status| && forall i :: 0 <= i < |status| ==> status[i].nextFree < |status|
  }

  ghost predicate Inv(s: State) {
    CountsOk(s) && FreeListSafe(s.status, s.freeIndex)
  }

  lemma QuiesceCounts(s: State)
    requires s.numContexts == CountInUse(s.status)
    ensures CountsOk(Quiesce(s))
  {
    CountAwake(s.status);
  }

  lemma HeadUnused(status: seq<Status>, free: int)
    requires FreeListSafe(status, free) && free >= 0
    ensures free < |status| && !status[free].inUse
  {
    var l: seq<nat> :| IsFreeList(status, free, l);
    TakeSlot(status, free, l);
  }

  /** The slot that createContext returns. */
  function HandedOut(s: State): nat {
    if s.freeIndex >= 0 then s.freeIndex else |s.status|
  }

  lemma CreateChanges(s: State)
    requires Enabled(s, Create)
    ensures InUse(Apply(s, Create), HandedOut(s))
    ensures forall c :: c != HandedOut(s) ==> InUse(Apply(s, Create), c) == InUse(s, c)
  {
  }

  lemma HandsOutUnused(s: State)
    requires Inv(s) && Enabled(s, Create)
    ensures !InUse(s, HandedOut(s))
  {
    if s.freeIndex >= 0 {
      HeadUnused(s.status, s.freeIndex);
    }
  }

  lemma StepKeepsCounts(s: State, e: Event)
    requires Inv(s) && Enabled(s, e)
    ensures CountsOk(Apply(s, e))
  {
    match e
    case Create =>
      if s.freeIndex >= 0 {
        HeadUnused(s.status, s.freeIndex);
        CountOne(s.status, s.freeIndex, Status(true, false, 0));
      } else {
        CountAppend(s.status, Status(true, false, 0));
      }
    case Destroy(c) =>
      var r := Released(s, c);
      CountOne(s.status, c, r.status[c]);
      QuiesceCounts(r);
    case Update(c) =>
      if !s.status[c].wasIdle {
        var r := s.(status := s.status[c := s.status[c].(wasIdle := true)], remaining := s.remaining - 1);
        CountOne(s.status, c, s.status[c].(wasIdle := true));
        QuiesceCounts(r);
      }
    case Enqueue(_) =>
  }

  lemma StepKeepsCover(s: State, e: Event)
    requires CountsCover(s) && Enabled(s, e)
    ensures CountsCover(Apply(s, e))
  {
    match e
    case Create =>
      if s.freeIndex >= 0 {
        CountOne(s.status, s.freeIndex, Status(true, false, 0));
      } else {
        CountAppend(s.status, Status(true, false, 0));
      }
    case Destroy(c) =>
      var r := Released(s, c);
      CountOne(s.status, c, r.status[c]);
      CountAwake(r.status);
    case Update(c) =>
      if !s.status[c].wasIdle {
        var status := s.status[c := s.status[c].(wasIdle := true)];
        CountOne(s.status, c, s.status[c].(wasIdle := true));
        CountAwake(status);
      }
    case Enqueue(_) =>
  }

  /** Apart from a destroy, an event leaves a list that is as good as the one before. */
  lemma OtherListStep(s: State, e: Event, l: seq<nat>) returns (l': seq<nat>)
    requires IsFreeList(s.status, s.freeIndex, l) && Enabled(s, e) && !e.Destroy?
    ensures IsFreeList(Apply(s, e).status, Apply(s, e).freeIndex, l')
    ensures Covers(s.status, l) ==> Covers(Apply(s, e).status, l')
  {
    hide IsFreeList, Covers;
    l' := l;
    match e
    case Create =>
      if s.freeIndex >= 0 {
        TakeSlot(s.status, s.freeIndex, l);
        l' := l[1..];
      } else {
        AppendSlot(s.status, s.freeIndex, l);
      }
    case Update(c) => SameSlots(s.status, Apply(s, e).status, s.freeIndex, l);
    case Enqueue(_) =>
    case Destroy(_) =>
  }

  /** Waking the contexts after a destroy does not touch the list. */
  lemma DestroyList(s: State, c: nat)
    requires InUse(s, c)
    ensures Apply(s, Destroy(c)).freeIndex == Released(s, c).freeIndex
    ensures FreeListSafe(Released(s, c).status, c) ==> FreeListSafe(Apply(s, Destroy(c)).status, c)
    ensures FreeListComplete(Released(s, c).status, c) ==> FreeListComplete(Apply(s, Destroy(c)).status, c)
  {
    var r, t := Released(s, c), Apply(s, Destroy(c));
    hide IsFreeList, Covers, S14;
    if l: seq<nat> :| IsFreeList(r.status, c, l) && Covers(r.status, l) {
      SameSlots(r.status, t.status, c, l);
    }
    if l: seq<nat> :| IsFreeList(r.status, c, l) {
      SameSlots(r.status, t.status, c, l);
    }
  }

  /** An event that does not cut the list keeps it complete. */
  lemma StepKeepsFreeList(s: State, e: Event)
    requires FreeListComplete(s.status, s.freeIndex) && Enabled(s, e) && s.freeIndex >= -8192
    requires e.Destroy? ==> s.freeIndex < 8192
    ensures FreeListComplete(Apply(s, e).status, Apply(s, e).freeIndex)
  {
    hide IsFreeList, Covers;
    if e.Destroy? {
      DestroyKeepsFreeList(s, e.context);
      DestroyList(s, e.context);
    } else {
      var l: seq<nat> :| IsFreeList(s.status, s.freeIndex, l) && Covers(s.status, l);
      var l' := OtherListStep(s, e, l);
    }
  }

  /** An event keeps the list safe, a destroy if the 14 bits of the head do. */
  lemma StepStaysSafe(s: State, e: Event)
    requires FreeListSafe(s.status, s.freeIndex) && Enabled(s, e)
    requires e.Destroy? ==> FreeListSafe(s.status, S14(s.freeIndex))
    ensures FreeListSafe(Apply(s, e).status, Apply(s, e).freeIndex)
  {
    hide IsFreeList, S14;
    if e.Destroy? {
      DestroyStaysSafe(s, e.context);
      DestroyList(s, e.context);
    } else {
      var l: seq<nat> :| IsFreeList(s.status, s.freeIndex, l);
      var l' := OtherListStep(s, e, l);
    }
  }

  lemma StepKeepsIndex(s: State, e: Event)
    requires IndexOk(s.status, s.freeIndex) && FieldsOk(s.status, s.freeIndex) && Enabled(s, e)
    ensures IndexOk(Apply(s, e).status, Apply(s, e).freeIndex) && FieldsOk(Apply(s, e).status, Apply(s, e).freeIndex)
    ensures |s.status| <= |Apply(s, e).status|
  {
  }

  /** After every history all indices are inside the slots: createContext's first assertion holds. */
  lemma {:induction false} RunKeepsIndex(es: seq<Event>)
    requires After(es).Some?
    ensures var s := After(es).value; IndexOk(s.status, s.freeIndex) && FieldsOk(s.status, s.freeIndex)
    decreases |es|
  {
    if es != [] {
      RunKeepsIndex(es[..|es| - 1]);
      StepKeepsIndex(After(es[..|es| - 1]).value, es[|es| - 1]);
      hide IndexOk, FieldsOk, Apply, Enabled;
    }
  }

  lemma CreateHappens(es: seq<Event>)
    requires After(es).Some? && After(es).value.numContexts + 1 < 16384
    ensures var s := After(es).value;
            && s.freeIndex < |s.status| && Enabled(s, Create) && After(es + [Create]) == Some(Apply(s, Create))
            && InUse(Apply(s, Create), HandedOut(s))
            && (forall c :: c != HandedOut(s) ==> InUse(Apply(s, Create), c) == InUse(s, c))
            && (|s.status| <= 16384 ==> !InUse(s, HandedOut(s)))
  {
    var s := After(es).value;
    RunKeepsIndex(es);
    AfterOne(es, Create);
    CreateChanges(s);
    hide InUse, After, FieldsOk;
    if |s.status| <= 16384 {
      RunKeepsInv(es);
      HandsOutUnused(s);
    }
  }

  lemma StepKeepsInv(s: State, e: Event)
    requires Inv(s) && Enabled(s, e) && -8192 <= s.freeIndex < 16384
    ensures Inv(Apply(s, e))
  {
    StepKeepsCounts(s, e);
    TruncatedHead(s.status, s.freeIndex);
    StepStaysSafe(s, e);
    hide CountsOk, FreeListSafe, S14;
  }

  lemma BeforeLast(es: seq<Event>)
    requires es != [] && After(es).Some?
    ensures var before, last := es[..|es| - 1], es[|es| - 1];
            && After(before).Some? && Enabled(After(before).value, last) && After(es).value == Apply(After(before).value, last)
            && |After(before).value.status| <= |After(es).value.status| && -8192 <= After(before).value.freeIndex < |After(before).value.status|
  {
    RunKeepsIndex(es[..|es| - 1]);
    StepKeepsIndex(After(es[..|es| - 1]).value, es[|es| - 1]);
  }

  lemma {:induction false} RunKeepsCover(es: seq<Event>)
    requires After(es).Some?
    ensures CountsCover(After(es).value)
    decreases |es|
  {
    if es != [] {
      RunKeepsCover(es[..|es| - 1]);
      StepKeepsCover(After(es[..|es| - 1]).value, es[|es| - 1]);
      hide CountsCover, Apply, Enabled;
    }
  }

  /** As long as there are no more than 16384 slots, the counts are right and only unused slots are handed out. */
  lemma {:induction false} RunKeepsInv(es: seq<Event>)
    requires After(es).Some? && |After(es).value.status| <= 16384
    ensures Inv(After(es).value)
    decreases |es|
  {
    if es == [] {
      assert IsFreeList([], -1, []);
    } else {
      BeforeLast(es);
      RunKeepsInv(es[..|es| - 1]);
      StepKeepsInv(After(es[..|es| - 1]).value, es[|es| - 1]);
      hide Inv, Apply, Enabled;
    }
  }

  /** As long as there are no more than 8192 slots, no unused slot is lost. */
  lemma {:induction false} RunKeepsFreeList(es: seq<Event>)
    requires After(es).Some? && |After(es).value.status| <= 8192
    ensures FreeListComplete(After(es).value.status, After(es).value.freeIndex)
    decreases |es|
  {
    if es == [] {
      assert IsFreeList([], -1, []) && Covers([], []);
    } else {
      BeforeLast(es);
      RunKeepsFreeList(es[..|es| - 1]);
      StepKeepsFreeList(After(es[..|es| - 1]).value, es[|es| - 1]);
      hide FreeListComplete, Apply, Enabled;
    }
  }

  // ---------------------------------------------------------------- more slots than the field can name

  /** n calls of createContext. */
  function Creates(n: nat): seq<Event> {
    seq(n, _ => Create)
  }

  function AllBusy(n: nat): State {
    State(seq(n, _ => Status(true, false, 0)), -1, n, n, [], [], [])
  }

  lemma {:induction false} CreatesRun(n: nat)
    requires n < 16384
    ensures After(Creates(n)) == Some(AllBusy(n))
    decreases n
  {
    if n == 0 {
      assert AllBusy(0).status == [];
    } else {
      CreatesRun(n - 1);
      assert Creates(n) == Creates(n - 1) + [Create];
      OneMoreBusy(n);
      AfterOne(Creates(n - 1), Create);
      hide AllBusy, Apply, Enabled, Creates;
    }
  }

  lemma OneMoreBusy(n: nat)
    requires 0 < n < 16384
    ensures Enabled(AllBusy(n - 1), Create) && Apply(AllBusy(n - 1), Create) == AllBusy(n)
  {
    assert AllBusy(n - 1).status + [Status(true, false, 0)] == AllBusy(n).status;
  }

  /** 8193 contexts are enough to lose a slot: the list goes on from 8192 to 0, whose field cannot name 8192. */
  lemma SlotsAreLost() returns (es: seq<Event>)
    ensures After(es).Some? && !FreeListComplete(After(es).value.status, After(es).value.freeIndex)
  {
    var s0 := AllBusy(8193);
    CreatesRun(8193);
    assert IsFreeList(s0.status, -1, []) && Covers(s0.status, []);
    var s1 := Apply(s0, Destroy(8192));
    StepKeepsFreeList(s0, Destroy(8192));
    AfterOne(Creates(8193), Destroy(8192));
    assert s1.freeIndex == 8192 && InUse(s1, 0) && s1.remaining == 8192;
    DestroyKeepsFreeList(s1, 0);
    AfterOne(Creates(8193) + [Destroy(8192)], Destroy(0));
    es := Creates(8193) + [Destroy(8192)] + [Destroy(0)];
    hide FreeListComplete;
    assert Apply(s1, Destroy(0)) == Released(s1, 0);
  }

  /** 16383 contexts in use, the first slot and two others among them, and an empty free list. */
  ghost predicate Crowded(s: State, m: nat) {
    && |s.status| == m + 1 && m > 16381 && -8192 <= s.freeIndex < 0 && s.numContexts == 16383 && s.remaining >= 3
    && InUse(s, 0) && InUse(s, 16381) && InUse(s, m)
  }

  /** Two contexts are destroyed and one is created again: the slot freed first is lost, or another one appears. */
  lemma LoseSlot(es: seq<Event>, m: nat)
    requires After(es).Some? && Crowded(After(es).value, m)
    ensures var all := es + [Destroy(m)] + [Destroy(16381)] + [Create];
            && After(all).Some?
            && var t := After(all).value;
               && |t.status| == m + 1 && t.freeIndex == S14(m) && t.numContexts == 16382 && t.remaining >= 2
               && InUse(t, 0) && InUse(t, 16381)
  {
    var s0 := After(es).value;
    AfterOne(es, Destroy(m));
    var s1 := Apply(s0, Destroy(m));
    assert s1 == Released(s0, m) && s1.freeIndex == m && s1.remaining >= 2;
    AfterOne(es + [Destroy(m)], Destroy(16381));
    var s2 := Apply(s1, Destroy(16381));
    assert s2 == Released(s1, 16381) && s2.status[16381].nextFree == S14(m) && s2.remaining >= 1;
    AfterOne(es + [Destroy(m)] + [Destroy(16381)], Create);
  }

  lemma LoseSlotAndAppend(es: seq<Event>, m: nat) returns (all: seq<Event>)
    requires After(es).Some? && Crowded(After(es).value, m) && S14(m) < 0
    ensures After(all).Some? && Crowded(After(all).value, m + 1)
  {
    LoseSlot(es, m);
    all := es + [Destroy(m)] + [Destroy(16381)] + [Create];
    AfterOne(all, Create);
    all := all + [Create];
  }

  /** Past 16384 slots the assertion that the slot handed out is unused can fail, with 16383 contexts at most. */
  lemma UsedSlotIsHandedOut() returns (es: seq<Event>)
    ensures After(es).Some? && Enabled(After(es).value, Create)
    ensures InUse(After(es).value, HandedOut(After(es).value))
  {
    CreatesRun(16383);
    assert Crowded(AllBusy(16383), 16382);
    var es1 := LoseSlotAndAppend(Creates(16383), 16382);
    var es2 := LoseSlotAndAppend(es1, 16383);
    LoseSlot(es2, 16384);
    es := es2 + [Destroy(16384)] + [Destroy(16381)] + [Create];
  }

  // ---------------------------------------------------------------- histories

  lemma {:induction false} PrefixRuns(es: seq<Event>, i: nat)
    requires After(es).Some? && i <= |es|
    ensures After(es[..i]).Some?
    decreases |es|
  {
    if i < |es| {
      PrefixRuns(es[..|es| - 1], i);
      assert es[..|es| - 1][..i] == es[..i];
    } else {
      assert es[..i] == es;
    }
  }

  function Enqueued(es: seq<Event>): seq<Action> {
    if es == [] then []
    else Enqueued(es[..|es| - 1]) + if es[|es| - 1].Enqueue? then [es[|es| - 1].action] else []
  }

  /** Actions are executed once each, in the order in which they were enqueued; none is lost. */
  lemma {:induction false} ActionsInOrder(es: seq<Event>)
    requires After(es).Some?
    ensures var s := After(es).value; s.executed + s.pending + s.deferred == Enqueued(es)
    decreases |es|
  {
    if es != [] {
      var before := es[..|es| - 1];
      ActionsInOrder(before);
      var s, t := After(before).value, After(es).value;
      ActionsMove(s, es[|es| - 1]);
    }
  }

  lemma ActionsMove(s: State, e: Event)
    requires Enabled(s, e)
    ensures var t := Apply(s, e);
            t.executed + t.pending + t.deferred == s.executed + s.pending + s.deferred + if e.Enqueue? then [e.action] else []
    ensures Apply(s, e).executed == s.executed || Apply(s, e).executed == s.executed + s.pending
  {
    hide S14, Awake;
  }

  /** Context c, in use after the first i events, has neither been quiescent nor been destroyed since. */
  ghost predicate Busy(es: seq<Event>, i: nat, c: nat)
    requires i <= |es| && After(es[..i]).Some?
  {
    InUse(After(es[..i]).value, c) && forall j :: i <= j < |es| ==> es[j] != Update(c) && es[j] != Destroy(c)
  }

  /** The k-th action, enqueued by the i-th event. */
  ghost predicate EnqueuedAt(es: seq<Event>, i: nat, k: nat) {
    i < |es| && es[i].Enqueue? && |Enqueued(es[..i])| == k
  }

  /** What keeps an action from being run: the contexts that are still busy stay in use, and count once it is pending. */
  ghost predicate Waits(s: State, k: nat, c: nat) {
    && (k >= |s.executed| ==> InUse(s, c))
    && (|s.executed| <= k < |s.executed| + |s.pending| ==> c < |s.status| && !s.status[c].wasIdle)
  }

  lemma StepWaits(s: State, e: Event, k: nat, c: nat)
    requires CountsCover(s) && Enabled(s, e) && Waits(s, k, c) && e != Update(c) && e != Destroy(c)
    requires |s.executed| <= k < |s.executed| + |s.pending| + |s.deferred|
    ensures k >= |Apply(s, e).executed| && Waits(Apply(s, e), k, c)
  {
    match e
    case Create =>
    case Destroy(d) =>
      var r := Released(s, d);
      CountOne(s.status, d, r.status[d]);
      if r.remaining == 0 { NoneActive(r.status, c); }
    case Update(d) =>
      if !s.status[d].wasIdle {
        var r := s.status[d := s.status[d].(wasIdle := true)];
        CountOne(s.status, d, s.status[d].(wasIdle := true));
        if s.remaining == 1 { NoneActive(r, c); }
      }
    case Enqueue(_) =>
  }

  lemma WaitsFromTheStart(s: State, e: Event, c: nat)
    requires Enabled(s, e) && e.Enqueue? && InUse(s, c)
    ensures Waits(Apply(s, e), |s.executed| + |s.pending| + |s.deferred|, c)
  {
  }

  lemma BusyBefore(es: seq<Event>, i: nat, c: nat)
    requires i < |es| && After(es[..i]).Some? && Busy(es, i, c)
    ensures es[..|es| - 1][..i] == es[..i] && Busy(es[..|es| - 1], i, c)
    ensures es[|es| - 1] != Update(c) && es[|es| - 1] != Destroy(c)
  {
    var before := es[..|es| - 1];
    assert before[..i] == es[..i];
    hide After, InUse;
    assert forall j :: i <= j < |before| ==> before[j] == es[j];
  }

  lemma {:induction false} BusyWaits(es: seq<Event>, i: nat, k: nat, c: nat)
    requires After(es).Some? && EnqueuedAt(es, i, k) && After(es[..i]).Some? && Busy(es, i, c)
    ensures var s := After(es).value; |s.executed| <= k < |s.executed| + |s.pending| + |s.deferred| && Waits(s, k, c)
    decreases |es|
  {
    var last := |es| - 1;
    var before := es[..last];
    RunKeepsCover(before);
    ActionsInOrder(before);
    ActionsInOrder(es);
    var s := After(before).value;
    hide CountsCover, Apply, Enabled, Waits;
    if i == last {
      assert es[..i] == before;
      WaitsFromTheStart(s, es[last], c);
    } else {
      BusyBefore(es, i, c);
      hide Busy;
      BusyWaits(before, i, k, c);
      StepWaits(s, es[last], k, c);
      ActionsMove(s, es[last]);
    }
  }

  /**
   The grace period: when an action has been executed, every context that was in use when it was
   enqueued has been quiescent or has been destroyed since.
   */
  lemma GracePeriod(es: seq<Event>, i: nat, k: nat, c: nat)
    requires After(es).Some? && EnqueuedAt(es, i, k) && k < |After(es).value.executed|
    ensures After(es[..i]).Some?
    ensures InUse(After(es[..i]).value, c) ==> exists j :: i < j < |es| && (es[j] == Update(c) || es[j] == Destroy(c))
  {
    PrefixRuns(es, i);
    if InUse(After(es[..i]).value, c) && forall j :: i < j < |es| ==> es[j] != Update(c) && es[j] != Destroy(c) {
      assert Busy(es, i, c);
      BusyWaits(es, i, k, c);
      assert false;
    }
  }

  /** The first update of a context in a round brings the end of the round one nearer; the last one ends it. */
  lemma EachContextCountsOnce(s: State, c: nat)
    requires Inv(s) && InUse(s, c) && !s.status[c].wasIdle
    ensures s.remaining >= 1
    ensures var t := Apply(s, Update(c));
            if s.remaining == 1 then t.executed == s.executed + s.pending && t.pending == s.deferred && t.remaining == t.numContexts
            else t.executed == s.executed && t.remaining == s.remaining - 1
  {
    CountOne(s.status, c, s.status[c].(wasIdle := true));
  }

  /** So does a destroy of a context that has not been quiescent; one of an idle context changes nothing else. */
  lemma DestroyCountsOnce(s: State, c: nat)
    requires Inv(s) && InUse(s, c)
    ensures s.remaining >= 1
    ensures var t := Apply(s, Destroy(c));
            && !InUse(t, c) && t.numContexts == s.numContexts - 1
            && if s.remaining == 1 && !s.status[c].wasIdle then
                 t.executed == s.executed + s.pending && t.pending == s.deferred && t.deferred == [] && t.remaining == t.numContexts
               else
                 && t.executed == s.executed && t.pending == s.pending && t.deferred == s.deferred
                 && t.remaining == if s.status[c].wasIdle then s.remaining else s.remaining - 1
  {
    CountOne(s.status, c, Status(false, false, 0));
  }

  // ---------------------------------------------------------------- rounds end

  ghost predicate Active(s: State, c: nat) {
    InUse(s, c) && !s.status[c].wasIdle
  }

  /** The event ends the round: nobody is left to wait for. */
  ghost predicate Ends(s: State, e: Event)
    requires Enabled(s, e)
  {
    match e
    case Create => false
    case Destroy(c) => !s.status[c].wasIdle && s.remaining == 1
    case Update(c) => !s.status[c].wasIdle && s.remaining == 1
    case Enqueue(_) => false
  }

  lemma EndRunsPending(s: State, e: Event)
    requires Inv(s) && Enabled(s, e) && Ends(s, e)
    ensures Apply(s, e).executed == s.executed + s.pending && Apply(s, e).pending == s.deferred && Apply(s, e).deferred == []
  {
  }

  /** Otherwise the round goes on, and only a context that this event creates is active without having been so before. */
  lemma RoundGoesOnStep(s: State, e: Event)
    requires Inv(s) && Enabled(s, e) && s.remaining >= 1 && !Ends(s, e)
    ensures var t := Apply(s, e);
            && t.remaining >= 1 && t.executed == s.executed && t.pending == s.pending
            && forall c :: Active(t, c) ==> (Active(s, c) && e != Update(c) && e != Destroy(c)) || (e == Create && c == HandedOut(s))
  {
    match e
    case Create =>
    case Destroy(c) => DestroyCountsOnce(s, c);
    case Update(c) => if !s.status[c].wasIdle { EachContextCountsOnce(s, c); }
    case Enqueue(_) =>
  }

  /** Context c was active after i events or was created since, and has neither been quiescent nor been destroyed since. */
  ghost predicate ActiveSince(es: seq<Event>, i: nat, c: nat)
    requires i <= |es| && After(es).Some?
    decreases |es|
  {
    if |es| == i then Active(After(es).value, c)
    else
      var before, last := es[..|es| - 1], es[|es| - 1];
      && last != Update(c) && last != Destroy(c)
      && (ActiveSince(before, i, c) || (last == Create && HandedOut(After(before).value) == c))
  }

  /** One of the events after the first i ends a round. */
  ghost predicate RoundEnded(es: seq<Event>, i: nat)
    requires i <= |es| && After(es).Some?
    decreases |es|
  {
    |es| > i && (RoundEnded(es[..|es| - 1], i) || Ends(After(es[..|es| - 1]).value, es[|es| - 1]))
  }

  /** While no round ends, whoever is active has been so since. */
  lemma {:induction false} RoundGoesOn(es: seq<Event>, i: nat)
    requires i <= |es| && After(es).Some? && |After(es).value.status| <= 16384 && After(es[..i]).Some?
    requires After(es[..i]).value.remaining >= 1 && !RoundEnded(es, i)
    ensures After(es).value.remaining >= 1
    ensures forall c :: Active(After(es).value, c) ==> ActiveSince(es, i, c)
    decreases |es|
  {
    if i == |es| {
      assert es[..i] == es;
    } else {
      var before, last := es[..|es| - 1], es[|es| - 1];
      BeforeLast(es);
      RunKeepsInv(before);
      assert before[..i] == es[..i];
      RoundGoesOn(before, i);
      RoundGoesOnStep(After(before).value, last);
      hide Apply, Enabled, Inv, Active, HandedOut, Ends;
    }
  }

  lemma {:induction false} SomeActive(status: seq<Status>) returns (c: nat)
    requires CountActive(status) > 0
    ensures c < |status| && status[c].inUse && !status[c].wasIdle
    decreases |status|
  {
    var last := |status| - 1;
    if status[last].inUse && !status[last].wasIdle {
      c := last;
    } else {
      c := SomeActive(status[..last]);
    }
  }

  /**
   Progress, the converse of the grace period: once every context that was active, and every one
   created since, has been quiescent or been destroyed, the round has ended.
   */
  lemma RoundEnds(es: seq<Event>, i: nat)
    requires i <= |es| && After(es).Some? && |After(es).value.status| <= 16384 && After(es[..i]).Some?
    requires After(es[..i]).value.numContexts > 0 && forall c :: !ActiveSince(es, i, c)
    ensures RoundEnded(es, i)
  {
    StatusGrows(es, i);
    RunKeepsInv(es[..i]);
    RunKeepsInv(es);
    hide After, ActiveSince, Active, RoundEnded;
    if !RoundEnded(es, i) {
      RoundGoesOn(es, i);
      var c := SomeActive(After(es).value.status);
      ActiveHere(es, c);
    }
  }

  lemma ActiveHere(es: seq<Event>, c: nat)
    requires After(es).Some?
    requires c < |After(es).value.status| && After(es).value.status[c].inUse && !After(es).value.status[c].wasIdle
    ensures Active(After(es).value, c)
  {
  }

  lemma {:induction false} StatusGrows(es: seq<Event>, i: nat)
    requires i <= |es| && After(es).Some? && After(es[..i]).Some?
    ensures var s, t := After(es[..i]).value, After(es).value;
            && |s.status| <= |t.status| && |s.executed| <= |t.executed| && |s.executed| + |s.pending| <= |t.executed| + |t.pending|
    decreases |es|
  {
    if i < |es| {
      BeforeLast(es);
      assert es[..|es| - 1][..i] == es[..i];
      StatusGrows(es[..|es| - 1], i);
      ExecutedGrows(After(es[..|es| - 1]).value, es[|es| - 1]);
      hide Apply, Enabled;
    } else {
      assert es[..i] == es;
    }
  }

  lemma ExecutedGrows(s: State, e: Event)
    requires Enabled(s, e)
    ensures var t := Apply(s, e); |s.executed| <= |t.executed| && |s.executed| + |s.pending| <= |t.executed| + |t.pending|
  {
    hide S14, Awake;
  }

  /** When a round has ended, the actions that were pending have been executed, and the deferred ones are pending at least. */
  lemma {:induction false} EndedRoundRuns(es: seq<Event>, i: nat)
    requires i <= |es| && After(es).Some? && |After(es).value.status| <= 16384 && After(es[..i]).Some? && RoundEnded(es, i)
    ensures var s, t := After(es[..i]).value, After(es).value;
            |t.executed| >= |s.executed| + |s.pending| && |t.executed| + |t.pending| >= |s.executed| + |s.pending| + |s.deferred|
    decreases |es|
  {
    var before, last := es[..|es| - 1], es[|es| - 1];
    assert before[..i] == es[..i];
    BeforeLast(es);
    ExecutedGrows(After(before).value, last);
    if RoundEnded(before, i) {
      EndedRoundRuns(before, i);
    } else {
      RunKeepsInv(before);
      EndRunsPending(After(before).value, last);
      StatusGrows(before, i);
      ActionsInOrder(before);
      ActionsInOrder(es[..i]);
      EnqueuedGrows(before, i);
    }
    hide After, Apply, Enabled, Ends, Enqueued, Inv, RoundEnded;
  }

  lemma {:induction false} EnqueuedGrows(es: seq<Event>, i: nat)
    requires i <= |es|
    ensures |Enqueued(es[..i])| <= |Enqueued(es)|
    decreases |es|
  {
    if i < |es| {
      EnqueuedGrows(es[..|es| - 1], i);
      assert es[..|es| - 1][..i] == es[..i];
    } else {
      assert es[..i] == es;
    }
  }

  // ---------------------------------------------------------------- flush

  /** flush: runs everything at once and counts every context again, without clearing wasIdle. */
  function Flush(s: State): State {
    s.(executed := s.executed + s.pending + s.deferred, pending := [], deferred := [], remaining := s.numContexts)
  }

  /** After any history flush leaves nothing to run: all enqueued actions have been executed, each once and in order. */
  lemma FlushRunsEverything(es: seq<Event>)
    requires After(es).Some?
    ensures var s := Flush(After(es).value); s.executed == Enqueued(es) && s.pending == [] && s.deferred == []
  {
    ActionsInOrder(es);
  }

  lemma {:induction false} IdleMakesFewer(status: seq<Status>, c: nat)
    requires c < |status| && status[c].inUse && status[c].wasIdle
    ensures CountActive(status) < CountInUse(status)
    decreases |status|
  {
    var last := |status| - 1;
    ActiveInUse(status[..last]);
    if c < last {
      assert status[..last][c] == status[c];
      IdleMakesFewer(status[..last], c);
    }
  }

  lemma {:induction false} NoIdleMakesEqual(status: seq<Status>)
    requires forall c :: 0 <= c < |status| && status[c].inUse ==> !status[c].wasIdle
    ensures CountActive(status) == CountInUse(status)
    decreases |status|
  {
    if status != [] {
      NoIdleMakesEqual(status[..|status| - 1]);
    }
  }

  /** flush leaves the count right exactly when no context in use is idle. */
  lemma FlushKeepsCount(s: State)
    requires Inv(s)
    ensures Flush(s).remaining == CountActive(Flush(s).status) <==> forall c: nat :: InUse(s, c) ==> !s.status[c].wasIdle
  {
    if c: nat :| InUse(s, c) && s.status[c].wasIdle {
      IdleMakesFewer(s.status, c);
    } else {
      assert forall c: nat :: InUse(s, c) ==> !s.status[c].wasIdle;
      NoIdleMakesEqual(s.status);
    }
  }

  /** One update is enough. */
  lemma FlushBreaksCount() returns (es: seq<Event>)
    ensures After(es).Some?
    ensures Flush(After(es).value).remaining == 2 && CountActive(Flush(After(es).value).status) == 1
  {
    CreatesRun(2);
    AfterOne(Creates(2), Update(0));
    es := Creates(2) + [Update(0)];
    var idle, busy := Status(true, true, 0), Status(true, false, 0);
    assert After(es).value.status == [idle, busy] && After(es).value.numContexts == 2;
    assert CountActive([]) == 0;
    assert [idle][..0] == [] && CountActive([idle]) == 0;
    assert [idle, busy][..1] == [idle] && CountActive([idle, busy]) == 1;
  }

  // ---------------------------------------------------------------- the object

  /** The calls of QSBR are atomic: every one holds the mutex. */
  class QSBR {
    var status: seq<Status>
    var freeIndex: int
    var numContexts: int
    var remaining: int
    var deferredActions: seq<Action>
    var pendingActions: seq<Action>
    ghost var executed: seq<Action>
    ghost var events: seq<Event>

    ghost function View(): State
      reads this
    {
      State(status, freeIndex, numContexts, remaining, deferredActions, pendingActions, executed)
    }

    ghost predicate Valid()
      reads this
    {
      After(events) == Some(View())
    }

    constructor ()
      ensures Valid() && events == []
    {
      status, freeIndex, numContexts, remaining := [], -1, 0, 0;
      deferredActions, pendingActions := [], [];
      executed, events := [], [];
    }

    method CreateContext() returns (context: nat)
      requires Valid() && numContexts + 1 < 16384
      modifies this
      ensures Valid() && events == old(events) + [Create]
      ensures InUse(View(), context) && (old(|status|) <= 16384 ==> !InUse(old(View()), context))
      ensures forall c :: c != context ==> InUse(View(), c) == InUse(old(View()), c)
    {
      ghost var before := View();
      CreateHappens(events);
      hide After, InUse;
      numContexts := numContexts + 1;
      remaining := remaining + 1;
      if freeIndex >= 0 {
        context := freeIndex;
        freeIndex := status[context].nextFree;
        status := status[context := Status(true, false, 0)];
      } else {
        context := |status|;
        status := status + [Status(true, false, 0)];
      }
      assert context == HandedOut(before) && View() == Apply(before, Create);
      events := events + [Create];
    }

    method DestroyContext(context: nat)
      requires Valid() && InUse(View(), context)
      modifies this
      ensures Valid() && events == old(events) + [Destroy(context)]
      ensures !InUse(View(), context)
      ensures forall c :: c != context ==> InUse(View(), c) == InUse(old(View()), c)
      ensures var left := old(remaining) - if old(status)[context].wasIdle then 0 else 1;
              if left == 0 then
                && executed == old(executed) + old(pendingActions) && pendingActions == old(deferredActions)
                && deferredActions == [] && remaining == numContexts
              else
                && executed == old(executed) && pendingActions == old(pendingActions)
                && deferredActions == old(deferredActions) && remaining == left
      ensures numContexts == old(numContexts) - 1
    {
      AfterOne(events, Destroy(context));
      var actions := [];
      if status[context].inUse && !status[context].wasIdle {
        remaining := remaining - 1;
      }
      status := status[context := status[context].(inUse := false)];
      status := status[context := status[context].(nextFree := S14(freeIndex))];
      freeIndex := context;
      numContexts := numContexts - 1;
      ghost var released := Released(old(View()), context);
      assert status == released.status;
      assert View() == released && executed + [] == executed;
      if remaining == 0 {
        actions := OnAllQuiescentStatesPassed();
      }
      RunActions(actions);
      events := events + [Destroy(context)];
    }

    /** Hands out the pending actions and starts a new round. */
    method OnAllQuiescentStatesPassed() returns (actions: seq<Action>)
      modifies this
      ensures actions == old(pendingActions) && events == old(events)
      ensures View().(executed := executed + actions) == Quiesce(old(View()))
    {
      actions, pendingActions := pendingActions, [];
      pendingActions, deferredActions := deferredActions, pendingActions;
      remaining := numContexts;
      for i := 0 to |status|
        invariant |status| == |old(status)|
        invariant forall j :: 0 <= j < |status| ==> status[j] == if j < i then old(status)[j].(wasIdle := false) else old(status)[j]
        invariant View() == old(View()).(status := status, remaining := numContexts, pending := old(deferredActions), deferred := [])
        invariant events == old(events)
      {
        status := status[i := status[i].(wasIdle := false)];
      }
      assert status == Awake(old(status));
    }

    method RunActions(actions: seq<Action>)
      modifies this`executed
      ensures executed == old(executed) + actions
    {
      for i := 0 to |actions|
        invariant executed == old(executed) + actions[..i]
      {
        executed := executed + [actions[i]];
      }
      assert actions[..|actions|] == actions;
    }

    /** The context is quiescent. */
    method Update(context: nat)
      requires Valid() && InUse(View(), context)
      modifies this
      ensures Valid() && events == old(events) + [Event.Update(context)]
      ensures InUse(View(), context) && (old(status)[context].wasIdle || old(remaining) > 1 ==> status[context].wasIdle)
      ensures if old(status)[context].wasIdle || old(remaining) > 1 then
                && executed == old(executed) && pendingActions == old(pendingActions) && deferredActions == old(deferredActions)
                && remaining == old(remaining) - if old(status)[context].wasIdle then 0 else 1
              else
                && executed == old(executed) + old(pendingActions) && pendingActions == old(deferredActions)
                && deferredActions == [] && remaining == numContexts
      ensures numContexts == old(numContexts)
    {
      AfterOne(events, Event.Update(context));
      events := events + [Event.Update(context)];
      if status[context].wasIdle {
        return;
      }
      status := status[context := status[context].(wasIdle := true)];
      remaining := remaining - 1;
      if remaining > 0 {
        return;
      }
      var actions := OnAllQuiescentStatesPassed();
      RunActions(actions);
    }

    method Enqueue(action: Action)
      requires Valid()
      modifies this
      ensures Valid() && events == old(events) + [Event.Enqueue(action)]
    {
      AfterOne(events, Event.Enqueue(action));
      deferredActions := deferredActions + [action];
      events := events + [Event.Enqueue(action)];
    }
  }
}
