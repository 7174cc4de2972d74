/**
 One Hamsou replica as a state machine: its state, the events its handlers are made of, and
 the ledger that every sequence of events keeps.
 */
module HamsouNode {
  import opened Options
  import opened HamsouCalls

  /** Node ids are counted from 0. */
  datatype Config = Config(useCase: UseCase, me: nat, n: nat)

  /**
   list[..stableIndex] is the stable prefix.  The queue is the array of the binary heap behind
   std::priority_queue: its first element is the top, the rest is in no particular order.
   sent is send_ack_call_list.
   */
  datatype Node = Node(
    list: seq<Call>,
    queue: seq<Call>,
    acks: map<Key, nat>,
    failed: set<nat>,
    clock: seq<int>,
    current: AppState,
    currentIndex: nat,
    stable: AppState,
    stableIndex: nat,
    waitToBeStable: nat,
    sent: seq<Key>,
    ackIndex: nat)

  datatype Event =
    | Issued(call: Call)
    | Executed(call: Call)
    | Queued(call: Call, heap: seq<Call>)
    | Dequeued(heap: seq<Call>)
    | Drained(heap: seq<Call>)
    | Counted(key: Key)
    | Stabilized
    | Failed(node: nat)

  function Initial(cfg: Config): Node {
    Node([], [], map[], {}, seq(cfg.n, _ => 0), Start(cfg.useCase), 0, Start(cfg.useCase), 0, 0, [], 0)
  }

  function Acks(acks: map<Key, nat>, key: Key): nat {
    if key in acks then acks[key] else 0
  }

  /** The acknowledgements a call needs; failed nodes are not waited for. */
  function Threshold(cfg: Config, failed: set<nat>, c: Call): int {
    if c.key.node == cfg.me then cfg.n - 1 - |failed| else cfg.n - 1 - |failed| - 1
  }

  /** Some unstable call has to come after c. */
  ghost predicate Hindered(cfg: Config, x: Node, c: Call) {
    exists i :: x.stableIndex <= i < |x.list| && Reachable(cfg.useCase, c, x.list[i])
  }

  /** Some unstable call has to come after c although c has seen it. */
  ghost predicate Blocked(cfg: Config, x: Node, c: Call) {
    exists i :: x.stableIndex <= i < |x.list| && Reachable(cfg.useCase, c, x.list[i]) && Compare(c.clock, x.list[i].clock) == 2
  }

  /** queueHandler: c has seen the top of the queue, or is blocked. */
  ghost predicate MustWait(cfg: Config, x: Node, c: Call) {
    (x.queue != [] && Compare(c.clock, x.queue[0].clock) == 2) || Blocked(cfg, x, c)
  }

  /** The first position from i on whose call has to come after c. */
  function Slot(u: UseCase, list: seq<Call>, i: nat, c: Call): (p: nat)
    requires i <= |list|
    ensures i <= p <= |list|
    ensures forall j :: i <= j < p ==> !Reachable(u, c, list[j])
    ensures p < |list| ==> Reachable(u, c, list[p])
    decreases |list| - i
  {
    if i == |list| || Reachable(u, c, list[i]) then i else Slot(u, list, i + 1, c)
  }

  function Insert(list: seq<Call>, p: nat, c: Call): seq<Call>
    requires p <= |list|
  {
    list[..p] + [c] + list[p..]
  }

  function Tick(clock: seq<int>, j: nat): (r: seq<int>)
    ensures |r| == |clock|
  {
    if j < |clock| then clock[j := clock[j] + 1] else clock
  }

  /** The calls that a failed node leaves behind without any acknowledgement. */
  predicate Orphan(acks: map<Key, nat>, d: nat, c: Call) {
    c.key.node == d && Acks(acks, c.key) == 0
  }

  /** std::remove_if: the other calls, in order. */
  function Survivors(acks: map<Key, nat>, d: nat, cs: seq<Call>): seq<Call>
    decreases |cs|
  {
    if cs == [] then []
    else (if Orphan(acks, d, cs[0]) then [] else [cs[0]]) + Survivors(acks, d, cs[1..])
  }

  /** The effect of executing a remote call, without the queue. */
  function Execute(cfg: Config, x: Node, c: Call): Node
    requires x.stableIndex <= |x.list|
  {
    x.(list := Insert(x.list, Slot(cfg.useCase, x.list, x.stableIndex, c), c),
       currentIndex := x.currentIndex + 1,
       current := UpdateCurrent(x.current, c),
       clock := Tick(x.clock, c.key.node),
       sent := x.sent + [c.key],
       ackIndex := x.ackIndex + 1)
  }

  lemma ExecuteKeeps(cfg: Config, x: Node, c: Call)
    requires x.stableIndex <= |x.list|
    ensures var y := Execute(cfg, x, c); y.queue == x.queue && y.acks == x.acks && y.failed == x.failed
  {
    hide Slot, Insert, Tick, UpdateCurrent;
  }

  ghost predicate Enabled(cfg: Config, x: Node, e: Event) {
    && x.stableIndex <= |x.list|
    && match e
       case Issued(c) => c.key.node == cfg.me < cfg.n && c.clock == Tick(x.clock, cfg.me) && !Hindered(cfg, x, c)
       case Executed(c) => c.key.node < cfg.n && !MustWait(cfg, x, c)
       case Queued(c, heap) => c.key.node < cfg.n && MustWait(cfg, x, c) && multiset(heap) == multiset(x.queue + [c])
       case Dequeued(heap) => x.queue != [] && !Blocked(cfg, x, x.queue[0]) && multiset(heap) == multiset(x.queue[1..])
       case Drained(heap) => x.queue != [] && multiset(heap) == multiset(x.queue[1..])
       case Counted(key) => true
       case Stabilized =>
         && x.stableIndex < |x.list|
         && Acks(x.acks, x.list[x.stableIndex].key) >= Threshold(cfg, x.failed, x.list[x.stableIndex])
       case Failed(d) => d < cfg.n && d !in x.failed
  }

  ghost function Apply(cfg: Config, x: Node, e: Event): Node
    requires Enabled(cfg, x, e)
  {
    match e
    case Issued(c) =>
      x.(clock := c.clock, list := x.list + [c], current := UpdateCurrent(x.current, c), currentIndex := x.currentIndex + 1)
    case Executed(c) => Execute(cfg, x, c)
    case Queued(c, heap) => x.(queue := heap)
    case Dequeued(heap) => Execute(cfg, x, x.queue[0]).(queue := heap)
    case Drained(heap) => Execute(cfg, x, x.queue[0]).(queue := heap)
    case Counted(key) => x.(acks := x.acks[key := Acks(x.acks, key) + 1])
    case Stabilized =>
      x.(stable := Update(x.stable, x.list[x.stableIndex]),
         stableIndex := x.stableIndex + 1,
         waitToBeStable := x.waitToBeStable + 1)
    case Failed(d) =>
      var list := x.list[..x.stableIndex] + Survivors(x.acks, d, x.list[x.stableIndex..]);
      x.(failed := x.failed + {d}, list := list, currentIndex := |list|)
  }

  /** The state after a sequence of events, if each is enabled in turn. */
  ghost function After(cfg: Config, es: seq<Event>): Option<Node>
    decreases |es|
  {
    if es == [] then Some(Initial(cfg))
    else
      match After(cfg, es[..|es| - 1])
      case None => None
      case Some(x) => if Enabled(cfg, x, es[|es| - 1]) then Some(Apply(cfg, x, es[|es| - 1])) else None
  }

  lemma AfterOne(cfg: Config, es: seq<Event>, e: Event)
    requires After(cfg, es).Some? && Enabled(cfg, After(cfg, es).value, e)
    ensures After(cfg, es + [e]) == Some(Apply(cfg, After(cfg, es).value, e))
  {
    assert (es + [e])[..|es|] == es;
  }

  // ---------------------------------------------------------------- the ledger

  /** No call of the list from i on has to precede an earlier one. */
  ghost predicate Ordered(u: UseCase, list: seq<Call>, i: nat) {
    forall j, k :: i <= j < k < |list| ==> !Reachable(u, list[k], list[j])
  }

  /** Every stable call meets the threshold that holds now. */
  ghost predicate Acknowledged(cfg: Config, list: seq<Call>, stableIndex: nat, acks: map<Key, nat>, failed: set<nat>) {
    forall i :: 0 <= i < stableIndex && i < |list| ==> Acks(acks, list[i].key) >= Threshold(cfg, failed, list[i])
  }

  ghost predicate Known(n: nat, cs: seq<Call>) {
    forall i :: 0 <= i < |cs| ==> cs[i].key.node < n
  }

  ghost predicate Counters(cfg: Config, x: Node) {
    && x.currentIndex == |x.list|
    && x.stableIndex <= |x.list|
    && x.waitToBeStable == x.stableIndex
    && |x.clock| == cfg.n
    && x.ackIndex == |x.sent|
  }

  ghost predicate Ledger(cfg: Config, x: Node) {
    && Counters(cfg, x)
    && x.stable == Replay(Start(cfg.useCase), x.list[..x.stableIndex])
    && Acknowledged(cfg, x.list, x.stableIndex, x.acks, x.failed)
    && Ordered(cfg.useCase, x.list, x.stableIndex)
    && Known(cfg.n, x.queue)
  }

  /** A call that has to precede another has none that has to precede it. */
  lemma Bipartite(u: UseCase, a: Call, b: Call, c: Call)
    requires Reachable(u, a, b)
    ensures !Reachable(u, b, c) && !Reachable(u, c, a)
  {
  }

  lemma InsertOrdered(u: UseCase, list: seq<Call>, i: nat, c: Call)
    requires i <= |list| && Ordered(u, list, i)
    ensures Ordered(u, Insert(list, Slot(u, list, i, c), c), i)
  {
    var p := Slot(u, list, i, c);
    var after := Insert(list, p, c);
    forall j, k | i <= j < k < |after| ensures !Reachable(u, after[k], after[j]) {
      if k == p {
        assert after[j] == list[j];
      } else if j == p {
        assert after[k] == list[k - 1];
        if p < |list| {
          Bipartite(u, c, list[p], list[k - 1]);
        }
      } else {
        assert after[j] == list[if j < p then j else j - 1] && after[k] == list[if k < p then k else k - 1];
      }
    }
  }

  lemma AppendOrdered(cfg: Config, x: Node, c: Call)
    requires x.stableIndex <= |x.list| && Ordered(cfg.useCase, x.list, x.stableIndex) && !Hindered(cfg, x, c)
    ensures Ordered(cfg.useCase, x.list + [c], x.stableIndex)
  {
  }

  lemma {:induction false} SurvivorsAre(acks: map<Key, nat>, d: nat, cs: seq<Call>, c: Call)
    ensures multiset(Survivors(acks, d, cs))[c] == if Orphan(acks, d, c) then 0 else multiset(cs)[c]
    decreases |cs|
  {
    if cs != [] {
      SurvivorsAre(acks, d, cs[1..], c);
      assert cs == [cs[0]] + cs[1..];
    }
  }

  lemma SurvivorsIn(acks: map<Key, nat>, d: nat, cs: seq<Call>, k: nat)
    requires k < |Survivors(acks, d, cs)|
    ensures Survivors(acks, d, cs)[k] in cs
  {
    var c := Survivors(acks, d, cs)[k];
    SurvivorsAre(acks, d, cs, c);
    assert multiset(Survivors(acks, d, cs))[c] > 0;
    assert multiset(cs)[c] > 0;
  }

  lemma {:induction false} SurvivorsOrdered(u: UseCase, acks: map<Key, nat>, d: nat, cs: seq<Call>)
    requires Ordered(u, cs, 0)
    ensures Ordered(u, Survivors(acks, d, cs), 0)
    decreases |cs|
  {
    if cs != [] {
      assert Ordered(u, cs[1..], 0);
      SurvivorsOrdered(u, acks, d, cs[1..]);
      var rest := Survivors(acks, d, cs[1..]);
      forall k: nat | k < |rest| ensures !Reachable(u, rest[k], cs[0]) {
        SurvivorsIn(acks, d, cs[1..], k);
        var i :| 0 <= i < |cs[1..]| && cs[1..][i] == rest[k];
        assert cs[i + 1] == rest[k];
      }
    }
  }

  lemma FailureOrdered(u: UseCase, acks: map<Key, nat>, d: nat, list: seq<Call>, i: nat)
    requires i <= |list| && Ordered(u, list, i)
    ensures Ordered(u, list[..i] + Survivors(acks, d, list[i..]), i)
  {
    var cs := list[i..];
    assert Ordered(u, cs, 0);
    SurvivorsOrdered(u, acks, d, cs);
    var rest := Survivors(acks, d, cs);
    var after := list[..i] + rest;
    assert forall j :: i <= j < |after| ==> after[j] == rest[j - i];
  }

  /** The stable prefix is never touched. */
  lemma StablePrefixKept(cfg: Config, x: Node, e: Event)
    requires Counters(cfg, x) && Enabled(cfg, x, e)
    ensures Counters(cfg, Apply(cfg, x, e))
    ensures var y := Apply(cfg, x, e); x.stableIndex <= y.stableIndex && y.list[..x.stableIndex] == x.list[..x.stableIndex]
  {
    hide Reachable, Update, UpdateCurrent, Blocked, MustWait, Hindered;
  }

  lemma StepKeepsOrder(cfg: Config, x: Node, e: Event)
    requires Ledger(cfg, x) && Enabled(cfg, x, e)
    ensures Ordered(cfg.useCase, Apply(cfg, x, e).list, Apply(cfg, x, e).stableIndex)
  {
    hide Reachable, Update, UpdateCurrent, Blocked, MustWait, Replay;
    match e
    case Issued(c) => AppendOrdered(cfg, x, c);
    case Executed(c) => InsertOrdered(cfg.useCase, x.list, x.stableIndex, c);
    case Dequeued(heap) => InsertOrdered(cfg.useCase, x.list, x.stableIndex, x.queue[0]);
    case Drained(heap) => InsertOrdered(cfg.useCase, x.list, x.stableIndex, x.queue[0]);
    case Failed(d) => FailureOrdered(cfg.useCase, x.acks, d, x.list, x.stableIndex);
    case _ =>
  }

  lemma StepKeepsAcknowledged(cfg: Config, x: Node, e: Event)
    requires Ledger(cfg, x) && Enabled(cfg, x, e)
    ensures var y := Apply(cfg, x, e); Acknowledged(cfg, y.list, y.stableIndex, y.acks, y.failed)
  {
    hide Reachable, Update, UpdateCurrent, Blocked, MustWait, Replay, Ordered;
    StablePrefixKept(cfg, x, e);
    var y := Apply(cfg, x, e);
    hide Slot, Insert, Survivors;
    forall i | 0 <= i < y.stableIndex ensures Acks(y.acks, y.list[i].key) >= Threshold(cfg, y.failed, y.list[i]) {
      if i < x.stableIndex {
        assert y.list[i] == y.list[..x.stableIndex][i] == x.list[i];
      }
    }
  }

  lemma QueueKnown(n: nat, queue: seq<Call>, heap: seq<Call>)
    requires Known(n, queue) && multiset(heap) <= multiset(queue)
    ensures Known(n, heap)
  {
    forall i | 0 <= i < |heap| ensures heap[i].key.node < n {
      assert heap[i] in multiset(heap);
      assert heap[i] in queue;
    }
  }

  lemma PopIsLess(queue: seq<Call>)
    requires queue != []
    ensures multiset(queue) == multiset(queue[1..]) + multiset{queue[0]}
  {
    assert queue == [queue[0]] + queue[1..];
  }

  lemma StepKeepsKnown(cfg: Config, x: Node, e: Event)
    requires Ledger(cfg, x) && Enabled(cfg, x, e)
    ensures Known(cfg.n, Apply(cfg, x, e).queue)
  {
    hide Reachable, Update, UpdateCurrent, Blocked, MustWait, Replay, Ordered, Acknowledged;
    match e
    case Queued(c, heap) =>
      assert Known(cfg.n, x.queue + [c]);
      QueueKnown(cfg.n, x.queue + [c], heap);
    case Dequeued(heap) =>
      PopIsLess(x.queue);
      QueueKnown(cfg.n, x.queue, heap);
    case Drained(heap) =>
      PopIsLess(x.queue);
      QueueKnown(cfg.n, x.queue, heap);
    case _ =>
  }

  lemma StepKeepsStable(cfg: Config, x: Node, e: Event)
    requires Ledger(cfg, x) && Enabled(cfg, x, e)
    ensures var y := Apply(cfg, x, e); y.stableIndex <= |y.list| && y.stable == Replay(Start(cfg.useCase), y.list[..y.stableIndex])
  {
    hide Reachable, Update, UpdateCurrent, Blocked, MustWait, Replay, Ordered, Acknowledged;
    StablePrefixKept(cfg, x, e);
    if e.Stabilized? {
      var i := x.stableIndex;
      assert x.list[..i + 1] == x.list[..i] + [x.list[i]];
      ReplayOne(Start(cfg.useCase), x.list[..i], x.list[i]);
    }
  }

  lemma StepKeepsLedger(cfg: Config, x: Node, e: Event)
    requires Ledger(cfg, x) && Enabled(cfg, x, e)
    ensures Ledger(cfg, Apply(cfg, x, e))
  {
    StablePrefixKept(cfg, x, e);
    StepKeepsStable(cfg, x, e);
    StepKeepsAcknowledged(cfg, x, e);
    StepKeepsOrder(cfg, x, e);
    StepKeepsKnown(cfg, x, e);
    hide Apply, Enabled, Replay, Ordered, Acknowledged, Known;
  }

  lemma {:induction false} RunKeepsLedger(cfg: Config, es: seq<Event>)
    requires After(cfg, es).Some?
    ensures Ledger(cfg, After(cfg, es).value)
    decreases |es|
  {
    if es != [] {
      RunKeepsLedger(cfg, es[..|es| - 1]);
      StepKeepsLedger(cfg, After(cfg, es[..|es| - 1]).value, es[|es| - 1]);
    }
  }

  lemma RunCounters(cfg: Config, es: seq<Event>, x: Node)
    requires After(cfg, es) == Some(x)
    ensures Counters(cfg, x) && Known(cfg.n, x.queue)
  {
    RunKeepsLedger(cfg, es);
  }
}
