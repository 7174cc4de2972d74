/**
 n Hamsou replicas and a network that may delay, reorder and lose messages but delivers none
 twice; no replica fails.  Every handler is a sequence of the moves below, so what holds for all
 interleavings of moves holds for the protocol.
 */
module HamsouGlobal {
  import opened Options
  import opened Counting
  import opened HamsouCalls
  import opened HamsouNode
  import opened HamsouLedger

  datatype Message =
    | CallMessage(to: nat, call: Call)
    | AckMessage(to: nat, from: nat, key: Key)

  /**
   net: the messages in flight.  used: every message ever sent, a history variable; no message
   is sent twice (`SendsAreFresh`), so sets lose nothing.
   */
  datatype Global = Global(nodes: seq<Node>, net: set<Message>, used: set<Message>)

  datatype Move =
    | Issue(r: nat, call: Call)
    | Receive(r: nat, call: Call, event: Event)
    | ReceiveAck(r: nat, from: nat, key: Key)
    | Internal(r: nat, event: Event)
    | Lose(message: Message)

  datatype System = System(useCase: UseCase, n: nat)

  function Cfg(s: System, r: nat): Config {
    Config(s.useCase, r, s.n)
  }

  function CallsTo(n: nat, r: nat, c: Call): set<Message> {
    set q | 0 <= q < n && q != r :: CallMessage(q, c)
  }

  function AcksTo(n: nat, r: nat, key: Key): set<Message> {
    set q | 0 <= q < n && q != r :: AckMessage(q, r, key)
  }

  /** The event a move performs at replica r. */
  function EventOf(m: Move): Event
    requires !m.Lose?
  {
    match m
    case Issue(r, c) => Issued(c)
    case Receive(r, c, e) => e
    case ReceiveAck(r, q, key) => Counted(key)
    case Internal(r, e) => e
  }

  ghost predicate Possible(s: System, g: Global, m: Move) {
    && |g.nodes| == s.n
    && if m.Lose? then m.message in g.net
       else
         && m.r < s.n
         && Enabled(Cfg(s, m.r), g.nodes[m.r], EventOf(m))
         && match m
            case Issue(r, c) => forall i :: 0 <= i < |g.nodes[r].list| ==> g.nodes[r].list[i].key != c.key
            case Receive(r, c, e) =>
              CallMessage(r, c) in g.net && (e == Executed(c) || (e.Queued? && e.call == c))
            case ReceiveAck(r, q, key) => AckMessage(r, q, key) in g.net
            case Internal(r, e) => e.Dequeued? || e.Stabilized?
  }

  /** The messages a move takes from the network. */
  function Taken(m: Move): set<Message> {
    match m
    case Receive(r, c, e) => {CallMessage(r, c)}
    case ReceiveAck(r, q, key) => {AckMessage(r, q, key)}
    case Lose(message) => {message}
    case _ => {}
  }

  /** The messages a move sends: a local call to everyone else, an acknowledgement of an execution too. */
  ghost function SentBy(s: System, g: Global, m: Move): set<Message>
    requires Possible(s, g, m)
  {
    if m.Lose? then {}
    else
      match EventOf(m)
      case Issued(c) => CallsTo(s.n, m.r, c)
      case Executed(c) => AcksTo(s.n, m.r, c.key)
      case Dequeued(_) => AcksTo(s.n, m.r, g.nodes[m.r].queue[0].key)
      case _ => {}
  }

  ghost function Make(s: System, g: Global, m: Move): Global
    requires Possible(s, g, m)
  {
    var sends := SentBy(s, g, m);
    var nodes := if m.Lose? then g.nodes else g.nodes[m.r := Apply(Cfg(s, m.r), g.nodes[m.r], EventOf(m))];
    Global(nodes, g.net - Taken(m) + sends, g.used + sends)
  }

  function Boot(s: System): Global {
    Global(seq(s.n, r requires r >= 0 => Initial(Cfg(s, r))), {}, {})
  }

  ghost function Run(s: System, ms: seq<Move>): Option<Global>
    decreases |ms|
  {
    if ms == [] then Some(Boot(s))
    else
      match Run(s, ms[..|ms| - 1])
      case None => None
      case Some(g) => if Possible(s, g, ms[|ms| - 1]) then Some(Make(s, g, ms[|ms| - 1])) else None
  }

  // ---------------------------------------------------------------- the invariant

  ghost predicate NodesOk(s: System, nodes: seq<Node>) {
    && |nodes| == s.n
    && forall r: nat :: r < s.n ==> Ledger(Cfg(s, r), nodes[r]) && nodes[r].failed == {}
  }

  /** Whatever a replica holds it holds once, and the replica it comes from has issued it. */
  ghost predicate HeldOk(s: System, nodes: seq<Node>) {
    && |nodes| == s.n
    && (forall r: nat, c: Call :: r < s.n && c in nodes[r].list ==> c.key.node < s.n && c in nodes[c.key.node].list)
    && (forall r: nat, c: Call :: r < s.n && c in nodes[r].queue ==>
          c.key.node < s.n && c.key.node != r && c in nodes[c.key.node].list)
    && (forall r: nat, c: Call :: r < s.n ==> Holds(nodes[r], c) <= 1)
  }

  /** Issued calls have different keys. */
  ghost predicate KeysOk(s: System, nodes: seq<Node>) {
    && |nodes| == s.n
    && (forall c: Call, d: Call :: c.key == d.key && c.key.node < s.n && c in nodes[c.key.node].list && d in nodes[c.key.node].list ==>
          c == d)
  }

  /** A call in flight was issued and has not reached its destination before. */
  ghost predicate CallsOk(s: System, nodes: seq<Node>, net: set<Message>) {
    && |nodes| == s.n
    && forall q: nat, c: Call :: CallMessage(q, c) in net ==>
         q < s.n && c.key.node < s.n && c.key.node != q && c in nodes[c.key.node].list && Holds(nodes[q], c) == 0
  }

  /** An acknowledgement was sent by a replica that has executed the call, to another one. */
  ghost predicate AcksOk(s: System, nodes: seq<Node>, used: set<Message>) {
    && |nodes| == s.n
    && forall r: nat, q: nat, key: Key :: AckMessage(r, q, key) in used ==>
         && r < s.n && q < s.n && q != r && key.node < s.n && key.node != q
         && exists c :: c in nodes[q].list && c.key == key
  }

  /** A call that was sent was issued. */
  ghost predicate SentOk(s: System, nodes: seq<Node>, used: set<Message>) {
    && |nodes| == s.n
    && forall q: nat, c: Call :: CallMessage(q, c) in used ==> c.key.node < s.n && c in nodes[c.key.node].list
  }

  /** The replicas whose acknowledgement of key no longer is on its way to r. */
  ghost function Heard(s: System, g: Global, r: nat, key: Key): set<nat> {
    set q: nat | q < s.n && AckMessage(r, q, key) in g.used - g.net
  }

  /** No counter exceeds the number of acknowledgements that were received or lost. */
  ghost predicate CountsOk(s: System, g: Global) {
    && |g.nodes| == s.n
    && forall r: nat, key: Key :: r < s.n ==> Acks(g.nodes[r].acks, key) <= |Heard(s, g, r, key)|
  }

  ghost predicate Inv(s: System, g: Global) {
    && NodesOk(s, g.nodes)
    && HeldOk(s, g.nodes)
    && KeysOk(s, g.nodes)
    && CallsOk(s, g.nodes, g.net)
    && AcksOk(s, g.nodes, g.used)
    && SentOk(s, g.nodes, g.used)
    && CountsOk(s, g)
    && g.net <= g.used
  }

  // ---------------------------------------------------------------- what an event does to a node

  lemma EventList(cfg: Config, x: Node, e: Event)
    requires Enabled(cfg, x, e) && !e.Failed? && !e.Drained?
    ensures multiset(Apply(cfg, x, e).list) == multiset(x.list) + multiset(Arrival(x, e))
  {
    hide Reachable, Update, UpdateCurrent, Blocked, MustWait, Hindered, Slot, Insert;
    match e
    case Executed(d) => InsertHolds(x.list, Slot(cfg.useCase, x.list, x.stableIndex, d), d);
    case Dequeued(heap) =>
      InsertHolds(x.list, Slot(cfg.useCase, x.list, x.stableIndex, x.queue[0]), x.queue[0]);
      assert x.queue[..1] == [x.queue[0]];
    case _ =>
  }

  lemma EventQueue(cfg: Config, x: Node, e: Event, c: Call)
    requires Enabled(cfg, x, e) && !e.Failed? && !e.Drained?
    ensures c in Apply(cfg, x, e).queue ==> c in x.queue || (e.Queued? && c == e.call)
    ensures e.Dequeued? && Holds(x, c) <= 1 && c in Arrival(x, e) ==> c !in Apply(cfg, x, e).queue
  {
    hide Reachable, Update, UpdateCurrent, Blocked, MustWait, Hindered, Slot, Insert, Execute;
    match e
    case Executed(d) => ExecuteKeeps(cfg, x, d);
    case Queued(d, heap) =>
      assert c in heap <==> c in multiset(heap);
      assert c in x.queue + [d] <==> c in multiset(x.queue + [d]);
    case Dequeued(heap) =>
      PopIsLess(x.queue);
      assert c in heap <==> c in multiset(heap);
      assert c in x.queue <==> c in multiset(x.queue);
    case _ =>
  }

  lemma EventAcks(cfg: Config, x: Node, e: Event)
    requires Enabled(cfg, x, e) && !e.Failed? && !e.Drained?
    ensures var y := Apply(cfg, x, e);
            y.failed == x.failed && y.acks == if e.Counted? then x.acks[e.key := Acks(x.acks, e.key) + 1] else x.acks
  {
    hide Reachable, Update, UpdateCurrent, Blocked, MustWait, Hindered, Execute, Acks;
    match e
    case Executed(d) => ExecuteKeeps(cfg, x, d);
    case Dequeued(heap) => ExecuteKeeps(cfg, x, x.queue[0]);
    case _ =>
  }

  /** Membership in list and queue after an event. */
  lemma EventMembers(cfg: Config, x: Node, e: Event, c: Call)
    requires Enabled(cfg, x, e) && !e.Failed? && !e.Drained?
    ensures c in Apply(cfg, x, e).list <==> c in x.list || c in Arrival(x, e)
    ensures Holds(Apply(cfg, x, e), c) == Holds(x, c) + Accepted(e, c)
  {
    EventList(cfg, x, e);
    StepHolds(cfg, x, e, c);
    var y := Apply(cfg, x, e);
    var j := Arrival(x, e);
    hide Apply, Enabled, Arrival, Holds, Accepted;
    assert c in y.list <==> c in multiset(y.list);
    assert c in x.list <==> c in multiset(x.list);
    assert c in j <==> c in multiset(j);
  }

  // ---------------------------------------------------------------- the invariant is kept

  ghost predicate Stepped(x: Node, y: Node, e: Event) {
    && (forall c: Call :: c in y.list <==> c in x.list || c in Arrival(x, e))
    && (forall c: Call :: c in y.queue ==> c in x.queue || (e.Queued? && c == e.call))
    && (forall c: Call :: Holds(y, c) == Holds(x, c) + Accepted(e, c))
  }

  lemma EventSteps(cfg: Config, x: Node, e: Event)
    requires Enabled(cfg, x, e) && !e.Failed? && !e.Drained?
    ensures Stepped(x, Apply(cfg, x, e), e)
  {
    hide Apply, Enabled, Holds, Accepted, Arrival;
    var y := Apply(cfg, x, e);
    forall c: Call
      ensures c in y.list <==> c in x.list || c in Arrival(x, e)
      ensures Holds(y, c) == Holds(x, c) + Accepted(e, c)
    {
      EventMembers(cfg, x, e, c);
    }
    forall c: Call ensures c in y.queue ==> c in x.queue || (e.Queued? && c == e.call) {
      EventQueue(cfg, x, e, c);
    }
  }

  /** Where the call comes from that a move adds to a list or a queue. */
  ghost predicate Source(s: System, g: Global, r: nat, e: Event, c: Call)
    requires |g.nodes| == s.n && r < s.n
  {
    && c.key.node < s.n
    && if e.Issued? then c.key.node == r && forall d :: d in g.nodes[r].list ==> d.key != c.key
       else
         && c.key.node != r && c in g.nodes[c.key.node].list
         && (!e.Dequeued? ==> Holds(g.nodes[r], c) == 0 && CallMessage(r, c) in g.net)
         && (e.Dequeued? ==> c in g.nodes[r].queue)
  }

  ghost predicate Sourced(s: System, g: Global, r: nat, e: Event)
    requires |g.nodes| == s.n && r < s.n
  {
    && (forall c: Call :: c in Arrival(g.nodes[r], e) ==> Source(s, g, r, e, c))
    && (forall c: Call :: Accepted(e, c) > 0 ==> Source(s, g, r, e, c) && !e.Dequeued? && Accepted(e, c) == 1)
  }

  lemma MoveSourced(s: System, g: Global, m: Move)
    requires HeldOk(s, g.nodes) && CallsOk(s, g.nodes, g.net) && Possible(s, g, m) && !m.Lose?
    ensures Sourced(s, g, m.r, EventOf(m))
  {
    hide Holds, Hindered, Blocked, MustWait;
    var e, x := EventOf(m), g.nodes[m.r];
    forall c: Call | c in Arrival(x, e) ensures Source(s, g, m.r, e, c) {
      if e.Dequeued? {
        assert c == x.queue[0] && c in x.queue;
      }
    }
  }

  lemma OwnCallsAreListed(s: System, nodes: seq<Node>, r: nat, c: Call)
    requires HeldOk(s, nodes) && r < s.n && c.key.node == r && c !in nodes[r].list
    ensures Holds(nodes[r], c) == 0
  {
    assert c !in nodes[r].queue;
    assert c !in multiset(nodes[r].queue) && c !in multiset(nodes[r].list);
  }

  lemma HeldKept(s: System, g: Global, r: nat, y: Node, e: Event)
    requires HeldOk(s, g.nodes) && CallsOk(s, g.nodes, g.net) && r < s.n
    requires Sourced(s, g, r, e) && Stepped(g.nodes[r], y, e)
    ensures HeldOk(s, g.nodes[r := y])
  {
    hide Holds, Arrival, Accepted;
    var nodes := g.nodes[r := y];
    forall q: nat, c: Call | q < s.n && c in nodes[q].list ensures c.key.node < s.n && c in nodes[c.key.node].list {
    }
    forall q: nat, c: Call | q < s.n && c in nodes[q].queue
      ensures c.key.node < s.n && c.key.node != q && c in nodes[c.key.node].list
    {
      if q == r && c !in g.nodes[r].queue {
        QueuedIsAccepted(e, c);
      }
    }
    forall c: Call ensures Holds(y, c) <= 1 {
      if Accepted(e, c) > 0 && e.Issued? {
        OwnCallsAreListed(s, g.nodes, r, c);
      }
    }
  }

  lemma QueuedIsAccepted(e: Event, c: Call)
    requires e.Queued? && e.call == c
    ensures Accepted(e, c) == 1
  {
  }

  lemma KeysKept(s: System, g: Global, r: nat, y: Node, e: Event)
    requires KeysOk(s, g.nodes) && r < s.n && Sourced(s, g, r, e) && Stepped(g.nodes[r], y, e)
    requires forall c: Call, d: Call :: c in Arrival(g.nodes[r], e) && d in Arrival(g.nodes[r], e) ==> c == d
    ensures KeysOk(s, g.nodes[r := y])
  {
    hide Holds, Arrival, Accepted;
    var nodes := g.nodes[r := y];
    forall c: Call, d: Call | c.key == d.key && c.key.node < s.n && c in nodes[c.key.node].list && d in nodes[c.key.node].list
      ensures c == d
    {
      if c.key.node == r {
        assert c in g.nodes[r].list || c in Arrival(g.nodes[r], e);
        assert d in g.nodes[r].list || d in Arrival(g.nodes[r], e);
      }
    }
  }

  lemma OneArrival(x: Node, e: Event, c: Call, d: Call)
    requires c in Arrival(x, e) && d in Arrival(x, e)
    ensures c == d
  {
  }

  lemma NotHeldElsewhere(s: System, nodes: seq<Node>, q: nat, c: Call)
    requires HeldOk(s, nodes) && q < s.n && c.key.node < s.n && c !in nodes[c.key.node].list
    ensures Holds(nodes[q], c) == 0
  {
    assert c !in nodes[q].queue && c !in nodes[q].list;
    assert c !in multiset(nodes[q].queue) && c !in multiset(nodes[q].list);
  }

  lemma CallsKept(s: System, g: Global, m: Move, y: Node)
    requires HeldOk(s, g.nodes) && CallsOk(s, g.nodes, g.net) && Possible(s, g, m) && !m.Lose?
    requires Sourced(s, g, m.r, EventOf(m)) && Stepped(g.nodes[m.r], y, EventOf(m))
    ensures CallsOk(s, g.nodes[m.r := y], g.net - Taken(m) + SentBy(s, g, m))
  {
    hide Holds, Enabled;
    var r, e := m.r, EventOf(m);
    var nodes := g.nodes[r := y];
    forall q: nat, c: Call | CallMessage(q, c) in g.net - Taken(m) + SentBy(s, g, m)
      ensures q < s.n && c.key.node < s.n && c.key.node != q && c in nodes[c.key.node].list && Holds(nodes[q], c) == 0
    {
      if CallMessage(q, c) in SentBy(s, g, m) {
        assert e.Issued? && c == e.call && c in Arrival(g.nodes[r], e);
        NotHeldElsewhere(s, g.nodes, q, c);
      } else {
        assert Accepted(e, c) == 0 || q != r;
      }
    }
  }

  /** The call that an acknowledging event executes. */
  lemma SentAcks(s: System, g: Global, m: Move, t: nat, q: nat, key: Key)
    requires Possible(s, g, m) && AckMessage(t, q, key) in SentBy(s, g, m)
    ensures !m.Lose? && (EventOf(m).Executed? || EventOf(m).Dequeued?)
    ensures t < s.n && q == m.r && t != q && |Arrival(g.nodes[q], EventOf(m))| == 1 && Arrival(g.nodes[q], EventOf(m))[0].key == key
  {
    hide Hindered, Blocked, MustWait;
  }

  lemma SentCalls(s: System, g: Global, m: Move, q: nat, c: Call)
    requires Possible(s, g, m) && CallMessage(q, c) in SentBy(s, g, m)
    ensures m.Issue? && m.call == c && c.key.node == m.r && q < s.n && q != m.r && Arrival(g.nodes[m.r], EventOf(m)) == [c]
  {
    hide Hindered, Blocked, MustWait;
  }

  lemma AcksKept(s: System, g: Global, m: Move, y: Node)
    requires AcksOk(s, g.nodes, g.used) && Possible(s, g, m) && !m.Lose?
    requires Sourced(s, g, m.r, EventOf(m)) && Stepped(g.nodes[m.r], y, EventOf(m))
    ensures AcksOk(s, g.nodes[m.r := y], g.used + SentBy(s, g, m))
  {
    var r, e := m.r, EventOf(m);
    var sends := SentBy(s, g, m);
    var nodes := g.nodes[r := y];
    hide Enabled, Holds, Arrival, Accepted, SentBy;
    forall t: nat, q: nat, key: Key | AckMessage(t, q, key) in g.used + sends
      ensures t < s.n && q < s.n && q != t && key.node < s.n && key.node != q && exists c :: c in nodes[q].list && c.key == key
    {
      if AckMessage(t, q, key) in sends {
        SentAcks(s, g, m, t, q, key);
        var c := Arrival(g.nodes[r], e)[0];
        assert c in Arrival(g.nodes[r], e) && Source(s, g, r, e, c);
        assert c in nodes[q].list;
      } else {
        var c :| c in g.nodes[q].list && c.key == key;
        assert c in nodes[q].list;
      }
    }
  }

  lemma SentKept(s: System, g: Global, m: Move, y: Node)
    requires SentOk(s, g.nodes, g.used) && Possible(s, g, m) && !m.Lose?
    requires Stepped(g.nodes[m.r], y, EventOf(m))
    ensures SentOk(s, g.nodes[m.r := y], g.used + SentBy(s, g, m))
  {
    var r, e := m.r, EventOf(m);
    var sends := SentBy(s, g, m);
    var nodes := g.nodes[r := y];
    hide Enabled, Holds, Arrival, Accepted, SentBy;
    forall q: nat, c: Call | CallMessage(q, c) in g.used + sends ensures c.key.node < s.n && c in nodes[c.key.node].list {
      if CallMessage(q, c) in sends {
        SentCalls(s, g, m, q, c);
      }
    }
  }

  lemma HeldTwice(x: Node, c: Call)
    ensures c in x.list && c in x.queue ==> Holds(x, c) >= 2
    ensures c in x.list ==> Holds(x, c) >= 1
  {
    assert c in x.list <==> c in multiset(x.list);
    assert c in x.queue <==> c in multiset(x.queue);
  }

  /** No message is ever sent twice. */
  lemma SendsAreFresh(s: System, g: Global, m: Move)
    requires Inv(s, g) && Possible(s, g, m)
    ensures SentBy(s, g, m) !! g.used
  {
    if !m.Lose? {
      MoveSourced(s, g, m);
      var sends := SentBy(s, g, m);
      var x, e := g.nodes[m.r], EventOf(m);
      hide Possible, Ledger, Arrival, Accepted, SentBy, CountsOk, CallsOk, Holds;
      forall message | message in sends ensures message !in g.used {
        match message
        case CallMessage(q, c) =>
          SentCalls(s, g, m, q, c);
          assert c in Arrival(x, e) && Source(s, g, m.r, e, c);
        case AckMessage(t, q, key) =>
          SentAcks(s, g, m, t, q, key);
          var c := Arrival(x, e)[0];
          assert c in Arrival(x, e) && Source(s, g, m.r, e, c);
          if message in g.used {
            var d :| d in x.list && d.key == key;
            assert d in g.nodes[d.key.node].list;
            assert c == d;
            HeldTwice(x, c);
            assert false;
          }
      }
    }
  }

  lemma CountsKept(s: System, g: Global, m: Move)
    requires Inv(s, g) && Possible(s, g, m) && |Make(s, g, m).nodes| == s.n
    ensures CountsOk(s, Make(s, g, m))
  {
    hide Holds, Ledger, HeldOk, CallsOk, SentOk, KeysOk, Apply, Enabled, SentBy, AcksOk;
    SendsAreFresh(s, g, m);
    var g' := Make(s, g, m);
    if !m.Lose? {
      EventAcks(Cfg(s, m.r), g.nodes[m.r], EventOf(m));
    }
    hide CountsOk, Heard, Acks;
    forall r: nat, key: Key | r < s.n ensures Acks(g'.nodes[r].acks, key) <= |Heard(s, g', r, key)| {
      MoreIsHeard(s, g, m, r, key);
    }
  }

  lemma MoreIsHeard(s: System, g: Global, m: Move, r: nat, key: Key)
    requires CountsOk(s, g) && AcksOk(s, g.nodes, g.used) && g.net <= g.used && Possible(s, g, m) && r < s.n
    requires SentBy(s, g, m) !! g.used
    requires m.Lose? || var y := Make(s, g, m).nodes[m.r]; var e, x := EventOf(m), g.nodes[m.r];
             y.acks == if e.Counted? then x.acks[e.key := Acks(x.acks, e.key) + 1] else x.acks
    ensures Acks(Make(s, g, m).nodes[r].acks, key) <= |Heard(s, Make(s, g, m), r, key)|
  {
    var g' := Make(s, g, m);
    var before, after := Heard(s, g, r, key), Heard(s, g', r, key);
    assert g.used - g.net <= g'.used - g'.net;
    if m.ReceiveAck? && m.r == r && m.key == key {
      assert AckMessage(r, m.from, key) in g'.used - g'.net;
      assert before + {m.from} <= after;
      SubsetSize(before + {m.from}, after);
    } else {
      SubsetSize(before, after);
    }
  }

  lemma NodesKept(s: System, g: Global, m: Move)
    requires NodesOk(s, g.nodes) && Possible(s, g, m)
    ensures NodesOk(s, Make(s, g, m).nodes)
  {
    if !m.Lose? {
      StepKeepsLedger(Cfg(s, m.r), g.nodes[m.r], EventOf(m));
      EventAcks(Cfg(s, m.r), g.nodes[m.r], EventOf(m));
      hide Ledger, Apply, Enabled, SentBy;
    }
  }

  lemma MoveKeepsInv(s: System, g: Global, m: Move)
    requires Inv(s, g) && Possible(s, g, m)
    ensures Inv(s, Make(s, g, m))
  {
    NodesKept(s, g, m);
    CountsKept(s, g, m);
    if !m.Lose? {
      var r, e := m.r, EventOf(m);
      var y := Apply(Cfg(s, r), g.nodes[r], e);
      MoveSourced(s, g, m);
      EventSteps(Cfg(s, r), g.nodes[r], e);
      hide Ledger, Apply, Enabled, Arrival, Accepted, Holds, HeldOk, CallsOk, AcksOk, SentOk, KeysOk, CountsOk, Stepped, Sourced;
      HeldKept(s, g, r, y, e);
      OneArrivalAll(g.nodes[r], e);
      KeysKept(s, g, r, y, e);
      CallsKept(s, g, m, y);
      AcksKept(s, g, m, y);
      SentKept(s, g, m, y);
    } else {
      assert g.net - Taken(m) + {} == g.net - Taken(m);
      assert g.used + {} == g.used;
    }
  }

  lemma OneArrivalAll(x: Node, e: Event)
    ensures forall c: Call, d: Call :: c in Arrival(x, e) && d in Arrival(x, e) ==> c == d
  {
    forall c: Call, d: Call | c in Arrival(x, e) && d in Arrival(x, e) ensures c == d {
      OneArrival(x, e, c, d);
    }
  }

  lemma BootInv(s: System)
    ensures Inv(s, Boot(s))
  {
    var g := Boot(s);
    forall r: nat | r < s.n ensures Ledger(Cfg(s, r), g.nodes[r]) && g.nodes[r].failed == {} {
      assert g.nodes[r] == Initial(Cfg(s, r));
    }
  }

  lemma {:induction false} RunKeepsInv(s: System, ms: seq<Move>)
    requires Run(s, ms).Some?
    ensures Inv(s, Run(s, ms).value)
    decreases |ms|
  {
    if ms == [] {
      BootInv(s);
    } else {
      RunKeepsInv(s, ms[..|ms| - 1]);
      hide Inv, Possible, Make;
      MoveKeepsInv(s, Run(s, ms[..|ms| - 1]).value, ms[|ms| - 1]);
    }
  }

  // ---------------------------------------------------------------- theorems

  lemma StableIsCounted(s: System, g: Global, r: nat, i: nat)
    requires Inv(s, g) && r < s.n && i < g.nodes[r].stableIndex
    ensures i < |g.nodes[r].list|
    ensures var c := g.nodes[r].list[i];
            c.key.node < s.n && |Heard(s, g, r, c.key)| >= s.n - if c.key.node == r then 1 else 2
  {
    var x := g.nodes[r];
    assert Ledger(Cfg(s, r), x) && x.failed == {};
    hide NodesOk, Ordered, Known, CallsOk, SentOk, KeysOk, Heard, AcksOk, Replay;
    assert x.list[i] in x.list;
    hide HeldOk;
    assert Acks(x.acks, x.list[i].key) >= Threshold(Cfg(s, r), {}, x.list[i]);
  }

  /** Everyone else but the origin has acknowledged a stable call to r. */
  lemma StableIsHeard(s: System, g: Global, r: nat, i: nat, q: nat)
    requires Inv(s, g) && r < s.n && i < g.nodes[r].stableIndex && q < s.n
    ensures i < |g.nodes[r].list|
    ensures var c := g.nodes[r].list[i]; q != r && q != c.key.node ==> AckMessage(r, q, c.key) in g.used
  {
    StableIsCounted(s, g, r, i);
    var c := g.nodes[r].list[i];
    if q != r && q != c.key.node {
      hide NodesOk, HeldOk, CallsOk, SentOk, KeysOk, CountsOk, AcksOk, Heard, Ledger;
      AllAreHeard(s, g, r, c.key, q);
    }
  }

  lemma AllAreHeard(s: System, g: Global, r: nat, key: Key, q: nat)
    requires AcksOk(s, g.nodes, g.used) && r < s.n && key.node < s.n && q < s.n && q != r && q != key.node
    requires |Heard(s, g, r, key)| >= s.n - if key.node == r then 1 else 2
    ensures AckMessage(r, q, key) in g.used
  {
    HeardAreOthers(s, g, r, key);
    hide AcksOk, Heard;
    OthersCard(s.n, r, key.node);
    SubsetSize(Heard(s, g, r, key), Others(s.n, r, key.node));
    HeardIsUsed(s, g, r, key, q);
  }

  function Others(n: nat, r: nat, o: nat): set<nat> {
    UpTo(n) - {r} - {o}
  }

  lemma OthersCard(n: nat, r: nat, o: nat)
    requires r < n && o < n
    ensures |Others(n, r, o)| == n - if o == r then 1 else 2
  {
    var a := UpTo(n) - {r};
    assert |a| == n - 1;
    assert o == r ==> a - {o} == a;
  }

  lemma HeardAreOthers(s: System, g: Global, r: nat, key: Key)
    requires AcksOk(s, g.nodes, g.used)
    ensures Heard(s, g, r, key) <= Others(s.n, r, key.node)
  {
    forall p | p in Heard(s, g, r, key) ensures p in Others(s.n, r, key.node) {
      assert AckMessage(r, p, key) in g.used;
    }
  }

  lemma HeardIsUsed(s: System, g: Global, r: nat, key: Key, q: nat)
    ensures q in Heard(s, g, r, key) ==> AckMessage(r, q, key) in g.used
  {
  }

  /** A call that is stable somewhere has been executed by every replica. */
  lemma StableIsEverywhere(s: System, ms: seq<Move>, r: nat, i: nat, q: nat)
    requires Run(s, ms).Some? && r < s.n && q < s.n
    requires i < Run(s, ms).value.nodes[r].stableIndex
    ensures i < |Run(s, ms).value.nodes[r].list|
    ensures Run(s, ms).value.nodes[r].list[i] in Run(s, ms).value.nodes[q].list
  {
    var g := Run(s, ms).value;
    RunKeepsInv(s, ms);
    assert Ledger(Cfg(s, r), g.nodes[r]);
    var c := g.nodes[r].list[i];
    assert c in g.nodes[r].list;
    StableIsHeard(s, g, r, i, q);
    hide Run, Ledger, Heard, CountsOk, CallsOk, SentOk;
    if q != r && q != c.key.node {
      var d :| d in g.nodes[q].list && d.key == c.key;
      assert d in g.nodes[d.key.node].list && c in g.nodes[c.key.node].list;
      assert d == c;
    }
  }

  /** A call that has to precede an executed call is issued only once everyone has executed the latter. */
  lemma IssuedOnlyWhenSafe(s: System, ms: seq<Move>, r: nat, c: Call, d: Call, q: nat)
    requires Run(s, ms).Some? && Possible(s, Run(s, ms).value, Issue(r, c)) && q < s.n
    requires d in Run(s, ms).value.nodes[r].list && Reachable(s.useCase, c, d)
    ensures d in Run(s, ms).value.nodes[q].list
  {
    var g := Run(s, ms).value;
    var i :| 0 <= i < |g.nodes[r].list| && g.nodes[r].list[i] == d;
    StableIsEverywhere(s, ms, r, i, q);
  }

  /** Every call held anywhere was issued by its node, and no replica holds a call twice. */
  lemma ExecutedAtMostOnce(s: System, ms: seq<Move>, r: nat, c: Call)
    requires Run(s, ms).Some? && r < s.n
    ensures Holds(Run(s, ms).value.nodes[r], c) <= 1
    ensures c in Run(s, ms).value.nodes[r].list ==> c.key.node < s.n && c in Run(s, ms).value.nodes[c.key.node].list
  {
    RunKeepsInv(s, ms);
    hide Holds, Run;
  }
}
