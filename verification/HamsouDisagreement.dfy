/**
 Three replicas that lose no message, whose channels deliver in the order of sending, and that
 become quiet and stabilize everything, and yet end with different stable states.  Replica 1
 executes R2 before R1; the call A of replica 0 has seen R1 but not R2, has to precede both, and
 has to wait at replica 1 until R1 is stable.  By then R2 is stable too, and A comes too late.
 */
module HamsouDisagreement {
  import opened Options
  import opened HamsouCalls
  import opened HamsouNode
  import opened HamsouLedger
  import opened HamsouGlobal
  import opened HamsouDelivery

  const THREE := System(SetCase, 3)
  const R1 := Call(Remove, 5, 0, Key(0, 0), [1, 0, 0])
  const R2 := Call(Remove, 1, 0, Key(2, 0), [1, 0, 1])
  const A := Call(Add, 1, 0, Key(0, 1), [2, 0, 0])

  const Z := Node([], [], map[], {}, [0, 0, 0], SetState({}), 0, SetState({}), 0, 0, [], 0)

  // the states of replica 0
  const X1 := Z.(list := [R1], clock := [1, 0, 0], currentIndex := 1)
  const X2 := X1.(acks := map[R1.key := 1])
  const X3 := X2.(acks := map[R1.key := 1, R2.key := 1])
  const X4 := X3.(acks := map[R1.key := 2, R2.key := 1])
  const X5 := X4.(stableIndex := 1, waitToBeStable := 1)
  const X6 := X5.(list := [R1, A], clock := [2, 0, 0], current := SetState({1}), currentIndex := 2)
  const X7 := X6.(list := [R1, A, R2], clock := [2, 0, 1], current := SetState({}),
      currentIndex := 3, sent := [R2.key], ackIndex := 1)
  const X8 := X7.(acks := map[R1.key := 2, R2.key := 1, A.key := 1])
  const X9 := X8.(acks := map[R1.key := 2, R2.key := 1, A.key := 2])
  const X10 := X9.(stable := SetState({1}), stableIndex := 2, waitToBeStable := 2)
  const X11 := X10.(stable := SetState({}), stableIndex := 3, waitToBeStable := 3)

  // the states of replica 1
  const Y1 := Z.(acks := map[R1.key := 1])
  const Y2 := Y1.(list := [R2], clock := [0, 0, 1], currentIndex := 1, sent := [R2.key], ackIndex := 1)
  const Y3 := Y2.(list := [R2, R1], clock := [1, 0, 1], currentIndex := 2, sent := [R2.key, R1.key], ackIndex := 2)
  const Y4 := Y3.(queue := [A])
  const Y5 := Y4.(acks := map[R1.key := 1, R2.key := 1])
  const Y6 := Y5.(stableIndex := 1, waitToBeStable := 1)
  const Y7 := Y6.(stableIndex := 2, waitToBeStable := 2)
  const Y8 := Y7.(list := [R2, R1, A], queue := [], clock := [2, 0, 1], current := SetState({1}), currentIndex := 3,
                      sent := [R2.key, R1.key, A.key], ackIndex := 3)
  const Y9 := Y8.(acks := map[R1.key := 1, R2.key := 1, A.key := 1])
  const Y10 := Y9.(stable := SetState({1}), stableIndex := 3, waitToBeStable := 3)

  // the states of replica 2
  const W1 := Z.(list := [R1], clock := [1, 0, 0], currentIndex := 1, sent := [R1.key], ackIndex := 1)
  const W2 := W1.(list := [R1, R2], clock := [1, 0, 1], currentIndex := 2)
  const W3 := W2.(acks := map[R2.key := 1])
  const W4 := W3.(acks := map[R1.key := 1, R2.key := 1])
  const W5 := W4.(stableIndex := 1, waitToBeStable := 1)
  const W6 := W5.(list := [R1, A, R2], clock := [2, 0, 1], current := SetState({1}), currentIndex := 3,
                     sent := [R1.key, A.key], ackIndex := 2)
  const W7 := W6.(acks := map[R1.key := 1, R2.key := 2])
  const W8 := W7.(acks := map[R1.key := 1, R2.key := 2, A.key := 1])
  const W9 := W8.(stable := SetState({1}), stableIndex := 2, waitToBeStable := 2)
  const W10 := W9.(stable := SetState({}), stableIndex := 3, waitToBeStable := 3)

  ghost predicate Becomes(me: nat, x: Node, e: Event, y: Node) {
    Enabled(Cfg(THREE, me), x, e) && Apply(Cfg(THREE, me), x, e) == y
  }

  lemma Node0ToX2()
    ensures Becomes(0, Z, Issued(R1), X1)
    ensures Becomes(0, X1, Counted(R1.key), X2)
  {
  }

  lemma Node0ToX4()
    ensures Becomes(0, X2, Counted(R2.key), X3)
    ensures Becomes(0, X3, Counted(R1.key), X4)
  {
  }

  lemma Node0ToX6()
    ensures Becomes(0, X4, Stabilized, X5)
    ensures Becomes(0, X5, Issued(A), X6)
  {
    assert UpdateCurrent(SetState({}), A) == SetState({1});
  }

  lemma Node0ToX8()
    ensures Becomes(0, X6, Executed(R2), X7)
    ensures Becomes(0, X7, Counted(A.key), X8)
  {
    assert UpdateCurrent(SetState({1}), R2) == SetState({});
    assert Insert([R1, A], 2, R2) == [R1, A, R2];
    assert Tick([2, 0, 0], 2) == [2, 0, 1];
  }

  lemma Node0ToX10()
    ensures Becomes(0, X8, Counted(A.key), X9)
    ensures Becomes(0, X9, Stabilized, X10)
  {
    assert Update(SetState({}), A) == SetState({1});
  }

  lemma Node0ToX11()
    ensures Becomes(0, X10, Stabilized, X11)
  {
    assert Update(SetState({1}), R2) == SetState({});
  }

  lemma Node1ToY2()
    ensures Becomes(1, Z, Counted(R1.key), Y1)
    ensures Becomes(1, Y1, Executed(R2), Y2)
  {
    assert Insert([], 0, R2) == [R2];
    assert Tick([0, 0, 0], 2) == [0, 0, 1];
  }

  lemma Node1ToY4()
    ensures Becomes(1, Y2, Executed(R1), Y3)
    ensures Becomes(1, Y3, Queued(A, [A]), Y4)
  {
    assert Insert([R2], 1, R1) == [R2, R1];
    assert Tick([0, 0, 1], 0) == [1, 0, 1];
    assert A.clock[0] > R1.clock[0];
    assert Reachable(SetCase, A, Y3.list[1]) && Compare(A.clock, R1.clock) == 2;
  }

  lemma Node1ToY6()
    ensures Becomes(1, Y4, Counted(R2.key), Y5)
    ensures Becomes(1, Y5, Stabilized, Y6)
  {
  }

  lemma Node1ToY8()
    ensures Becomes(1, Y6, Stabilized, Y7)
    ensures Becomes(1, Y7, Dequeued([]), Y8)
  {
    assert UpdateCurrent(SetState({}), A) == SetState({1});
    assert Insert([R2, R1], 2, A) == [R2, R1, A];
    assert Tick([1, 0, 1], 0) == [2, 0, 1];
  }

  lemma Node1ToY10()
    ensures Becomes(1, Y8, Counted(A.key), Y9)
    ensures Becomes(1, Y9, Stabilized, Y10)
  {
    assert Update(SetState({}), A) == SetState({1});
  }

  lemma Node2ToW2()
    ensures Becomes(2, Z, Executed(R1), W1)
    ensures Becomes(2, W1, Issued(R2), W2)
  {
    assert Insert([], 0, R1) == [R1];
    assert Tick([0, 0, 0], 0) == [1, 0, 0];
  }

  lemma Node2ToW4()
    ensures Becomes(2, W2, Counted(R2.key), W3)
    ensures Becomes(2, W3, Counted(R1.key), W4)
  {
  }

  lemma Node2ToW6()
    ensures Becomes(2, W4, Stabilized, W5)
    ensures Becomes(2, W5, Executed(A), W6)
  {
    assert UpdateCurrent(SetState({}), A) == SetState({1});
    assert A.clock[2] < R2.clock[2] && A.clock[0] > R2.clock[0];
    assert Slot(SetCase, [R1, R2], 1, A) == 1 && Insert([R1, R2], 1, A) == [R1, A, R2];
    assert Tick([1, 0, 1], 0) == [2, 0, 1];
  }

  lemma Node2ToW8()
    ensures Becomes(2, W6, Counted(R2.key), W7)
    ensures Becomes(2, W7, Counted(A.key), W8)
  {
  }

  lemma Node2ToW10()
    ensures Becomes(2, W8, Stabilized, W9)
    ensures Becomes(2, W9, Stabilized, W10)
  {
    assert Update(SetState({}), A) == SetState({1});
    assert Update(SetState({1}), R2) == SetState({});
  }


  // ---------------------------------------------------------------- channels

  function Sender(message: Message): nat {
    match message
    case CallMessage(_, c) => c.key.node
    case AckMessage(_, from, _) => from
  }

  predicate SameChannel(a: Message, b: Message) {
    a.to == b.to && Sender(a) == Sender(b)
  }

  /** At some moment of the run a had been sent and b had not. */
  ghost predicate SentBefore(s: System, ms: seq<Move>, a: Message, b: Message) {
    exists k: nat :: k <= |ms| && SentUpTo(s, ms[..k], a, b)
  }

  ghost predicate SentUpTo(s: System, ms: seq<Move>, a: Message, b: Message) {
    Run(s, ms).Some? && a in Run(s, ms).value.used && b !in Run(s, ms).value.used
  }

  /** Every message that is delivered was sent before all others that are then in flight on its channel; none is lost. */
  ghost predicate Fifo(s: System, ms: seq<Move>)
    decreases |ms|
  {
    && Run(s, ms).Some?
    && (ms != [] ==>
          var m, net := ms[|ms| - 1], Run(s, ms[..|ms| - 1]).value.net;
          && Fifo(s, ms[..|ms| - 1]) && !m.Lose?
          && forall a: Message, b: Message :: a in Taken(m) && b in net && a != b && SameChannel(a, b) ==>
               SentBefore(s, ms[..|ms| - 1], a, b))
  }

  lemma {:induction false} FifoLosesNothing(s: System, ms: seq<Move>)
    requires Fifo(s, ms)
    ensures NothingLost(ms)
    decreases |ms|
  {
    if ms != [] {
      var pre := ms[..|ms| - 1];
      FifoLosesNothing(s, pre);
      assert forall i :: 0 <= i < |pre| ==> ms[i] == pre[i];
    }
  }

  // ---------------------------------------------------------------- the run

  ghost predicate At(ms: seq<Move>, nodes: seq<Node>, net: set<Message>) {
    Fifo(THREE, ms) && Run(THREE, ms).value.nodes == nodes && Run(THREE, ms).value.net == net
  }

  function Sends(m: Move, x: Node): set<Message> {
    if m.Lose? then {}
    else
      match EventOf(m)
      case Issued(c) => {CallMessage((m.r + 1) % 3, c), CallMessage((m.r + 2) % 3, c)}
      case Executed(c) => {AckMessage((m.r + 1) % 3, m.r, c.key), AckMessage((m.r + 2) % 3, m.r, c.key)}
      case Dequeued(_) =>
        if x.queue == [] then {}
        else {AckMessage((m.r + 1) % 3, m.r, x.queue[0].key), AckMessage((m.r + 2) % 3, m.r, x.queue[0].key)}
      case _ => {}
  }

  lemma OtherTwo(r: nat, c: Call)
    requires r < 3
    ensures CallsTo(3, r, c) == {CallMessage((r + 1) % 3, c), CallMessage((r + 2) % 3, c)}
    ensures AcksTo(3, r, c.key) == {AckMessage((r + 1) % 3, r, c.key), AckMessage((r + 2) % 3, r, c.key)}
  {
  }

  /** What the event of a move needs from the network. */
  ghost predicate Delivered(nodes: seq<Node>, net: set<Message>, m: Move)
    requires !m.Lose? && m.r < |nodes|
  {
    match m
    case Issue(r, c) => forall i :: 0 <= i < |nodes[r].list| ==> nodes[r].list[i].key != c.key
    case Receive(r, c, e) => CallMessage(r, c) in net && (e == Executed(c) || (e.Queued? && e.call == c))
    case ReceiveAck(r, q, key) => AckMessage(r, q, key) in net
    case Internal(r, e) => e.Dequeued? || e.Stabilized?
  }

  lemma SendsAre(g: Global, m: Move)
    requires Possible(THREE, g, m) && !m.Lose?
    ensures SentBy(THREE, g, m) == Sends(m, g.nodes[m.r])
  {
    assert m.r < 3 && (EventOf(m).Dequeued? ==> g.nodes[m.r].queue != []);
    hide Possible, Enabled, CallsTo, AcksTo;
    match EventOf(m) {
      case Issued(c) => OtherTwo(m.r, c);
      case Executed(c) => OtherTwo(m.r, c);
      case Dequeued(_) => OtherTwo(m.r, g.nodes[m.r].queue[0]);
      case _ =>
    }
  }

  lemma MoveGoes(g: Global, m: Move, y: Node)
    requires |g.nodes| == 3 && !m.Lose? && m.r < 3 && Becomes(m.r, g.nodes[m.r], EventOf(m), y) && Delivered(g.nodes, g.net, m)
    ensures Possible(THREE, g, m)
    ensures Make(THREE, g, m).nodes == g.nodes[m.r := y]
    ensures Make(THREE, g, m).net == g.net - Taken(m) + Sends(m, g.nodes[m.r])
  {
    assert Possible(THREE, g, m) by { hide Apply, Enabled, Sends, SentBy; }
    hide Apply, Enabled, Possible, Sends, Delivered;
    SendsAre(g, m);
  }

  /** A message that is delivered has its channel to itself. */
  ghost predicate Alone(net: set<Message>, m: Move) {
    forall a: Message, b: Message :: a in Taken(m) && b in net && SameChannel(a, b) ==> a == b
  }

  /** One more move of a replica, which leads from nodes to next and from net to after. */
  lemma Extend(ms: seq<Move>, nodes: seq<Node>, net: set<Message>, m: Move, next: seq<Node>, after: set<Message>)
    returns (longer: seq<Move>)
    requires At(ms, nodes, net) && |nodes| == |next| == 3 && !m.Lose? && m.r < 3
    requires Becomes(m.r, nodes[m.r], EventOf(m), next[m.r]) && next == nodes[m.r := next[m.r]]
    requires Delivered(nodes, net, m) && after == net - Taken(m) + Sends(m, nodes[m.r])
    requires forall a: Message, b: Message :: a in Taken(m) && b in net && a != b && SameChannel(a, b) ==> SentBefore(THREE, ms, a, b)
    ensures longer == ms + [m] && At(longer, next, after)
  {
    longer := ms + [m];
    assert longer[..|longer| - 1] == ms;
    MoveGoes(Run(THREE, ms).value, m, next[m.r]);
    hide Becomes, Delivered, Possible, Make, Sends, Taken, SameChannel, SentBefore;
  }

  lemma ExtendAlone(ms: seq<Move>, nodes: seq<Node>, net: set<Message>, m: Move, next: seq<Node>, after: set<Message>)
    returns (longer: seq<Move>)
    requires At(ms, nodes, net) && |nodes| == |next| == 3 && !m.Lose? && m.r < 3
    requires Becomes(m.r, nodes[m.r], EventOf(m), next[m.r]) && next == nodes[m.r := next[m.r]]
    requires Delivered(nodes, net, m) && after == net - Taken(m) + Sends(m, nodes[m.r]) && Alone(net, m)
    ensures At(longer, next, after) && forall a: Message, b: Message :: SentBefore(THREE, ms, a, b) ==> SentBefore(THREE, longer, a, b)
  {
    hide At, Becomes, Delivered, Sends, SentBefore;
    longer := Extend(ms, nodes, net, m, next, after);
    forall a: Message, b: Message | SentBefore(THREE, ms, a, b) ensures SentBefore(THREE, longer, a, b) {
      SentBeforeStays(ms, m, a, b);
    }
  }

  lemma SentBeforeStays(ms: seq<Move>, m: Move, a: Message, b: Message)
    requires SentBefore(THREE, ms, a, b)
    ensures SentBefore(THREE, ms + [m], a, b)
  {
    hide SentUpTo;
    var k: nat :| k <= |ms| && SentUpTo(THREE, ms[..k], a, b);
    assert (ms + [m])[..k] == ms[..k];
  }

  /** Replica 2 acknowledges no call that it does not have. */
  lemma NotAcknowledged(ms: seq<Move>, net: set<Message>)
    requires At(ms, [X5, Y3, W5], net)
    ensures net <= Run(THREE, ms).value.used && AckMessage(0, 2, A.key) !in Run(THREE, ms).value.used
  {
    RunKeepsInv(THREE, ms);
    var g := Run(THREE, ms).value;
    hide Run, Fifo;
    UsedAcks(g, 0, 2, A.key);
    hide Inv;
  }

  lemma UsedAcks(g: Global, r: nat, q: nat, key: Key)
    requires Inv(THREE, g)
    ensures g.net <= g.used
    ensures AckMessage(r, q, key) in g.used ==> q < |g.nodes| && exists i: nat :: i < |g.nodes[q].list| && g.nodes[q].list[i].key == key
  {
    assert AcksOk(THREE, g.nodes, g.used);
    hide Inv;
    if AckMessage(r, q, key) in g.used {
      var c :| c in g.nodes[q].list && c.key == key;
      var i :| 0 <= i < |g.nodes[q].list| && g.nodes[q].list[i] == c;
    }
  }

  /** The call R2 is on its way to replica 0 before replica 2 acknowledges A. */
  lemma Remove2IsFirst(ms: seq<Move>, net: set<Message>)
    requires At(ms, [X5, Y3, W5], net) && CallMessage(0, R2) in net
    ensures SentBefore(THREE, ms, CallMessage(0, R2), AckMessage(0, 2, A.key))
  {
    NotAcknowledged(ms, net);
    assert ms[..|ms|] == ms;
    hide Run, Fifo;
    assert SentUpTo(THREE, ms[..|ms|], CallMessage(0, R2), AckMessage(0, 2, A.key));
  }

  lemma Remove1Spreads(ms: seq<Move>) returns (longer: seq<Move>)
    requires At(ms, [Z, Z, Z], {})
    ensures At(longer, [X2, Y1, W1], {CallMessage(1, R1)})
  {
    Node0ToX2();
    Node2ToW2();
    Node1ToY2();
    hide At, Becomes, SentBefore;
    longer := ExtendAlone(ms, [Z, Z, Z], {}, Issue(0, R1),
                          [X1, Z, Z], {CallMessage(1, R1), CallMessage(2, R1)});
    longer := ExtendAlone(longer, [X1, Z, Z], {CallMessage(1, R1), CallMessage(2, R1)}, Receive(2, R1, Executed(R1)),
                          [X1, Z, W1], {CallMessage(1, R1), AckMessage(0, 2, R1.key), AckMessage(1, 2, R1.key)});
    longer := ExtendAlone(longer, [X1, Z, W1], {CallMessage(1, R1), AckMessage(0, 2, R1.key), AckMessage(1, 2, R1.key)},
        ReceiveAck(1, 2, R1.key),
                          [X1, Y1, W1], {CallMessage(1, R1), AckMessage(0, 2, R1.key)});
    longer := ExtendAlone(longer, [X1, Y1, W1], {CallMessage(1, R1), AckMessage(0, 2, R1.key)}, ReceiveAck(0, 2, R1.key),
                          [X2, Y1, W1], {CallMessage(1, R1)});
  }

  lemma Remove2Spreads(ms: seq<Move>) returns (longer: seq<Move>)
    requires At(ms, [X2, Y1, W1], {CallMessage(1, R1)})
    ensures At(longer, [X3, Y2, W3], {CallMessage(1, R1), CallMessage(0, R2)})
  {
    Node2ToW2();
    Node1ToY2();
    Node0ToX4();
    Node2ToW4();
    hide At, Becomes, SentBefore;
    longer := ExtendAlone(ms, [X2, Y1, W1], {CallMessage(1, R1)}, Issue(2, R2),
                          [X2, Y1, W2], {CallMessage(1, R1), CallMessage(0, R2), CallMessage(1, R2)});
    longer := ExtendAlone(longer, [X2, Y1, W2], {CallMessage(1, R1), CallMessage(0, R2), CallMessage(1, R2)},
        Receive(1, R2, Executed(R2)),
                          [X2, Y2, W2], {CallMessage(1, R1), CallMessage(0, R2), AckMessage(0, 1, R2.key),
                              AckMessage(2, 1, R2.key)});
    longer := ExtendAlone(longer, [X2, Y2, W2], {CallMessage(1, R1), CallMessage(0, R2), AckMessage(0, 1, R2.key),
        AckMessage(2, 1, R2.key)}, ReceiveAck(0, 1, R2.key),
                          [X3, Y2, W2], {CallMessage(1, R1), CallMessage(0, R2), AckMessage(2, 1, R2.key)});
    longer := ExtendAlone(longer, [X3, Y2, W2], {CallMessage(1, R1), CallMessage(0, R2), AckMessage(2, 1, R2.key)},
        ReceiveAck(2, 1, R2.key),
                          [X3, Y2, W3], {CallMessage(1, R1), CallMessage(0, R2)});
  }

  lemma Remove1IsStableAt0(ms: seq<Move>) returns (longer: seq<Move>)
    requires At(ms, [X3, Y2, W3], {CallMessage(1, R1), CallMessage(0, R2)})
    ensures At(longer, [X5, Y3, W3], {CallMessage(0, R2), AckMessage(2, 1, R1.key)})
  {
    Node1ToY4();
    Node0ToX4();
    Node0ToX6();
    hide At, Becomes, SentBefore;
    longer := ExtendAlone(ms, [X3, Y2, W3], {CallMessage(1, R1), CallMessage(0, R2)}, Receive(1, R1, Executed(R1)),
                          [X3, Y3, W3], {CallMessage(0, R2), AckMessage(0, 1, R1.key), AckMessage(2, 1, R1.key)});
    longer := ExtendAlone(longer, [X3, Y3, W3], {CallMessage(0, R2), AckMessage(0, 1, R1.key), AckMessage(2, 1, R1.key)},
        ReceiveAck(0, 1, R1.key),
                          [X4, Y3, W3], {CallMessage(0, R2), AckMessage(2, 1, R1.key)});
    longer := ExtendAlone(longer, [X4, Y3, W3], {CallMessage(0, R2), AckMessage(2, 1, R1.key)}, Internal(0, Stabilized),
                          [X5, Y3, W3], {CallMessage(0, R2), AckMessage(2, 1, R1.key)});
  }

  lemma Remove1IsStableAt2(ms: seq<Move>) returns (longer: seq<Move>)
    requires At(ms, [X5, Y3, W3], {CallMessage(0, R2), AckMessage(2, 1, R1.key)})
    ensures At(longer, [X5, Y3, W5], {CallMessage(0, R2)})
  {
    Node2ToW4();
    Node2ToW6();
    hide At, Becomes, SentBefore;
    longer := ExtendAlone(ms, [X5, Y3, W3], {CallMessage(0, R2), AckMessage(2, 1, R1.key)}, ReceiveAck(2, 1, R1.key),
                          [X5, Y3, W4], {CallMessage(0, R2)});
    longer := ExtendAlone(longer, [X5, Y3, W4], {CallMessage(0, R2)}, Internal(2, Stabilized),
                          [X5, Y3, W5], {CallMessage(0, R2)});
  }

  lemma AddIsIssued(ms: seq<Move>) returns (longer: seq<Move>)
    requires At(ms, [X5, Y3, W5], {CallMessage(0, R2)})
    ensures At(longer, [X6, Y3, W5], {CallMessage(0, R2), CallMessage(1, A), CallMessage(2, A)})
    ensures SentBefore(THREE, longer, CallMessage(0, R2), AckMessage(0, 2, A.key))
  {
    Node0ToX6();
    hide At, Becomes, SentBefore;
    Remove2IsFirst(ms, {CallMessage(0, R2)});
    longer := ExtendAlone(ms, [X5, Y3, W5], {CallMessage(0, R2)}, Issue(0, A),
                          [X6, Y3, W5], {CallMessage(0, R2), CallMessage(1, A), CallMessage(2, A)});
  }

  lemma AddHasToWait(ms: seq<Move>) returns (longer: seq<Move>)
    requires At(ms, [X6, Y3, W5], {CallMessage(0, R2), CallMessage(1, A), CallMessage(2, A)})
    requires SentBefore(THREE, ms, CallMessage(0, R2), AckMessage(0, 2, A.key))
    ensures At(longer, [X6, Y4, W5], {CallMessage(0, R2), CallMessage(2, A)})
    ensures SentBefore(THREE, longer, CallMessage(0, R2), AckMessage(0, 2, A.key))
  {
    Node1ToY4();
    hide At, Becomes, SentBefore;
    longer := ExtendAlone(ms, [X6, Y3, W5], {CallMessage(0, R2), CallMessage(1, A), CallMessage(2, A)},
        Receive(1, A, Queued(A, [A])),
                          [X6, Y4, W5], {CallMessage(0, R2), CallMessage(2, A)});
  }

  lemma AddIsExecuted(ms: seq<Move>) returns (longer: seq<Move>)
    requires At(ms, [X6, Y4, W5], {CallMessage(0, R2), CallMessage(2, A)})
    requires SentBefore(THREE, ms, CallMessage(0, R2), AckMessage(0, 2, A.key))
    ensures At(longer, [X6, Y4, W6], {CallMessage(0, R2), AckMessage(0, 2, A.key), AckMessage(1, 2, A.key)})
    ensures SentBefore(THREE, longer, CallMessage(0, R2), AckMessage(0, 2, A.key))
  {
    Node2ToW6();
    hide At, Becomes, SentBefore;
    longer := ExtendAlone(ms, [X6, Y4, W5], {CallMessage(0, R2), CallMessage(2, A)}, Receive(2, A, Executed(A)),
                          [X6, Y4, W6], {CallMessage(0, R2), AckMessage(0, 2, A.key), AckMessage(1, 2, A.key)});
  }

  lemma AddComesTooLate(ms: seq<Move>) returns (longer: seq<Move>)
    requires At(ms, [X7, Y4, W6], {AckMessage(0, 2, A.key), AckMessage(1, 2, A.key), AckMessage(1, 0, R2.key),
        AckMessage(2, 0, R2.key)})
    ensures At(longer, [X7, Y8, W6], {AckMessage(0, 2, A.key), AckMessage(1, 2, A.key), AckMessage(2, 0, R2.key),
        AckMessage(0, 1, A.key), AckMessage(2, 1, A.key)})
  {
    Node1ToY6();
    Node1ToY8();
    hide At, Becomes, SentBefore;
    longer := ExtendAlone(ms, [X7, Y4, W6], {AckMessage(0, 2, A.key), AckMessage(1, 2, A.key), AckMessage(1, 0, R2.key),
        AckMessage(2, 0, R2.key)}, ReceiveAck(1, 0, R2.key),
                          [X7, Y5, W6], {AckMessage(0, 2, A.key), AckMessage(1, 2, A.key), AckMessage(2, 0, R2.key)});
    longer := ExtendAlone(longer, [X7, Y5, W6], {AckMessage(0, 2, A.key), AckMessage(1, 2, A.key),
        AckMessage(2, 0, R2.key)}, Internal(1, Stabilized),
                          [X7, Y6, W6], {AckMessage(0, 2, A.key), AckMessage(1, 2, A.key), AckMessage(2, 0, R2.key)});
    longer := ExtendAlone(longer, [X7, Y6, W6], {AckMessage(0, 2, A.key), AckMessage(1, 2, A.key),
        AckMessage(2, 0, R2.key)}, Internal(1, Stabilized),
                          [X7, Y7, W6], {AckMessage(0, 2, A.key), AckMessage(1, 2, A.key), AckMessage(2, 0, R2.key)});
    longer := ExtendAlone(longer, [X7, Y7, W6], {AckMessage(0, 2, A.key), AckMessage(1, 2, A.key),
        AckMessage(2, 0, R2.key)}, Internal(1, Dequeued([])),
                          [X7, Y8, W6], {AckMessage(0, 2, A.key), AckMessage(1, 2, A.key), AckMessage(2, 0, R2.key),
                              AckMessage(0, 1, A.key), AckMessage(2, 1, A.key)});
  }

  lemma Replica1IsDone(ms: seq<Move>) returns (longer: seq<Move>)
    requires At(ms, [X7, Y8, W6], {AckMessage(0, 2, A.key), AckMessage(1, 2, A.key), AckMessage(2, 0, R2.key),
        AckMessage(0, 1, A.key), AckMessage(2, 1, A.key)})
    ensures At(longer, [X7, Y10, W6], {AckMessage(0, 2, A.key), AckMessage(2, 0, R2.key), AckMessage(0, 1, A.key),
        AckMessage(2, 1, A.key)})
  {
    Node1ToY10();
    hide At, Becomes, SentBefore;
    longer := ExtendAlone(ms, [X7, Y8, W6], {AckMessage(0, 2, A.key), AckMessage(1, 2, A.key), AckMessage(2, 0, R2.key),
        AckMessage(0, 1, A.key), AckMessage(2, 1, A.key)}, ReceiveAck(1, 2, A.key),
                          [X7, Y9, W6], {AckMessage(0, 2, A.key), AckMessage(2, 0, R2.key), AckMessage(0, 1, A.key),
                              AckMessage(2, 1, A.key)});
    longer := ExtendAlone(longer, [X7, Y9, W6], {AckMessage(0, 2, A.key), AckMessage(2, 0, R2.key),
        AckMessage(0, 1, A.key), AckMessage(2, 1, A.key)}, Internal(1, Stabilized),
                          [X7, Y10, W6], {AckMessage(0, 2, A.key), AckMessage(2, 0, R2.key), AckMessage(0, 1, A.key),
                              AckMessage(2, 1, A.key)});
  }

  lemma AddIsAcknowledged(ms: seq<Move>) returns (longer: seq<Move>)
    requires At(ms, [X7, Y10, W6], {AckMessage(0, 2, A.key), AckMessage(2, 0, R2.key), AckMessage(0, 1, A.key),
        AckMessage(2, 1, A.key)})
    ensures At(longer, [X8, Y10, W7], {AckMessage(0, 1, A.key), AckMessage(2, 1, A.key)})
  {
    Node0ToX8();
    Node2ToW8();
    hide At, Becomes, SentBefore;
    longer := ExtendAlone(ms, [X7, Y10, W6], {AckMessage(0, 2, A.key), AckMessage(2, 0, R2.key), AckMessage(0, 1, A.key),
        AckMessage(2, 1, A.key)}, ReceiveAck(0, 2, A.key),
                          [X8, Y10, W6], {AckMessage(2, 0, R2.key), AckMessage(0, 1, A.key), AckMessage(2, 1, A.key)});
    longer := ExtendAlone(longer, [X8, Y10, W6], {AckMessage(2, 0, R2.key), AckMessage(0, 1, A.key),
        AckMessage(2, 1, A.key)}, ReceiveAck(2, 0, R2.key),
                          [X8, Y10, W7], {AckMessage(0, 1, A.key), AckMessage(2, 1, A.key)});
  }

  lemma Replica0IsDone(ms: seq<Move>) returns (longer: seq<Move>)
    requires At(ms, [X8, Y10, W7], {AckMessage(0, 1, A.key), AckMessage(2, 1, A.key)})
    ensures At(longer, [X11, Y10, W7], {AckMessage(2, 1, A.key)})
  {
    Node0ToX10();
    Node0ToX11();
    hide At, Becomes, SentBefore;
    longer := ExtendAlone(ms, [X8, Y10, W7], {AckMessage(0, 1, A.key), AckMessage(2, 1, A.key)}, ReceiveAck(0, 1, A.key),
                          [X9, Y10, W7], {AckMessage(2, 1, A.key)});
    longer := ExtendAlone(longer, [X9, Y10, W7], {AckMessage(2, 1, A.key)}, Internal(0, Stabilized),
                          [X10, Y10, W7], {AckMessage(2, 1, A.key)});
    longer := ExtendAlone(longer, [X10, Y10, W7], {AckMessage(2, 1, A.key)}, Internal(0, Stabilized),
                          [X11, Y10, W7], {AckMessage(2, 1, A.key)});
  }

  lemma Replica2IsDone(ms: seq<Move>) returns (longer: seq<Move>)
    requires At(ms, [X11, Y10, W7], {AckMessage(2, 1, A.key)})
    ensures At(longer, [X11, Y10, W10], {})
  {
    Node2ToW8();
    Node2ToW10();
    hide At, Becomes, SentBefore;
    longer := ExtendAlone(ms, [X11, Y10, W7], {AckMessage(2, 1, A.key)}, ReceiveAck(2, 1, A.key),
                          [X11, Y10, W8], {});
    longer := ExtendAlone(longer, [X11, Y10, W8], {}, Internal(2, Stabilized),
                          [X11, Y10, W9], {});
    longer := ExtendAlone(longer, [X11, Y10, W9], {}, Internal(2, Stabilized),
                          [X11, Y10, W10], {});
  }

  /** The only delivery with another message behind it on the channel. */
  lemma Remove2Arrives(ms: seq<Move>) returns (longer: seq<Move>)
    requires At(ms, [X6, Y4, W6], {CallMessage(0, R2), AckMessage(0, 2, A.key), AckMessage(1, 2, A.key)})
    requires SentBefore(THREE, ms, CallMessage(0, R2), AckMessage(0, 2, A.key))
    ensures At(longer, [X7, Y4, W6], {AckMessage(0, 2, A.key), AckMessage(1, 2, A.key), AckMessage(1, 0, R2.key),
        AckMessage(2, 0, R2.key)})
  {
    Node0ToX8();
    hide At, Becomes, SentBefore;
    longer := Extend(ms, [X6, Y4, W6], {CallMessage(0, R2), AckMessage(0, 2, A.key), AckMessage(1, 2, A.key)},
        Receive(0, R2, Executed(R2)),
                     [X7, Y4, W6], {AckMessage(0, 2, A.key), AckMessage(1, 2, A.key), AckMessage(1, 0, R2.key),
                         AckMessage(2, 0, R2.key)});
  }

  lemma NothingHappened()
    ensures At([], [Z, Z, Z], {})
  {
    assert Boot(THREE).nodes == [Z, Z, Z] by {
      assert Initial(Cfg(THREE, 0)).clock == Initial(Cfg(THREE, 1)).clock == Initial(Cfg(THREE, 2)).clock == [0, 0, 0];
    }
  }

  /**
   Three replicas without a loss, over channels that keep the order, have executed and stabilized the
   same calls and nothing is left to do; value 1 is in the stable state of replica 1 only.
   */
  lemma QuietReplicasCanDiffer() returns (ms: seq<Move>)
    ensures Fifo(THREE, ms) && NothingLost(ms) && Quiet(THREE, Run(THREE, ms).value)
    ensures forall r :: 0 <= r < 3 ==> var x := Run(THREE, ms).value.nodes[r]; x.stableIndex == |x.list|
    ensures Run(THREE, ms).value.nodes[0].stable == SetState({}) == Run(THREE, ms).value.nodes[2].stable
    ensures Run(THREE, ms).value.nodes[1].stable == SetState({1})
  {
    ms := WholeRun();
    FifoLosesNothing(THREE, ms);
    hide Fifo, NothingLost, Run;
  }

  lemma WholeRun() returns (ms: seq<Move>)
    ensures At(ms, [X11, Y10, W10], {})
  {
    NothingHappened();
    hide At, SentBefore;
    ms := Remove1Spreads([]);
    ms := Remove2Spreads(ms);
    ms := Remove1IsStableAt0(ms);
    ms := Remove1IsStableAt2(ms);
    ms := AddIsIssued(ms);
    ms := AddHasToWait(ms);
    ms := AddIsExecuted(ms);
    ms := Remove2Arrives(ms);
    ms := AddComesTooLate(ms);
    ms := Replica1IsDone(ms);
    ms := AddIsAcknowledged(ms);
    ms := Replica0IsDone(ms);
    ms := Replica2IsDone(ms);
  }
}
