/**
 What the network of `HamsouGlobal` carries and what becomes of it: every call reaches every other
 replica and is acknowledged to everyone, unless a message is lost.  When nothing is in flight and
 nothing was lost, all replicas hold the same calls, and each call has all its acknowledgements.
 */
module HamsouDelivery {
  import opened Options
  import opened Counting
  import opened HamsouCalls
  import opened HamsouNode
  import opened HamsouLedger
  import opened HamsouGlobal

  // ---------------------------------------------------------------- everybody is told

  /** Replica r has sent what it owes for call c of its list: the call itself, or an acknowledgement, to all others. */
  ghost predicate Told(s: System, g: Global, r: nat, c: Call) {
    forall q: nat :: q < s.n && q != r ==> if c.key.node == r then CallMessage(q, c) in g.used else AckMessage(q, r, c.key) in g.used
  }

  ghost predicate AllTold(s: System, g: Global) {
    |g.nodes| == s.n && forall r: nat, c: Call :: r < s.n && c in g.nodes[r].list ==> Told(s, g, r, c)
  }

  lemma SendsToAll(n: nat, r: nat, c: Call)
    ensures forall q: nat :: q < n && q != r ==> CallMessage(q, c) in CallsTo(n, r, c)
    ensures forall q: nat :: q < n && q != r ==> AckMessage(q, r, c.key) in AcksTo(n, r, c.key)
  {
  }

  /** An event that puts c into the list sends it, or acknowledges it. */
  lemma ArrivalSends(s: System, g: Global, m: Move, c: Call)
    requires Possible(s, g, m) && !m.Lose? && c in Arrival(g.nodes[m.r], EventOf(m))
    ensures if EventOf(m).Issued? then c.key.node == m.r && CallsTo(s.n, m.r, c) <= Make(s, g, m).used
            else AcksTo(s.n, m.r, c.key) <= Make(s, g, m).used
  {
    hide Apply, Hindered, Blocked, MustWait, CallsTo, AcksTo;
  }

  /** The call that arrives in the list is sent or acknowledged by the same move. */
  lemma ArrivalIsTold(s: System, g: Global, m: Move, c: Call)
    requires Inv(s, g) && Possible(s, g, m) && !m.Lose? && c in Arrival(g.nodes[m.r], EventOf(m))
    ensures Told(s, Make(s, g, m), m.r, c)
  {
    MoveSourced(s, g, m);
    ArrivalSends(s, g, m, c);
    SendsToAll(s.n, m.r, c);
    assert Source(s, g, m.r, EventOf(m), c);
    if !EventOf(m).Issued? {
      SourceIsElsewhere(s, g, m.r, EventOf(m), c);
    }
    hide Inv, Possible, Make, Arrival, Source, Sourced, CallsTo, AcksTo;
  }

  lemma SourceIsElsewhere(s: System, g: Global, r: nat, e: Event, c: Call)
    requires |g.nodes| == s.n && r < s.n && Source(s, g, r, e, c) && !e.Issued?
    ensures c.key.node != r
  {
  }

  /** What a move leaves as it was. */
  lemma MoveFrame(s: System, g: Global, m: Move)
    requires Possible(s, g, m)
    ensures var g' := Make(s, g, m);
            && |g'.nodes| == |g.nodes| == s.n && g.used <= g'.used && (!m.Lose? ==> m.r < s.n)
            && (forall r :: 0 <= r < s.n && (m.Lose? || r != m.r) ==> g'.nodes[r] == g.nodes[r])
            && (!m.Lose? ==> g'.nodes[m.r] == Apply(Cfg(s, m.r), g.nodes[m.r], EventOf(m)))
  {
    hide SentBy, Apply, Enabled;
  }

  lemma ToldKept(s: System, g: Global, m: Move)
    requires Inv(s, g) && Possible(s, g, m) && AllTold(s, g)
    ensures AllTold(s, Make(s, g, m))
  {
    var g' := Make(s, g, m);
    MoveFrame(s, g, m);
    if !m.Lose? {
      EventSteps(Cfg(s, m.r), g.nodes[m.r], EventOf(m));
    }
    hide Inv, Possible, Make, Apply, Enabled, Arrival, Told;
    forall r: nat, c: Call | r < s.n && c in g'.nodes[r].list ensures Told(s, g', r, c) {
      if !m.Lose? && r == m.r && c in Arrival(g.nodes[r], EventOf(m)) {
        ArrivalIsTold(s, g, m, c);
      } else {
        StillTold(s, g, g', r, c);
      }
    }
  }

  lemma StillTold(s: System, g: Global, g': Global, r: nat, c: Call)
    requires AllTold(s, g) && r < s.n && c in g.nodes[r].list && g.used <= g'.used
    ensures Told(s, g', r, c)
  {
    assert Told(s, g, r, c);
  }

  /** Every replica has sent its own calls, and acknowledged the others it executed, to all other replicas. */
  lemma {:induction false} EveryoneIsTold(s: System, ms: seq<Move>)
    requires Run(s, ms).Some?
    ensures AllTold(s, Run(s, ms).value)
    decreases |ms|
  {
    if ms != [] {
      EveryoneIsTold(s, ms[..|ms| - 1]);
      RunKeepsInv(s, ms[..|ms| - 1]);
      ToldKept(s, Run(s, ms[..|ms| - 1]).value, ms[|ms| - 1]);
      hide Possible, Make, AllTold, Inv;
    }
  }

  // ---------------------------------------------------------------- nothing vanishes

  ghost predicate NothingLost(ms: seq<Move>) {
    forall i :: 0 <= i < |ms| ==> !ms[i].Lose?
  }

  /** A call that was sent and is no longer in flight has been accepted by its destination. */
  ghost predicate AllAccepted(s: System, g: Global) {
    |g.nodes| == s.n && forall q: nat, c: Call :: q < s.n && CallMessage(q, c) in g.used - g.net ==> Holds(g.nodes[q], c) >= 1
  }

  lemma AcceptedKept(s: System, g: Global, m: Move)
    requires Inv(s, g) && Possible(s, g, m) && AllAccepted(s, g) && !m.Lose?
    ensures AllAccepted(s, Make(s, g, m))
  {
    var g' := Make(s, g, m);
    MoveFrame(s, g, m);
    hide Inv, Possible, Make, Holds;
    forall q: nat, c: Call | q < s.n && CallMessage(q, c) in g'.used - g'.net ensures Holds(g'.nodes[q], c) >= 1 {
      Consumed(s, g, m, CallMessage(q, c));
      HoldsGrow(s, g, m, q, c);
    }
  }

  /** Replica q keeps what it holds, and what it receives it holds. */
  lemma HoldsGrow(s: System, g: Global, m: Move, q: nat, c: Call)
    requires Inv(s, g) && Possible(s, g, m) && !m.Lose? && q < s.n && |Make(s, g, m).nodes| == s.n
    ensures Holds(Make(s, g, m).nodes[q], c) >= Holds(g.nodes[q], c) + if CallMessage(q, c) in Taken(m) then 1 else 0
  {
    MoveFrame(s, g, m);
    AckEvent(s, g, m);
    if q == m.r {
      EventMembers(Cfg(s, q), g.nodes[q], EventOf(m), c);
      if CallMessage(q, c) in Taken(m) {
        ReceivedIsAccepted(s, g, m, c);
      }
    }
    hide Inv, Possible, Make, Apply, Enabled, Holds, Accepted;
  }

  lemma ReceivedIsAccepted(s: System, g: Global, m: Move, c: Call)
    requires Possible(s, g, m) && !m.Lose? && CallMessage(m.r, c) in Taken(m)
    ensures Accepted(EventOf(m), c) == 1
  {
    hide Enabled;
  }

  /** What a move sends is in flight afterwards. */
  lemma NewIsInFlight(s: System, g: Global, m: Move)
    requires Inv(s, g) && Possible(s, g, m)
    ensures var g' := Make(s, g, m);
            && g'.used - g'.net <= (g.used - g.net) + Taken(m) && g.used - g.net <= g'.used - g'.net && Taken(m) <= g.net
            && (Taken(m) * (g'.used - g'.net) == Taken(m))
  {
    SendsAreFresh(s, g, m);
    hide SentBy, Apply, Enabled, NodesOk, HeldOk, KeysOk, CallsOk, AcksOk, SentOk, CountsOk;
  }

  lemma {:induction false} NothingVanishes(s: System, ms: seq<Move>)
    requires Run(s, ms).Some? && NothingLost(ms)
    ensures AllAccepted(s, Run(s, ms).value)
    decreases |ms|
  {
    if ms != [] {
      var before := ms[..|ms| - 1];
      assert NothingLost(before);
      NothingVanishes(s, before);
      RunKeepsInv(s, before);
      AcceptedKept(s, Run(s, before).value, ms[|ms| - 1]);
      hide Possible, Make, AllAccepted, Inv;
    }
  }

  // ---------------------------------------------------------------- acknowledgements are counted

  ghost predicate CountsExact(s: System, g: Global) {
    |g.nodes| == s.n && forall r: nat, key: Key :: r < s.n ==> Acks(g.nodes[r].acks, key) == |Heard(s, g, r, key)|
  }

  lemma Consumed(s: System, g: Global, m: Move, message: Message)
    requires Inv(s, g) && Possible(s, g, m)
    ensures message in Make(s, g, m).used - Make(s, g, m).net <==> message in g.used - g.net || message in Taken(m)
    ensures message in Taken(m) ==> message !in g.used - g.net
  {
    NewIsInFlight(s, g, m);
    hide Inv, Possible, Make, Taken;
    if message in Taken(m) {
      assert message in Taken(m) * (Make(s, g, m).used - Make(s, g, m).net);
    }
  }

  /** Replica q is heard by this move: its acknowledgement is the message taken. */
  predicate HeardNow(m: Move, r: nat, key: Key, q: nat) {
    m.ReceiveAck? && m.r == r && m.key == key && m.from == q
  }

  lemma HeardOne(s: System, g: Global, m: Move, r: nat, key: Key, q: nat)
    requires Inv(s, g) && Possible(s, g, m) && !m.Lose? && r < s.n && q < s.n
    ensures q in Heard(s, Make(s, g, m), r, key) <==> q in Heard(s, g, r, key) || HeardNow(m, r, key, q)
    ensures HeardNow(m, r, key, q) ==> q !in Heard(s, g, r, key)
  {
    Consumed(s, g, m, AckMessage(r, q, key));
    assert AckMessage(r, q, key) in Taken(m) <==> HeardNow(m, r, key, q);
    hide Inv, Possible, Make, Taken, HeardNow;
  }

  lemma HeardAfter(s: System, g: Global, m: Move, r: nat, key: Key)
    requires Inv(s, g) && Possible(s, g, m) && !m.Lose? && r < s.n
    ensures |Heard(s, Make(s, g, m), r, key)| ==
              |Heard(s, g, r, key)| + if m.ReceiveAck? && m.r == r && m.key == key then 1 else 0
  {
    var g' := Make(s, g, m);
    var before, after := Heard(s, g, r, key), Heard(s, g', r, key);
    var now := m.ReceiveAck? && m.r == r && m.key == key;
    var from := if m.ReceiveAck? then m.from else 0;
    assert forall q :: HeardNow(m, r, key, q) <==> now && q == from;
    HeardBelow(s, g', r, key);
    HeardBelow(s, g, r, key);
    hide Inv, Possible, Make, Heard, HeardNow;
    if now {
      AckerIsReplica(s, g, m);
      HeardOne(s, g, m, r, key, from);
    }
    forall q: nat ensures q in after <==> q in before || (now && q == from) {
      if q < s.n {
        HeardOne(s, g, m, r, key, q);
      }
    }
    OneMore(before, after, now, from);
  }

  lemma OneMore(before: set<nat>, after: set<nat>, now: bool, from: nat)
    requires (forall q: nat :: q in after <==> q in before || (now && q == from)) && (now ==> from !in before)
    ensures |after| == |before| + if now then 1 else 0
  {
    assert after == before + if now then {from} else {};
  }

  lemma HeardBelow(s: System, g: Global, r: nat, key: Key)
    ensures forall q :: q in Heard(s, g, r, key) ==> q < s.n
  {
  }

  lemma AckerIsReplica(s: System, g: Global, m: Move)
    requires Inv(s, g) && Possible(s, g, m) && m.ReceiveAck?
    ensures m.from < s.n
  {
    assert AckMessage(m.r, m.from, m.key) in g.used;
    hide Apply, Enabled, NodesOk, HeldOk, KeysOk, CallsOk, SentOk, CountsOk;
  }

  lemma CountsExactKept(s: System, g: Global, m: Move)
    requires Inv(s, g) && Possible(s, g, m) && !m.Lose? && CountsExact(s, g)
    ensures CountsExact(s, Make(s, g, m))
  {
    MoveFrame(s, g, m);
    hide Inv, Possible, Make, Acks, Heard;
    forall r: nat, key: Key | r < s.n ensures Acks(Make(s, g, m).nodes[r].acks, key) == |Heard(s, Make(s, g, m), r, key)| {
      AcksAfter(s, g, m, r, key);
      HeardAfter(s, g, m, r, key);
    }
  }

  lemma AcksAfter(s: System, g: Global, m: Move, r: nat, key: Key)
    requires Inv(s, g) && Possible(s, g, m) && !m.Lose? && r < s.n && |Make(s, g, m).nodes| == s.n
    ensures Acks(Make(s, g, m).nodes[r].acks, key) ==
              Acks(g.nodes[r].acks, key) + if m.ReceiveAck? && m.r == r && m.key == key then 1 else 0
  {
    MoveFrame(s, g, m);
    AckEvent(s, g, m);
    EventAcks(Cfg(s, m.r), g.nodes[m.r], EventOf(m));
    hide Inv, Possible, Make, Apply, Enabled;
  }

  lemma AckEvent(s: System, g: Global, m: Move)
    requires Possible(s, g, m) && !m.Lose?
    ensures EventOf(m).Counted? <==> m.ReceiveAck?
    ensures !EventOf(m).Failed? && !EventOf(m).Drained?
  {
    hide Enabled;
  }

  lemma {:induction false} AcksAreExact(s: System, ms: seq<Move>)
    requires Run(s, ms).Some? && NothingLost(ms)
    ensures CountsExact(s, Run(s, ms).value)
    decreases |ms|
  {
    if ms == [] {
      var g := Boot(s);
      forall r: nat, key: Key | r < s.n ensures Acks(g.nodes[r].acks, key) == |Heard(s, g, r, key)| {
        assert g.nodes[r] == Initial(Cfg(s, r));
        assert Heard(s, g, r, key) == {};
      }
    } else {
      var before := ms[..|ms| - 1];
      assert NothingLost(before);
      AcksAreExact(s, before);
      RunKeepsInv(s, before);
      CountsExactKept(s, Run(s, before).value, ms[|ms| - 1]);
      hide Possible, Make, CountsExact, Inv;
    }
  }

  // ---------------------------------------------------------------- quiescence

  /** Nothing is in flight and nobody has a call waiting. */
  ghost predicate Quiet(s: System, g: Global) {
    g.net == {} && |g.nodes| == s.n && forall r: nat :: r < s.n ==> g.nodes[r].queue == []
  }

  lemma HeldIsListed(x: Node, c: Call)
    requires x.queue == []
    ensures Holds(x, c) >= 1 ==> c in x.list
    ensures Holds(x, c) == multiset(x.list)[c]
  {
    assert c in x.list <==> c in multiset(x.list);
  }

  /** Without losses, once all is quiet every replica has executed the same calls, each once. */
  lemma QuietReplicasAgree(s: System, ms: seq<Move>, r: nat, q: nat)
    requires Run(s, ms).Some? && NothingLost(ms) && Quiet(s, Run(s, ms).value) && r < s.n && q < s.n
    ensures multiset(Run(s, ms).value.nodes[r].list) == multiset(Run(s, ms).value.nodes[q].list)
  {
    var g := Run(s, ms).value;
    RunKeepsInv(s, ms);
    hide Run;
    forall c: Call ensures multiset(g.nodes[r].list)[c] == multiset(g.nodes[q].list)[c] {
      if c in g.nodes[r].list {
        QuietCall(s, ms, r, q, c);
      }
      if c in g.nodes[q].list {
        QuietCall(s, ms, q, r, c);
      }
      InOrOut(g.nodes[r], c);
      InOrOut(g.nodes[q], c);
    }
    hide Inv;
  }

  lemma InOrOut(x: Node, c: Call)
    ensures c in x.list <==> multiset(x.list)[c] > 0
  {
    assert c in x.list <==> c in multiset(x.list);
  }

  lemma QuietCall(s: System, ms: seq<Move>, r: nat, q: nat, c: Call)
    requires Run(s, ms).Some? && NothingLost(ms) && Quiet(s, Run(s, ms).value) && r < s.n && q < s.n
    requires c in Run(s, ms).value.nodes[r].list
    ensures c in Run(s, ms).value.nodes[q].list
    ensures multiset(Run(s, ms).value.nodes[r].list)[c] == 1 && multiset(Run(s, ms).value.nodes[q].list)[c] == 1
  {
    var g := Run(s, ms).value;
    ExecutedAtMostOnce(s, ms, r, c);
    ExecutedAtMostOnce(s, ms, q, c);
    EveryoneIsTold(s, ms);
    NothingVanishes(s, ms);
    hide Run, Holds;
    var o := c.key.node;
    assert Told(s, g, o, c);
    if q != o {
      assert CallMessage(q, c) in g.used - g.net;
    }
    HeldIsListed(g.nodes[q], c);
    HeldIsListed(g.nodes[r], c);
    InOrOut(g.nodes[q], c);
    InOrOut(g.nodes[r], c);
  }

  /** ... and every call has all the acknowledgements that it can have: it reaches the threshold everywhere. */
  lemma QuietCallsAreAcknowledged(s: System, ms: seq<Move>, r: nat, c: Call)
    requires Run(s, ms).Some? && NothingLost(ms) && Quiet(s, Run(s, ms).value) && r < s.n
    requires c in Run(s, ms).value.nodes[r].list
    ensures Acks(Run(s, ms).value.nodes[r].acks, c.key) == Threshold(Cfg(s, r), {}, c)
  {
    var g := Run(s, ms).value;
    RunKeepsInv(s, ms);
    ExecutedAtMostOnce(s, ms, r, c);
    EveryoneIsTold(s, ms);
    AcksAreExact(s, ms);
    var others := Others(s.n, r, c.key.node);
    assert AcksOk(s, g.nodes, g.used);
    HeardAreOthers(s, g, r, c.key);
    OthersCard(s.n, r, c.key.node);
    forall q | q in others ensures q in Heard(s, g, r, c.key) {
      QuietCall(s, ms, r, q, c);
      assert Told(s, g, q, c);
    }
    hide Run, Inv, Heard, AllTold, Others;
    assert Heard(s, g, r, c.key) == others;
  }

  /** When no replica can stabilize a call either, every call is stable at every replica. */
  lemma EverythingBecomesStable(s: System, ms: seq<Move>, r: nat)
    requires Run(s, ms).Some? && NothingLost(ms) && Quiet(s, Run(s, ms).value) && r < s.n
    requires !Enabled(Cfg(s, r), Run(s, ms).value.nodes[r], Stabilized)
    ensures Run(s, ms).value.nodes[r].stableIndex == |Run(s, ms).value.nodes[r].list|
  {
    var x := Run(s, ms).value.nodes[r];
    RunKeepsInv(s, ms);
    assert Ledger(Cfg(s, r), x) && x.failed == {};
    if x.stableIndex < |x.list| {
      assert x.list[x.stableIndex] in x.list;
      QuietCallsAreAcknowledged(s, ms, r, x.list[x.stableIndex]);
      CanStabilize(Cfg(s, r), x);
    }
    hide Run, Inv, Enabled, Replay, Ordered, Acknowledged, Known;
  }

  lemma CanStabilize(cfg: Config, x: Node)
    requires x.stableIndex < |x.list| && Acks(x.acks, x.list[x.stableIndex].key) >= Threshold(cfg, x.failed, x.list[x.stableIndex])
    ensures Enabled(cfg, x, Stabilized)
  {
  }

  // ---------------------------------------------------------------- what can happen

  lemma Destination(s: System, g: Global, message: Message)
    requires Inv(s, g) && message in g.net
    ensures |g.nodes| == s.n && message.to < s.n && g.nodes[message.to].stableIndex <= |g.nodes[message.to].list|
    ensures message.CallMessage? ==> message.call.key.node < s.n
  {
    hide Holds, Ordered, Replay, Acknowledged, Known, KeysOk, SentOk, HeldOk, CountsOk;
    if message.CallMessage? {
      assert CallMessage(message.to, message.call) in g.net;
    } else {
      assert AckMessage(message.to, message.from, message.key) in g.used;
    }
    assert Ledger(Cfg(s, message.to), g.nodes[message.to]);
  }

  lemma CallCanArrive(s: System, g: Global, r: nat, c: Call) returns (m: Move)
    requires |g.nodes| == s.n && r < s.n && g.nodes[r].stableIndex <= |g.nodes[r].list| && c.key.node < s.n
    requires CallMessage(r, c) in g.net
    ensures Possible(s, g, m) && !m.Lose? && Taken(m) == {CallMessage(r, c)}
  {
    hide MustWait;
    m := if MustWait(Cfg(s, r), g.nodes[r], c) then Receive(r, c, Queued(c, g.nodes[r].queue + [c]))
         else Receive(r, c, Executed(c));
  }

  lemma AckCanArrive(s: System, g: Global, r: nat, q: nat, key: Key)
    requires |g.nodes| == s.n && r < s.n && g.nodes[r].stableIndex <= |g.nodes[r].list|
    requires AckMessage(r, q, key) in g.net
    ensures Possible(s, g, ReceiveAck(r, q, key))
  {
  }

  /** A message in flight can be delivered: a call is executed or queued, an acknowledgement counted. */
  lemma AnythingCanArrive(s: System, g: Global, message: Message) returns (m: Move)
    requires Inv(s, g) && message in g.net
    ensures Possible(s, g, m) && !m.Lose? && Taken(m) == {message}
  {
    Destination(s, g, message);
    hide Inv, Possible;
    match message
    case CallMessage(r, c) => m := CallCanArrive(s, g, r, c);
    case AckMessage(r, q, key) =>
      m := ReceiveAck(r, q, key);
      AckCanArrive(s, g, r, q, key);
  }

  /** A call can be issued unless it has to precede an unstable one. */
  lemma UnhinderedCanBeIssued(s: System, g: Global, r: nat, c: Call)
    requires Inv(s, g) && r < s.n && c.key.node == r && forall d :: d in g.nodes[r].list ==> d.key != c.key
    requires c.clock == Tick(g.nodes[r].clock, r) && !Hindered(Cfg(s, r), g.nodes[r], c)
    ensures Possible(s, g, Issue(r, c))
  {
    assert Ledger(Cfg(s, r), g.nodes[r]);
    hide Inv, Holds, Ordered, Acknowledged, Hindered, Replay;
  }
}
