/**
 The handlers of a Hamsou replica.  Each is proved to perform exactly the events of `HamsouNode`
 that it adds to the ghost history, so `HamsouLedger` speaks about every sequence of handler calls.
 */
module HamsouReplica {
  import opened Options
  import opened HamsouCalls
  import opened HamsouNode
  import HamsouCausality
  import HamsouFailures
  import HamsouLedger

  /** push_heap and pop_heap may reorder the rest of the heap; only its multiset is relied upon. */
  method Reheap(queue: seq<Call>) returns (heap: seq<Call>)
    ensures multiset(heap) == multiset(queue)
  {
    heap := queue;
  }

  /** No stabilization step is possible. */
  ghost predicate Settled(cfg: Config, x: Node) {
    x.stableIndex < |x.list| ==>
      Acks(x.acks, x.list[x.stableIndex].key) < Threshold(cfg, x.failed, x.list[x.stableIndex])
  }

  /** The queue cannot advance. */
  ghost predicate Stuck(cfg: Config, x: Node) {
    x.queue == [] || Blocked(cfg, x, x.queue[0])
  }

  ghost predicate AllStabilized(es: seq<Event>) {
    forall i :: 0 <= i < |es| ==> es[i].Stabilized?
  }

  ghost predicate AllDequeued(es: seq<Event>) {
    forall i :: 0 <= i < |es| ==> es[i].Dequeued?
  }

  ghost predicate AllDrained(es: seq<Event>) {
    forall i :: 0 <= i < |es| ==> es[i].Drained?
  }

  class Replica {
    const cfg: Config
    var executionList: seq<Call>
    var priorityQueue: seq<Call>
    var acks: map<Key, nat>
    var nodeFailed: set<nat>
    var vectorClock: seq<int>
    var currentState: AppState
    var currentIndex: nat
    var stableState: AppState
    var stableIndex: nat
    var waitToBeStable: nat
    var sendAckCallList: seq<Key>
    var ackIndex: nat
    ghost var events: seq<Event>

    ghost function View(): Node
      reads this
    {
      Node(executionList, priorityQueue, acks, nodeFailed, vectorClock, currentState, currentIndex,
           stableState, stableIndex, waitToBeStable, sendAckCallList, ackIndex)
    }

    ghost predicate Valid()
      reads this
    {
      cfg.me < cfg.n && After(cfg, events) == Some(View())
    }

    constructor (cfg: Config)
      requires cfg.me < cfg.n
      ensures Valid() && this.cfg == cfg && events == []
    {
      this.cfg := cfg;
      executionList, priorityQueue, acks, nodeFailed := [], [], map[], {};
      vectorClock := seq(cfg.n, _ => 0);
      currentState, currentIndex := Start(cfg.useCase), 0;
      stableState, stableIndex, waitToBeStable := Start(cfg.useCase), 0, 0;
      sendAckCallList, ackIndex := [], 0;
      events := [];
    }

    /** A local call is issued unless it has to precede an unstable one. */
    method LocalHandler(call: Call) returns (issued: Call, flag: bool, permiss: bool, stableindex: nat)
      requires Valid() && call.key.node == cfg.me
      modifies this
      ensures Valid() && permiss && stableindex == old(stableIndex)
      ensures issued == if flag then call.(clock := Tick(old(vectorClock), cfg.me)) else call
      ensures flag <==> !Hindered(cfg, old(View()), call)
      ensures events == if flag then old(events) + [Issued(issued)] else old(events)
    {
      hide After, Enabled, Apply, UpdateCurrent, Reachable;
      RunCounters(cfg, events, View());
      ghost var x := View();
      stableindex, issued, flag, permiss := stableIndex, call, true, true;
      for i := stableIndex to |executionList|
        invariant flag && View() == x && events == old(events)
        invariant forall j :: stableIndex <= j < i ==> !Reachable(cfg.useCase, call, executionList[j])
      {
        if Reachable(cfg.useCase, call, executionList[i]) {
          flag := false;
          return;
        }
      }
      vectorClock := vectorClock[cfg.me := vectorClock[cfg.me] + 1];
      issued := call.(clock := vectorClock);
      executionList := executionList + [issued];
      currentState := UpdateCurrent(currentState, issued);
      currentIndex := currentIndex + 1;
      assert vectorClock == Tick(x.clock, cfg.me);
      SameHindrance(cfg, x, call, vectorClock);
      IssueStep(cfg, events, x, issued);
      events := events + [Issued(issued)];
    }

    /** Whether a remote call has to wait; if asked to, it is queued then. */
    method QueueHandler(add: bool, remoteCall: Call) returns (flag: bool)
      requires stableIndex <= |executionList|
      modifies this`priorityQueue
      ensures flag <==> MustWait(cfg, old(View()), remoteCall)
      ensures flag <==> HamsouCausality.HasSeen(cfg, old(View()), remoteCall)
      ensures if flag && add then multiset(priorityQueue) == multiset(old(priorityQueue) + [remoteCall])
              else priorityQueue == old(priorityQueue)
    {
      HamsouCausality.WaitsIff(cfg, View(), remoteCall);
      hide Reachable, HamsouCausality.HasSeen;
      for i := 0 to |priorityQueue|
        invariant priorityQueue == old(priorityQueue)
        invariant i > 0 ==> Compare(remoteCall.clock, priorityQueue[0].clock) != 2
      {
        var order := CompareVectorClocks(remoteCall.clock, priorityQueue[0].clock);
        if order == 2 {
          if add {
            priorityQueue := Reheap(priorityQueue + [remoteCall]);
          }
          return true;
        }
      }
      for i := stableIndex to |executionList|
        invariant priorityQueue == old(priorityQueue)
        invariant forall j :: stableIndex <= j < i && Reachable(cfg.useCase, remoteCall, executionList[j]) ==>
                    Compare(remoteCall.clock, executionList[j].clock) != 2
      {
        if Reachable(cfg.useCase, remoteCall, executionList[i]) {
          var order := CompareVectorClocks(remoteCall.clock, executionList[i].clock);
          if order == 2 {
            assert Blocked(cfg, old(View()), remoteCall);
            if add {
              priorityQueue := Reheap(priorityQueue + [remoteCall]);
            }
            return true;
          }
        }
      }
      return false;
    }

    /** The first unstable call that has to follow the given one, or the end of the list. */
    method FindSlot(call: Call) returns (pos: nat)
      requires stableIndex <= |executionList|
      ensures pos == Slot(cfg.useCase, executionList, stableIndex, call)
    {
      hide Reachable;
      pos := stableIndex;
      while pos != |executionList|
        invariant stableIndex <= pos <= |executionList|
        invariant Slot(cfg.useCase, executionList, stableIndex, call) == Slot(cfg.useCase, executionList, pos, call)
        decreases |executionList| - pos
      {
        if Reachable(cfg.useCase, call, executionList[pos]) {
          break;
        }
        pos := pos + 1;
      }
    }

    /** The insertion of a remote call before the first unstable call that has to follow it. */
    method InsertRemote(call: Call)
      requires HamsouNode.Counters(cfg, View()) && call.key.node < cfg.n
      modifies this
      ensures View() == Execute(cfg, old(View()), call) && events == old(events)
    {
      hide Reachable, UpdateCurrent;
      var pos := FindSlot(call);
      executionList := executionList[..pos] + [call] + executionList[pos..];
      currentIndex := currentIndex + 1;
      currentState := UpdateCurrent(currentState, call);
      vectorClock := vectorClock[call.key.node := vectorClock[call.key.node] + 1];
      sendAckCallList := sendAckCallList + [call.key];
      ackIndex := ackIndex + 1;
    }

    /** Executes and acknowledges a remote call, unless it has to wait. */
    method RemoteHandler(add: bool, call: Call) returns (done: bool)
      requires HamsouNode.Counters(cfg, View()) && call.key.node < cfg.n
      modifies this
      ensures events == old(events)
      ensures done <==> !MustWait(cfg, old(View()), call)
      ensures done ==> View() == Execute(cfg, old(View()), call)
      ensures !done ==> View() == old(View()).(queue := priorityQueue)
      ensures !done ==> if add then multiset(priorityQueue) == multiset(old(priorityQueue) + [call])
                        else priorityQueue == old(priorityQueue)
    {
      hide Execute;
      var wait := QueueHandler(add, call);
      if !wait {
        InsertRemote(call);
        return true;
      }
      return false;
    }

    /** The loop that empties the queue as far as its tops can be executed. */
    method Unqueue() returns (ghost ds: seq<Event>)
      requires Valid()
      modifies this
      ensures Valid() && events == old(events) + ds && AllDequeued(ds)
      ensures Stuck(cfg, View()) && acks == old(acks) && nodeFailed == old(nodeFailed)
      ensures |ds| + |priorityQueue| == |old(priorityQueue)|
    {
      hide Execute, Blocked, After, MustWait;
      ds := [];
      while |priorityQueue| > 0
        invariant Valid() && events == old(events) + ds && AllDequeued(ds)
        invariant acks == old(acks) && nodeFailed == old(nodeFailed) && |ds| + |priorityQueue| == |old(priorityQueue)|
        decreases |priorityQueue|
      {
        RunCounters(cfg, events, View());
        ghost var x := View();
        var topCall := priorityQueue[0];
        HamsouLedger.TopWaitsOnlyForList(cfg, x);
        var removed := RemoteHandler(false, topCall);
        if removed {
          ExecuteKeeps(cfg, x, topCall);
          priorityQueue := Reheap(priorityQueue[1..]);
          SameSize(priorityQueue, x.queue[1..]);
          DequeueStep(cfg, events, x, priorityQueue);
          ds := ds + [Dequeued(priorityQueue)];
          events := events + [Dequeued(priorityQueue)];
        } else {
          return;
        }
      }
    }

    /** Stabilizes calls while they have enough acknowledgements; if any did, retries the queue. */
    method StabilizerWithAck() returns (ghost ss: seq<Event>, ghost ds: seq<Event>)
      requires Valid()
      modifies this
      ensures Valid() && events == old(events) + ss + ds && AllStabilized(ss) && AllDequeued(ds)
      ensures After(cfg, old(events) + ss).Some? && Settled(cfg, After(cfg, old(events) + ss).value)
      ensures if ss == [] then ds == [] else Stuck(cfg, View())
      ensures acks == old(acks) && nodeFailed == old(nodeFailed)
      ensures |ds| + |priorityQueue| == |old(priorityQueue)|
    {
      hide After, Acks, Threshold, Stuck, Update;
      ss, ds := [], [];
      RunCounters(cfg, events, View());
      assert old(events) + ss == events;
      var canUnqueue := false;
      var quorum := cfg.n - 1 - |nodeFailed|;
      var i := stableIndex;
      if i >= |executionList| {
        assert old(events) + ss + ds == events;
        return;
      }
      var stable := true;
      while stable && i < |executionList|
        invariant Valid() && events == old(events) + ss && AllStabilized(ss)
        invariant acks == old(acks) && nodeFailed == old(nodeFailed) && priorityQueue == old(priorityQueue)
        invariant HamsouNode.Counters(cfg, View()) && i == stableIndex && quorum == cfg.n - 1 - |nodeFailed|
        invariant canUnqueue <==> ss != []
        invariant stable || Settled(cfg, View())
        decreases |executionList| - i, stable
      {
        stable := false;
        ghost var x := View();
        var call := executionList[i];
        QuorumIsThreshold(cfg, nodeFailed, call);
        if call.key.node == cfg.me {
          if Acks(acks, call.key) >= quorum {
            stable, canUnqueue := true, true;
          }
        } else {
          if Acks(acks, call.key) >= quorum - 1 {
            stable, canUnqueue := true, true;
          }
        }
        if stable {
          stableState := Update(stableState, call);
          i := i + 1;
          stableIndex := stableIndex + 1;
          waitToBeStable := waitToBeStable + 1;
          StabilizeStep(cfg, events, x);
          ss := ss + [Stabilized];
          events := events + [Stabilized];
          RunCounters(cfg, events, View());
        }
      }
      if canUnqueue {
        ds := Unqueue();
      } else {
        assert old(events) + ss + ds == events;
      }
    }

    /** An acknowledgement arrives. */
    method UpdateAcksTable(key: Key) returns (ghost ss: seq<Event>, ghost ds: seq<Event>)
      requires Valid()
      modifies this
      ensures Valid() && events == old(events) + [Counted(key)] + ss + ds && AllStabilized(ss) && AllDequeued(ds)
      ensures acks == old(acks)[key := Acks(old(acks), key) + 1]
      ensures var missing := cfg.n - 1 - |old(nodeFailed)| - (if key.node == cfg.me then 0 else 1);
              if Acks(acks, key) < missing then ss == ds == []
              else
                && After(cfg, old(events) + [Counted(key)] + ss).Some?
                && Settled(cfg, After(cfg, old(events) + [Counted(key)] + ss).value)
                && (if ss == [] then ds == [] else Stuck(cfg, View()))
    {
      hide After, Stuck, Settled;
      ss, ds := [], [];
      var quorum := cfg.n - 1 - |nodeFailed|;
      ghost var x := View();
      RunCounters(cfg, events, x);
      acks := acks[key := Acks(acks, key) + 1];
      CountStep(cfg, events, x, key);
      events := events + [Counted(key)];
      if key.node == cfg.me {
        if Acks(acks, key) >= quorum {
          ss, ds := StabilizerWithAck();
        }
      } else {
        if Acks(acks, key) >= quorum - 1 {
          ss, ds := StabilizerWithAck();
        }
      }
      assert events + [] + [] == events;
    }

    /** A call arrives from another node. */
    method InternalDownstreamExecute(call: Call) returns (ghost ds: seq<Event>)
      requires Valid() && call.key.node < cfg.n
      modifies this
      ensures Valid() && AllDequeued(ds) && Stuck(cfg, View())
      ensures if MustWait(cfg, old(View()), call)
              then exists heap :: events == old(events) + [Queued(call, heap)] + ds
              else events == old(events) + [Executed(call)] + ds
    {
      hide After, Stuck, MustWait, Execute;
      ghost var x := View();
      RunCounters(cfg, events, x);
      var done := RemoteHandler(true, call);
      if done {
        ExecuteStep(cfg, events, x, call);
        events := events + [Executed(call)];
      } else {
        QueueStep(cfg, events, x, call, priorityQueue);
        events := events + [Queued(call, priorityQueue)];
      }
      ds := Unqueue();
    }

    /** std::remove_if over the unstable calls. */
    method RemoveOrphans(d: nat)
      requires stableIndex <= |executionList|
      modifies this`executionList
      ensures executionList == old(executionList)[..stableIndex] + Survivors(acks, d, old(executionList)[stableIndex..])
      ensures forall c :: c in old(executionList) && (c.key.node != d || (c.key in acks && acks[c.key] >= 1)) ==> c in executionList
      ensures forall c :: c in executionList[stableIndex..] ==> c.key.node != d || (c.key in acks && acks[c.key] >= 1)
    {
      hide Survivors;
      var kept := executionList[..stableIndex];
      ghost var cs := executionList[stableIndex..];
      for i := stableIndex to |executionList|
        invariant executionList == old(executionList)
        invariant kept + Survivors(acks, d, cs[i - stableIndex..]) == executionList[..stableIndex] + Survivors(acks, d, cs[0..])
      {
        ghost var k := i - stableIndex;
        assert cs[k] == executionList[i];
        SurvivorsStep(acks, d, cs, k);
        if !(executionList[i].key.node == d && Acks(acks, executionList[i].key) == 0) {
          assert kept + ([cs[k]] + Survivors(acks, d, cs[k + 1..])) == kept + [cs[k]] + Survivors(acks, d, cs[k + 1..]);
          kept := kept + [executionList[i]];
        } else {
          assert [] + Survivors(acks, d, cs[k + 1..]) == Survivors(acks, d, cs[k + 1..]);
        }
      }
      SurvivorsOfNone(acks, d, cs[|cs|..]);
      assert cs[0..] == cs;
      executionList := kept;
      HamsouFailures.AllSurvivorsStay(acks, d, old(executionList), stableIndex);
    }

    /** The forced drain: every queued call is executed. */
    method DrainQueue() returns (ghost fs: seq<Event>)
      requires Valid()
      modifies this
      ensures Valid() && events == old(events) + fs && AllDrained(fs) && |fs| == |old(priorityQueue)|
      ensures priorityQueue == [] && acks == old(acks) && nodeFailed == old(nodeFailed)
    {
      hide Execute, Blocked, After;
      fs := [];
      while |priorityQueue| > 0
        invariant Valid() && events == old(events) + fs && AllDrained(fs)
        invariant acks == old(acks) && nodeFailed == old(nodeFailed)
        invariant |fs| + |priorityQueue| == |old(priorityQueue)|
        decreases |priorityQueue|
      {
        RunCounters(cfg, events, View());
        ghost var x := View();
        var topCall := priorityQueue[0];
        InsertRemote(topCall);
        ExecuteKeeps(cfg, x, topCall);
        priorityQueue := Reheap(priorityQueue[1..]);
        SameSize(priorityQueue, x.queue[1..]);
        DrainStep(cfg, events, x, priorityQueue);
        fs := fs + [Drained(priorityQueue)];
        events := events + [Drained(priorityQueue)];
      }
    }

    /** A node is found dead; finding it dead again does nothing. */
    method MarkNodeFailed(d: nat) returns (ghost ss: seq<Event>, ghost ds: seq<Event>, ghost fs: seq<Event>, ghost ts: seq<Event>)
      requires Valid() && d < cfg.n
      modifies this
      ensures Valid() && AllStabilized(ss) && AllDequeued(ds) && AllDrained(fs) && AllStabilized(ts)
      ensures if d in old(nodeFailed) then View() == old(View()) && events == old(events)
              else events == old(events) + [Failed(d)] + ss + ds + fs + ts && priorityQueue == []
      ensures d !in old(nodeFailed) ==> Settled(cfg, View())
      ensures d !in old(nodeFailed) ==> nodeFailed == old(nodeFailed) + {d} && acks == old(acks)
      ensures forall c :: c in old(executionList) && (c.key.node != d || (c.key in old(acks) && old(acks)[c.key] >= 1)) ==> c in executionList
    {
      hide After, Settled, Stuck, Survivors;
      ss, ds, fs, ts := [], [], [], [];
      if d in nodeFailed {
        return;
      }
      ghost var x := View();
      RunCounters(cfg, events, x);
      nodeFailed := nodeFailed + {d};
      RemoveOrphans(d);
      currentIndex := |executionList|;
      FailStep(cfg, events, x, d);
      events := events + [Failed(d)];
      ghost var es, list := events, executionList;
      ss, ds := StabilizerWithAck();
      fs := DrainQueue();
      ghost var us: seq<Event>;
      ts, us := StabilizerWithAck();
      assert us == [];
      assert events == es + (ss + ds + fs + ts);
      StaysThrough(cfg, es, ss, ds, fs, ts);
      assert forall c :: c in list ==> c in executionList;
    }
  }

  /** Stabilizing and emptying the queue take nothing out of the list. */
  lemma StaysThrough(cfg: Config, es: seq<Event>, ss: seq<Event>, ds: seq<Event>, fs: seq<Event>, ts: seq<Event>)
    requires AllStabilized(ss) && AllDequeued(ds) && AllDrained(fs) && AllStabilized(ts)
    requires After(cfg, es).Some? && After(cfg, es + (ss + ds + fs + ts)).Some?
    ensures forall c :: c in After(cfg, es).value.list ==> c in After(cfg, es + (ss + ds + fs + ts)).value.list
  {
    var rest := ss + ds + fs + ts;
    var all := es + rest;
    assert all[..|es|] == es;
    assert forall i :: 0 <= i < |rest| ==> !rest[i].Failed?;
    assert forall i :: |es| <= i < |all| ==> all[i] == rest[i - |es|];
    hide After, AllStabilized, AllDequeued, AllDrained;
    forall c | c in After(cfg, es).value.list ensures c in After(cfg, all).value.list {
      HamsouFailures.ListGrowsRun(cfg, all, |es|, c);
    }
  }

  lemma SameHindrance(cfg: Config, x: Node, c: Call, clock: seq<int>)
    ensures Hindered(cfg, x, c) <==> Hindered(cfg, x, c.(clock := clock))
  {
    assert forall b: Call :: Reachable(cfg.useCase, c, b) <==> Reachable(cfg.useCase, c.(clock := clock), b);
  }

  lemma IssueStep(cfg: Config, es: seq<Event>, x: Node, c: Call)
    requires After(cfg, es) == Some(x) && x.stableIndex <= |x.list|
    requires c.key.node == cfg.me < cfg.n && c.clock == Tick(x.clock, cfg.me) && !Hindered(cfg, x, c)
    ensures After(cfg, es + [Issued(c)]) == Some(x.(clock := c.clock, list := x.list + [c],
      current := UpdateCurrent(x.current, c), currentIndex := x.currentIndex + 1))
  {
    hide After, UpdateCurrent, Hindered, Tick;
    var e := Issued(c);
    assert Enabled(cfg, x, e);
    AfterOne(cfg, es, e);
  }

  lemma QuorumIsThreshold(cfg: Config, failed: set<nat>, c: Call)
    ensures Threshold(cfg, failed, c) == cfg.n - 1 - |failed| - if c.key.node == cfg.me then 0 else 1
  {
  }

  lemma StabilizeStep(cfg: Config, es: seq<Event>, x: Node)
    requires After(cfg, es) == Some(x) && x.stableIndex < |x.list|
    requires Acks(x.acks, x.list[x.stableIndex].key) >= Threshold(cfg, x.failed, x.list[x.stableIndex])
    ensures After(cfg, es + [Stabilized]) == Some(x.(stable := Update(x.stable, x.list[x.stableIndex]),
      stableIndex := x.stableIndex + 1, waitToBeStable := x.waitToBeStable + 1))
  {
    hide After, Update, Acks, Threshold;
    AfterOne(cfg, es, Stabilized);
  }

  lemma CountStep(cfg: Config, es: seq<Event>, x: Node, key: Key)
    requires After(cfg, es) == Some(x) && x.stableIndex <= |x.list|
    ensures After(cfg, es + [Counted(key)]) == Some(x.(acks := x.acks[key := Acks(x.acks, key) + 1]))
  {
    hide After, Acks;
    AfterOne(cfg, es, Counted(key));
  }

  lemma ExecuteStep(cfg: Config, es: seq<Event>, x: Node, c: Call)
    requires After(cfg, es) == Some(x) && x.stableIndex <= |x.list| && c.key.node < cfg.n && !MustWait(cfg, x, c)
    ensures After(cfg, es + [Executed(c)]) == Some(Execute(cfg, x, c))
  {
    hide After, Execute, MustWait;
    AfterOne(cfg, es, Executed(c));
  }

  lemma QueueStep(cfg: Config, es: seq<Event>, x: Node, c: Call, heap: seq<Call>)
    requires After(cfg, es) == Some(x) && x.stableIndex <= |x.list| && c.key.node < cfg.n && MustWait(cfg, x, c)
    requires multiset(heap) == multiset(x.queue + [c])
    ensures After(cfg, es + [Queued(c, heap)]) == Some(x.(queue := heap))
  {
    hide After, MustWait;
    AfterOne(cfg, es, Queued(c, heap));
  }

  lemma DrainStep(cfg: Config, es: seq<Event>, x: Node, heap: seq<Call>)
    requires After(cfg, es) == Some(x) && x.stableIndex <= |x.list|
    requires x.queue != [] && multiset(heap) == multiset(x.queue[1..])
    ensures After(cfg, es + [Drained(heap)]) == Some(Execute(cfg, x, x.queue[0]).(queue := heap))
  {
    hide After, Execute;
    AfterOne(cfg, es, Drained(heap));
  }

  lemma FailStep(cfg: Config, es: seq<Event>, x: Node, d: nat)
    requires After(cfg, es) == Some(x) && x.stableIndex <= |x.list| && d < cfg.n && d !in x.failed
    ensures var list := x.list[..x.stableIndex] + Survivors(x.acks, d, x.list[x.stableIndex..]);
            After(cfg, es + [Failed(d)]) == Some(x.(failed := x.failed + {d}, list := list, currentIndex := |list|))
  {
    hide After, Survivors;
    AfterOne(cfg, es, Failed(d));
  }

  lemma DequeueStep(cfg: Config, es: seq<Event>, x: Node, heap: seq<Call>)
    requires After(cfg, es) == Some(x) && Enabled(cfg, x, Dequeued(heap))
    ensures After(cfg, es + [Dequeued(heap)]) == Some(Execute(cfg, x, x.queue[0]).(queue := heap))
  {
    hide After, Execute;
    AfterOne(cfg, es, Dequeued(heap));
  }

  lemma SurvivorsStep(acks: map<Key, nat>, d: nat, cs: seq<Call>, k: nat)
    requires k < |cs|
    ensures Survivors(acks, d, cs[k..]) == (if Orphan(acks, d, cs[k]) then [] else [cs[k]]) + Survivors(acks, d, cs[k + 1..])
  {
    assert cs[k..][1..] == cs[k + 1..];
  }

  lemma SurvivorsOfNone(acks: map<Key, nat>, d: nat, cs: seq<Call>)
    requires cs == []
    ensures Survivors(acks, d, cs) == []
  {
  }

  lemma SameSize(a: seq<Call>, b: seq<Call>)
    requires multiset(a) == multiset(b)
    ensures |a| == |b|
  {
    assert |multiset(a)| == |a| && |multiset(b)| == |b|;
  }
}
