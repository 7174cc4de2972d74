/** What holds of one Hamsou replica after every sequence of events, failures included. */
module HamsouLedger {
  import opened Options
  import opened HamsouCalls
  import opened HamsouNode

  // ---------------------------------------------------------------- the stable prefix

  /** The stable prefix only ever grows, and only at its end. */
  lemma {:induction false} StablePrefixGrows(cfg: Config, es: seq<Event>, k: nat)
    requires After(cfg, es).Some? && k <= |es|
    ensures After(cfg, es[..k]).Some?
    ensures var x, y := After(cfg, es[..k]).value, After(cfg, es).value;
            x.stableIndex <= y.stableIndex <= |y.list| && x.stableIndex <= |x.list|
            && y.list[..x.stableIndex] == x.list[..x.stableIndex]
    decreases |es|
  {
    hide Apply, Enabled;
    RunCounters(cfg, es, After(cfg, es).value);
    if k == |es| {
      assert es[..k] == es;
    } else {
      var last := |es| - 1;
      assert es[..last][..k] == es[..k];
      StablePrefixGrows(cfg, es[..last], k);
      var x, w, y := After(cfg, es[..k]).value, After(cfg, es[..last]).value, After(cfg, es).value;
      RunCounters(cfg, es[..last], w);
      StablePrefixKept(cfg, w, es[last]);
      hide After;
      assert y.list[..x.stableIndex] == y.list[..w.stableIndex][..x.stableIndex];
      assert w.list[..x.stableIndex] == w.list[..w.stableIndex][..x.stableIndex];
    }
  }

  /** A queued call has not seen itself: retrying the top of the queue depends on the list alone. */
  lemma TopWaitsOnlyForList(cfg: Config, x: Node)
    requires x.queue != []
    ensures MustWait(cfg, x, x.queue[0]) <==> Blocked(cfg, x, x.queue[0])
  {
    CompareSelf(x.queue[0].clock);
  }

  // ---------------------------------------------------------------- where the calls are

  function Accepted(e: Event, c: Call): nat {
    match e
    case Issued(d) => if d == c then 1 else 0
    case Executed(d) => if d == c then 1 else 0
    case Queued(d, _) => if d == c then 1 else 0
    case _ => 0
  }

  /** How often the replica issued or received c. */
  function AcceptedCount(es: seq<Event>, c: Call): nat {
    if es == [] then 0 else AcceptedCount(es[..|es| - 1], c) + Accepted(es[|es| - 1], c)
  }

  /** A failure of d removes the unstable calls of d that nobody acknowledged, and nothing else. */
  ghost function Dropped(x: Node, e: Event, c: Call): nat
    requires x.stableIndex <= |x.list|
  {
    if e.Failed? && c.key.node == e.node && !(c.key in x.acks && x.acks[c.key] >= 1) then multiset(x.list[x.stableIndex..])[c] else 0
  }

  ghost function DroppedCount(cfg: Config, es: seq<Event>, c: Call): nat
    requires After(cfg, es).Some?
    decreases |es|
  {
    if es == [] then 0
    else
      var x := After(cfg, es[..|es| - 1]).value;
      DroppedCount(cfg, es[..|es| - 1], c) + Dropped(x, es[|es| - 1], c)
  }

  function Holds(x: Node, c: Call): nat {
    multiset(x.list)[c] + multiset(x.queue)[c]
  }

  lemma InsertHolds(list: seq<Call>, p: nat, d: Call)
    requires p <= |list|
    ensures multiset(Insert(list, p, d)) == multiset(list) + multiset{d}
  {
    assert list == list[..p] + list[p..];
  }

  lemma FailureHolds(acks: map<Key, nat>, d: nat, list: seq<Call>, i: nat, c: Call)
    requires i <= |list|
    ensures multiset(list[..i] + Survivors(acks, d, list[i..]))[c] + (if Orphan(acks, d, c) then multiset(list[i..])[c] else 0)
         == multiset(list)[c]
  {
    assert list == list[..i] + list[i..];
    SurvivorsAre(acks, d, list[i..], c);
  }

  lemma ExecutedHolds(cfg: Config, x: Node, d: Call, c: Call)
    requires x.stableIndex <= |x.list|
    ensures Holds(Execute(cfg, x, d), c) == Holds(x, c) + if d == c then 1 else 0
    ensures Execute(cfg, x, d).queue == x.queue
  {
    hide Slot, Insert, Tick, UpdateCurrent;
    InsertHolds(x.list, Slot(cfg.useCase, x.list, x.stableIndex, d), d);
  }

  /** A call that leaves the queue is executed. */
  lemma UnqueuedHolds(cfg: Config, x: Node, heap: seq<Call>, c: Call)
    requires x.stableIndex <= |x.list| && x.queue != [] && multiset(heap) == multiset(x.queue[1..])
    ensures Holds(Execute(cfg, x, x.queue[0]).(queue := heap), c) == Holds(x, c)
  {
    hide Execute;
    ExecutedHolds(cfg, x, x.queue[0], c);
    PopIsLess(x.queue);
  }

  lemma SameHolds(x: Node, y: Node, c: Call)
    requires y.list == x.list && y.queue == x.queue
    ensures Holds(y, c) == Holds(x, c)
  {
  }

  lemma QueuedHolds(x: Node, heap: seq<Call>, d: Call, c: Call)
    requires multiset(heap) == multiset(x.queue + [d])
    ensures Holds(x.(queue := heap), c) == Holds(x, c) + if d == c then 1 else 0
  {
  }

  lemma FailedHolds(x: Node, d: nat, c: Call)
    requires x.stableIndex <= |x.list|
    ensures var list := x.list[..x.stableIndex] + Survivors(x.acks, d, x.list[x.stableIndex..]);
            Holds(x.(failed := x.failed + {d}, list := list, currentIndex := |list|), c) + Dropped(x, Failed(d), c) == Holds(x, c)
  {
    FailureHolds(x.acks, d, x.list, x.stableIndex, c);
    hide Survivors;
  }

  lemma IssuedHolds(x: Node, d: Call, c: Call)
    ensures multiset(x.list + [d])[c] == multiset(x.list)[c] + if d == c then 1 else 0
  {
  }

  lemma StepHolds(cfg: Config, x: Node, e: Event, c: Call)
    requires Enabled(cfg, x, e)
    ensures Holds(Apply(cfg, x, e), c) + Dropped(x, e, c) == Holds(x, c) + Accepted(e, c)
  {
    hide Reachable, Update, UpdateCurrent, Blocked, MustWait, Hindered, Execute, Survivors;
    var y := Apply(cfg, x, e);
    if e.Issued? {
      IssuedHolds(x, e.call, c);
    } else {
      hide Holds;
      match e
      case Executed(d) => ExecutedHolds(cfg, x, d, c);
      case Queued(d, heap) => QueuedHolds(x, heap, d, c);
      case Dequeued(heap) => UnqueuedHolds(cfg, x, heap, c);
      case Drained(heap) => UnqueuedHolds(cfg, x, heap, c);
      case Failed(d) => FailedHolds(x, d, c);
      case Counted(_) => SameHolds(x, y, c);
      case Stabilized => SameHolds(x, y, c);
      case Issued(_) =>
    }
  }

  /** List and queue hold exactly the accepted calls, less the orphans of failed nodes. */
  lemma {:induction false} CallsAreKept(cfg: Config, es: seq<Event>, c: Call)
    requires After(cfg, es).Some?
    ensures Holds(After(cfg, es).value, c) + DroppedCount(cfg, es, c) == AcceptedCount(es, c)
    decreases |es|
  {
    if es != [] {
      var before := es[..|es| - 1];
      CallsAreKept(cfg, before, c);
      StepHolds(cfg, After(cfg, before).value, es[|es| - 1], c);
      hide Apply, Enabled, Holds, Dropped, Accepted;
    }
  }

  /** While the node of c is not marked failed, c is not lost. */
  lemma {:induction false} LiveNodesLoseNothing(cfg: Config, es: seq<Event>, c: Call)
    requires After(cfg, es).Some? && Failed(c.key.node) !in es
    ensures DroppedCount(cfg, es, c) == 0 && Holds(After(cfg, es).value, c) == AcceptedCount(es, c)
    decreases |es|
  {
    if es != [] {
      LiveNodesLoseNothing(cfg, es[..|es| - 1], c);
      assert es[|es| - 1] in es;
    }
    CallsAreKept(cfg, es, c);
  }

  /** A stable call is never lost. */
  lemma StableStays(cfg: Config, es: seq<Event>, k: nat, c: Call)
    requires After(cfg, es).Some? && k <= |es| && After(cfg, es[..k]).Some?
    requires After(cfg, es[..k]).value.stableIndex <= |After(cfg, es[..k]).value.list|
    requires c in After(cfg, es[..k]).value.list[..After(cfg, es[..k]).value.stableIndex]
    ensures After(cfg, es).value.stableIndex <= |After(cfg, es).value.list|
    ensures c in After(cfg, es).value.list[..After(cfg, es).value.stableIndex]
  {
    StablePrefixGrows(cfg, es, k);
    var x, y := After(cfg, es[..k]).value, After(cfg, es).value;
    var i :| 0 <= i < x.stableIndex && x.list[..x.stableIndex][i] == c;
    assert y.list[..x.stableIndex][i] == c;
    assert y.list[..y.stableIndex][i] == c;
  }

  // ---------------------------------------------------------------- the order of arrival

  /** The call an event executes. */
  function Arrival(x: Node, e: Event): seq<Call> {
    match e
    case Issued(c) => [c]
    case Executed(c) => [c]
    case Dequeued(_) => x.queue[..if x.queue == [] then 0 else 1]
    case Drained(_) => x.queue[..if x.queue == [] then 0 else 1]
    case _ => []
  }

  /** The executed calls in the order in which they were executed. */
  ghost function Arrivals(cfg: Config, es: seq<Event>): seq<Call>
    requires After(cfg, es).Some?
    decreases |es|
  {
    if es == [] then []
    else Arrivals(cfg, es[..|es| - 1]) + Arrival(After(cfg, es[..|es| - 1]).value, es[|es| - 1])
  }

  function CountFrom(cs: seq<Call>, node: nat): nat {
    if cs == [] then 0 else CountFrom(cs[..|cs| - 1], node) + if cs[|cs| - 1].key.node == node then 1 else 0
  }

  /** The executed calls that came from elsewhere. */
  ghost function Acknowledgements(cfg: Config, es: seq<Event>): seq<Key>
    requires After(cfg, es).Some?
    decreases |es|
  {
    if es == [] then []
    else
      var arrival := Arrival(After(cfg, es[..|es| - 1]).value, es[|es| - 1]);
      Acknowledgements(cfg, es[..|es| - 1]) + if arrival == [] || es[|es| - 1].Issued? then [] else [arrival[0].key]
  }

  ghost predicate Arrived(cfg: Config, x: Node, cs: seq<Call>, sent: seq<Key>) {
    && x.current == ReplayCurrent(Start(cfg.useCase), cs)
    && (forall j :: 0 <= j < |x.clock| ==> x.clock[j] == CountFrom(cs, j))
    && x.sent == sent
  }

  lemma TickCounts(clock: seq<int>, cs: seq<Call>, c: Call)
    requires forall j :: 0 <= j < |clock| ==> clock[j] == CountFrom(cs, j)
    ensures forall j :: 0 <= j < |clock| ==> Tick(clock, c.key.node)[j] == CountFrom(cs + [c], j)
  {
    assert (cs + [c])[..|cs|] == cs;
  }

  lemma ReplayCurrentOne(s: AppState, cs: seq<Call>, c: Call)
    ensures ReplayCurrent(s, cs + [c]) == UpdateCurrent(ReplayCurrent(s, cs), c)
  {
    assert (cs + [c])[..|cs|] == cs;
  }

  /** What an arrival does to the current state, the clock and the acknowledgements. */
  lemma ArrivalEffect(cfg: Config, x: Node, e: Event)
    requires Enabled(cfg, x, e)
    ensures var y, arrival := Apply(cfg, x, e), Arrival(x, e);
            if arrival == [] then y.current == x.current && y.clock == x.clock && y.sent == x.sent
            else
              && |arrival| == 1
              && y.current == UpdateCurrent(x.current, arrival[0])
              && y.clock == Tick(x.clock, arrival[0].key.node)
              && y.sent == x.sent + if e.Issued? then [] else [arrival[0].key]
  {
    hide UpdateCurrent, Blocked, MustWait, Hindered, Survivors, Slot, Insert, Tick, Update, Acks, Threshold;
    if e.Issued? {
      assert x.sent + [] == x.sent;
    }
  }

  lemma StepArrives(cfg: Config, x: Node, e: Event, cs: seq<Call>, sent: seq<Key>)
    requires Enabled(cfg, x, e) && Arrived(cfg, x, cs, sent)
    ensures var arrival := Arrival(x, e);
            Arrived(cfg, Apply(cfg, x, e), cs + arrival, sent + if arrival == [] || e.Issued? then [] else [arrival[0].key])
  {
    ArrivalEffect(cfg, x, e);
    var y, arrival := Apply(cfg, x, e), Arrival(x, e);
    hide Apply, Enabled, Arrival, Tick, CountFrom, ReplayCurrent, UpdateCurrent;
    if arrival == [] {
      assert cs + arrival == cs && sent + [] == sent;
    } else {
      assert arrival == [arrival[0]];
      TickCounts(x.clock, cs, arrival[0]);
      ReplayCurrentOne(Start(cfg.useCase), cs, arrival[0]);
    }
  }

  /**
   The current state is the replay of the calls in their order of arrival, the clock counts the
   executed calls of every node, and every remote execution is acknowledged once, in order.
   */
  lemma {:induction false} CurrentFollowsArrival(cfg: Config, es: seq<Event>)
    requires After(cfg, es).Some?
    ensures Arrived(cfg, After(cfg, es).value, Arrivals(cfg, es), Acknowledgements(cfg, es))
    decreases |es|
  {
    if es != [] {
      var before := es[..|es| - 1];
      CurrentFollowsArrival(cfg, before);
      StepArrives(cfg, After(cfg, before).value, es[|es| - 1], Arrivals(cfg, before), Acknowledgements(cfg, before));
      hide Arrived, Ledger, Apply, Enabled, Arrival;
    }
  }

  /** The current state need not be the replay of the list: a call is inserted but applied last. */
  lemma CurrentIsNotListReplay() returns (cfg: Config, es: seq<Event>)
    ensures After(cfg, es).Some?
    ensures var x := After(cfg, es).value; x.current == SetState({1}) && Replay(Start(cfg.useCase), x.list) == SetState({})
  {
    cfg := Config(SetCase, 0, 2);
    var remove := Call(Remove, 1, 0, Key(0, 1), [1, 0]);
    var add := Call(Add, 1, 0, Key(1, 1), [0, 1]);
    var x1 := RemoveIssued(cfg, remove);
    InsertsBefore(cfg, x1, remove, add);
    hide After, Apply, Enabled, Replay;
    AfterOne(cfg, [Issued(remove)], Executed(add));
    es := [Issued(remove)] + [Executed(add)];
    ReplayTwo(Start(cfg.useCase), add, remove);
  }

  lemma RemoveIssued(cfg: Config, remove: Call) returns (x: Node)
    requires cfg == Config(SetCase, 0, 2) && remove == Call(Remove, 1, 0, Key(0, 1), [1, 0])
    ensures After(cfg, [Issued(remove)]) == Some(x)
    ensures x.list == [remove] && x.queue == [] && x.stableIndex == 0 && x.current == SetState({})
  {
    var x0 := Initial(cfg);
    assert Enabled(cfg, x0, Issued(remove));
    AfterOne(cfg, [], Issued(remove));
    assert [] + [Issued(remove)] == [Issued(remove)];
    x := Apply(cfg, x0, Issued(remove));
  }

  lemma InsertsBefore(cfg: Config, x: Node, remove: Call, add: Call)
    requires cfg == Config(SetCase, 0, 2) && x.list == [remove] && x.queue == [] && x.stableIndex == 0 && x.current == SetState({})
    requires remove == Call(Remove, 1, 0, Key(0, 1), [1, 0]) && add == Call(Add, 1, 0, Key(1, 1), [0, 1])
    ensures Enabled(cfg, x, Executed(add))
    ensures Apply(cfg, x, Executed(add)).list == [add, remove] && Apply(cfg, x, Executed(add)).current == SetState({1})
  {
    assert !Above(add.clock, remove.clock) by {
      assert add.clock[0] < remove.clock[0];
    }
    assert Slot(SetCase, x.list, 0, add) == 0;
    assert Insert(x.list, 0, add) == [add, remove];
    hide Slot, Insert, Tick;
  }

  lemma ReplayTwo(s: AppState, c: Call, d: Call)
    ensures Replay(s, [c, d]) == Update(Update(s, c), d)
  {
    ReplayOne(s, [c], d);
    ReplayOne(s, [], c);
    assert [] + [c] == [c] && [c] + [d] == [c, d];
  }

  // ---------------------------------------------------------------- courseware enrolments

  lemma {:induction false} ReplayEnrols(s: AppState, cs: seq<Call>, p: (int, int))
    requires s.CoursewareState?
    ensures Replay(s, cs).CoursewareState?
    ensures p in Replay(s, cs).enroll <==> p in s.enroll || exists i :: 0 <= i < |cs| && cs[i].kind == Enroll && (cs[i].value1, cs[i].value2) == p
    decreases |cs|
  {
    if cs != [] {
      var rest := cs[1..];
      ReplayEnrols(Update(s, cs[0]), rest, p);
      if i :| 0 <= i < |cs| && cs[i].kind == Enroll && (cs[i].value1, cs[i].value2) == p {
        if i > 0 {
          assert rest[i - 1] == cs[i];
        }
      }
      if i :| 0 <= i < |rest| && rest[i].kind == Enroll && (rest[i].value1, rest[i].value2) == p {
        assert cs[i + 1] == rest[i];
      }
    }
  }

  lemma {:induction false} CurrentNeverEnrols(s: AppState, cs: seq<Call>)
    requires s.CoursewareState?
    ensures ReplayCurrent(s, cs).CoursewareState? && ReplayCurrent(s, cs).enroll == s.enroll
    decreases |cs|
  {
    if cs != [] {
      CurrentNeverEnrols(s, cs[..|cs| - 1]);
    }
  }

  /** The stable courseware state has the enrolments of the stable calls, the current one none at all. */
  lemma EnrolmentsShowOnlyWhenStable(cfg: Config, es: seq<Event>, p: (int, int))
    requires After(cfg, es).Some? && cfg.useCase == CoursewareCase
    ensures var x := After(cfg, es).value;
            && x.stable.CoursewareState? && x.current.CoursewareState? && x.current.enroll == {} && x.stableIndex <= |x.list|
            && (p in x.stable.enroll <==> exists i :: 0 <= i < x.stableIndex && x.list[i].kind == Enroll && (x.list[i].value1, x.list[i].value2) == p)
  {
    var x := After(cfg, es).value;
    RunKeepsLedger(cfg, es);
    CurrentFollowsArrival(cfg, es);
    var cs := x.list[..x.stableIndex];
    ReplayEnrols(Start(cfg.useCase), cs, p);
    CurrentNeverEnrols(Start(cfg.useCase), Arrivals(cfg, es));
    assert forall i :: 0 <= i < x.stableIndex ==> cs[i] == x.list[i];
    hide Ordered, Acknowledged, Known, After, Arrivals;
    if i :| 0 <= i < |cs| && cs[i].kind == Enroll && (cs[i].value1, cs[i].value2) == p {
      assert x.list[i].kind == Enroll;
    }
    if i :| 0 <= i < x.stableIndex && x.list[i].kind == Enroll && (x.list[i].value1, x.list[i].value2) == p {
      assert cs[i].kind == Enroll;
    }
  }

  // ---------------------------------------------------------------- what the stable state contains

  /** The kinds of calls that put a value into a set of the object, each with the kind that takes it out. */
  function Opposite(u: UseCase, add: Kind): Option<Kind> {
    match u
    case SetCase => if add == Add then Some(Remove) else None
    case MovieCase => if add == AddMovie then Some(DeleteMovie) else if add == AddCustomer then Some(DeleteCustomer) else None
    case ProjectCase => if add == AddProject then Some(DeleteProject) else if add == AddEmployee then Some(DeleteEmployee) else None
    case CoursewareCase => if add == AddCourse then Some(DeleteCourse) else if add == AddStudent then Some(DeleteStudent) else None
  }

  /** The set that calls of kind add fill. */
  function Contents(s: AppState, add: Kind): set<int> {
    match s
    case SetState(elements) => elements
    case MovieState(movies, customers) => if add == AddMovie then movies else customers
    case ProjectState(projects, employees, _) => if add == AddProject then projects else employees
    case CoursewareState(courses, students, _) => if add == AddCourse then courses else students
  }

  /** Call i adds v, and no later call removes it. */
  ghost predicate AddsAt(cs: seq<Call>, i: nat, add: Kind, remove: Kind, v: int)
    requires i < |cs|
  {
    cs[i].kind == add && cs[i].value1 == v && forall j :: i < j < |cs| ==> !(cs[j].kind == remove && cs[j].value1 == v)
  }

  /** The last call of the list that is about v adds it. */
  ghost predicate LastAdds(cs: seq<Call>, add: Kind, remove: Kind, v: int) {
    exists i :: 0 <= i < |cs| && AddsAt(cs, i, add, remove, v)
  }

  lemma {:induction false} LastCallDecides(u: UseCase, cs: seq<Call>, add: Kind, v: int)
    requires Opposite(u, add).Some?
    ensures Fits(u, Replay(Start(u), cs))
    ensures v in Contents(Replay(Start(u), cs), add) <==> LastAdds(cs, add, Opposite(u, add).value, v)
    decreases |cs|
  {
    ReplayFits(u, Start(u), cs);
    if cs != [] {
      var before, c := cs[..|cs| - 1], cs[|cs| - 1];
      LastCallDecides(u, before, add, v);
      assert cs == before + [c];
      ReplayOne(Start(u), before, c);
      OneCallDecides(u, Replay(Start(u), before), c, add, v);
      LastAddsOne(before, c, add, Opposite(u, add).value, v);
    }
  }

  lemma OneCallDecides(u: UseCase, s: AppState, c: Call, add: Kind, v: int)
    requires Opposite(u, add).Some? && Fits(u, s)
    ensures v in Contents(Update(s, c), add) <==>
              (c.kind == add && c.value1 == v) || (v in Contents(s, add) && !(c.kind == Opposite(u, add).value && c.value1 == v))
  {
  }

  lemma LastAddsOne(cs: seq<Call>, c: Call, add: Kind, remove: Kind, v: int)
    requires add != remove
    ensures LastAdds(cs + [c], add, remove, v) <==>
              (c.kind == add && c.value1 == v) || (LastAdds(cs, add, remove, v) && !(c.kind == remove && c.value1 == v))
  {
    var all := cs + [c];
    hide AddsAt;
    AddsAtLast(cs, c, add, remove, v);
    forall i | 0 <= i < |cs|
      ensures AddsAt(all, i, add, remove, v) <==> AddsAt(cs, i, add, remove, v) && !(c.kind == remove && c.value1 == v)
    {
      AddsAtOne(cs, c, i, add, remove, v);
    }
  }

  lemma AddsAtLast(cs: seq<Call>, c: Call, add: Kind, remove: Kind, v: int)
    ensures AddsAt(cs + [c], |cs|, add, remove, v) <==> c.kind == add && c.value1 == v
  {
  }

  lemma AddsAtOne(cs: seq<Call>, c: Call, i: nat, add: Kind, remove: Kind, v: int)
    requires i < |cs|
    ensures AddsAt(cs + [c], i, add, remove, v) <==> AddsAt(cs, i, add, remove, v) && !(c.kind == remove && c.value1 == v)
  {
    var all := cs + [c];
    assert all[|cs|] == c;
    assert forall j :: 0 <= j < |cs| ==> all[j] == cs[j];
  }

  /** After every history a value is in the stable state exactly when the last stable call about it added it. */
  lemma StableStateIsLastWrites(cfg: Config, es: seq<Event>, add: Kind, v: int)
    requires After(cfg, es).Some? && Opposite(cfg.useCase, add).Some?
    ensures var x := After(cfg, es).value;
            && x.stableIndex <= |x.list|
            && (v in Contents(x.stable, add) <==> LastAdds(x.list[..x.stableIndex], add, Opposite(cfg.useCase, add).value, v))
  {
    RunKeepsLedger(cfg, es);
    LastCallDecides(cfg.useCase, After(cfg, es).value.list[..After(cfg, es).value.stableIndex], add, v);
  }
}
