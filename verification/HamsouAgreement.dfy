/**
 When replicas that have executed the same calls are in the same state, although every replica
 stabilizes calls in an order of its own: exactly the arrivals that come too late, or too early,
 put related calls in an order other than the one in which they were issued.
 */
module HamsouAgreement {
  import opened Options
  import opened HamsouCalls
  import opened HamsouNode
  import opened HamsouLedger
  import opened HamsouGlobal
  import opened HamsouDelivery
  import opened HamsouConvergence
  import opened HamsouCausality

  // ---------------------------------------------------------------- lists

  ghost predicate Distinct(cs: seq<Call>) {
    forall i, j :: 0 <= i < j < |cs| ==> cs[i] != cs[j]
  }

  /** In a list without repetitions, of two calls one stands before the other. */
  lemma OneOrder(cs: seq<Call>, c: Call, d: Call)
    requires Distinct(cs) && c in cs && d in cs && c != d
    ensures Before(cs, c, d) <==> !Before(cs, d, c)
  {
    var i :| 0 <= i < |cs| && cs[i] == c;
    var j :| 0 <= j < |cs| && cs[j] == d;
  }

  /** Inserting c leaves the order of the others, and puts c behind what stood before its place. */
  lemma InsertOrder(cs: seq<Call>, p: nat, c: Call, d: Call)
    requires Distinct(cs) && p <= |cs| && c !in cs && d in cs
    ensures Before(Insert(cs, p, c), d, c) <==> d in cs[..p]
    ensures c in Insert(cs, p, c) && d in Insert(cs, p, c)
  {
    var after := Insert(cs, p, c);
    assert after[p] == c;
    assert forall i :: 0 <= i < |after| && i != p ==> after[i] == cs[if i < p then i else i - 1];
    var k :| 0 <= k < |cs| && cs[k] == d;
    assert after[if k < p then k else k + 1] == d;
    if d in cs[..p] {
      var i :| 0 <= i < p && cs[..p][i] == d;
      assert after[i] == d;
    }
    if i, j :| 0 <= i < j < |after| && after[i] == d && after[j] == c {
      assert j == p;
      assert cs[..p][i] == d;
    }
  }

  lemma InsertKeepsOrder(cs: seq<Call>, p: nat, e: Call, c: Call, d: Call)
    requires p <= |cs| && c != e && d != e
    ensures Before(Insert(cs, p, e), c, d) <==> Before(cs, c, d)
  {
    var after := Insert(cs, p, e);
    if i, j :| 0 <= i < j < |cs| && cs[i] == c && cs[j] == d {
      assert after[if i < p then i else i + 1] == c && after[if j < p then j else j + 1] == d;
    }
    if i, j :| 0 <= i < j < |after| && after[i] == c && after[j] == d {
      assert i != p && j != p;
      assert cs[if i < p then i else i - 1] == c && cs[if j < p then j else j - 1] == d;
    }
  }

  // ---------------------------------------------------------------- one replica

  /** Where an event puts the call it executes. */
  function Place(cfg: Config, x: Node, e: Event, c: Call): (p: nat)
    requires x.stableIndex <= |x.list|
    ensures x.stableIndex <= p <= |x.list|
  {
    if e.Issued? then |x.list| else Slot(cfg.useCase, x.list, x.stableIndex, c)
  }

  lemma ArrivalInserts(cfg: Config, x: Node, e: Event, c: Call)
    requires Enabled(cfg, x, e) && !e.Failed? && !e.Drained? && Arrival(x, e) == [c]
    ensures Apply(cfg, x, e).list == Insert(x.list, Place(cfg, x, e, c), c)
  {
    hide MustWait, Blocked, Hindered, Update, UpdateCurrent, Tick, Reachable, Slot;
  }

  lemma NoArrival(cfg: Config, x: Node, e: Event)
    requires Enabled(cfg, x, e) && !e.Failed? && !e.Drained? && Arrival(x, e) == []
    ensures Apply(cfg, x, e).list == x.list
  {
    hide MustWait, Blocked, Hindered, Update, UpdateCurrent, Tick, Reachable, Slot;
  }

  /** No unstable call before the place of c has to follow it. */
  lemma PlaceIsFirst(cfg: Config, x: Node, e: Event, c: Call, j: nat)
    requires Enabled(cfg, x, e) && !e.Failed? && !e.Drained? && Arrival(x, e) == [c]
    requires x.stableIndex <= j < Place(cfg, x, e, c)
    ensures !Reachable(cfg.useCase, c, x.list[j])
  {
    hide MustWait, Blocked, Update, UpdateCurrent, Tick, Reachable;
  }

  /**
   Of the calls it has to precede, an arriving call is put behind the stable and before the unstable
   ones; and behind all calls if one of them has to precede it.
   */
  lemma ArrivalPlace(cfg: Config, x: Node, e: Event, c: Call, d: Call)
    requires Enabled(cfg, x, e) && !e.Failed? && !e.Drained? && Arrival(x, e) == [c] && d in x.list
    ensures Reachable(cfg.useCase, c, d) ==> (d in x.list[..Place(cfg, x, e, c)] <==> d in x.list[..x.stableIndex])
    ensures Reachable(cfg.useCase, d, c) ==> Place(cfg, x, e, c) == |x.list|
  {
    var p := Place(cfg, x, e, c);
    if Reachable(cfg.useCase, d, c) && p < |x.list| {
      Bipartite(cfg.useCase, d, c, x.list[p]);
    }
    if Reachable(cfg.useCase, c, d) && d in x.list[..p] {
      var j: nat :| j < p && x.list[..p][j] == d;
      if j >= x.stableIndex {
        PlaceIsFirst(cfg, x, e, c, j);
      } else {
        assert x.list[..x.stableIndex][j] == d;
      }
    }
    hide Enabled, Reachable, Arrival;
    if d in x.list[..x.stableIndex] {
      var j: nat :| j < x.stableIndex && x.list[..x.stableIndex][j] == d;
      assert x.list[..p][j] == d;
    }
  }

  ghost predicate Plain(cfg: Config, x: Node, e: Event) {
    Enabled(cfg, x, e) && !e.Failed? && !e.Drained? && Distinct(x.list)
  }

  /** An arriving call stands behind a call that it has to precede exactly if that one was stable already. */
  lemma NewcomerOrder(cfg: Config, x: Node, e: Event, c: Call, d: Call)
    requires Plain(cfg, x, e) && Arrival(x, e) == [c] && c !in x.list && d in x.list && Reachable(cfg.useCase, c, d)
    ensures Before(Apply(cfg, x, e).list, d, c) <==> x.stableIndex <= |x.list| && d in x.list[..x.stableIndex]
  {
    ArrivalPlace(cfg, x, e, c, d);
    ArrivalInserts(cfg, x, e, c);
    InsertOrder(x.list, Place(cfg, x, e, c), c, d);
    hide Apply, Arrival, Before, Reachable, Place, Insert, Distinct;
  }

  /** An arriving call stands behind every call that has to precede it. */
  lemma FollowerOrder(cfg: Config, x: Node, e: Event, c: Call, d: Call)
    requires Plain(cfg, x, e) && Arrival(x, e) == [d] && d !in x.list && c in x.list && Reachable(cfg.useCase, c, d)
    ensures !Before(Apply(cfg, x, e).list, d, c)
  {
    ArrivalPlace(cfg, x, e, d, c);
    ArrivalInserts(cfg, x, e, d);
    hide Apply, Arrival, Reachable, Place, Enabled;
    assert Apply(cfg, x, e).list == x.list + [d];
    assert d !in x.list && c != d;
  }

  /** The others stay as they are. */
  lemma OthersOrder(cfg: Config, x: Node, e: Event, c: Call, d: Call)
    requires Plain(cfg, x, e) && c !in Arrival(x, e) && d !in Arrival(x, e)
    ensures Before(Apply(cfg, x, e).list, c, d) <==> Before(x.list, c, d)
  {
    OneArrivalAll(x, e);
    if Arrival(x, e) == [] {
      NoArrival(cfg, x, e);
    } else {
      var a := Arrival(x, e)[0];
      ArrivalInserts(cfg, x, e, a);
      InsertKeepsOrder(x.list, Place(cfg, x, e, a), a, c, d);
    }
    hide Apply, Arrival, Before, Place, Insert, Distinct, Enabled;
  }

  // ---------------------------------------------------------------- the system

  ghost predicate IssuesAfter(g: Global, m: Move, c: Call, d: Call) {
    m.Issue? && m.call == c && m.r < |g.nodes| && d in g.nodes[m.r].list
  }

  /** When c was issued, its replica had d in its list. */
  ghost predicate IssuedAfter(s: System, ms: seq<Move>, c: Call, d: Call)
    requires Run(s, ms).Some?
    decreases |ms|
  {
    && ms != []
    && (IssuedAfter(s, ms[..|ms| - 1], c, d) || IssuesAfter(Run(s, ms[..|ms| - 1]).value, ms[|ms| - 1], c, d))
  }

  /** Replica r has related calls in the order in which they were issued. */
  ghost predicate InIssueOrder(s: System, ms: seq<Move>, r: nat)
    requires Run(s, ms).Some?
  {
    && r < |Run(s, ms).value.nodes|
    && var list := Run(s, ms).value.nodes[r].list;
       forall c: Call, d: Call :: c in list && d in list && Reachable(s.useCase, c, d) ==> PairInOrder(s, ms, list, c, d)
  }

  ghost predicate PairInOrder(s: System, ms: seq<Move>, list: seq<Call>, c: Call, d: Call)
    requires Run(s, ms).Some?
  {
    Before(list, d, c) <==> IssuedAfter(s, ms, c, d)
  }

  /** Call c comes to a replica in time: d, which it has to precede, is stable there exactly if c was issued after it. */
  ghost predicate PairInTime(s: System, ms: seq<Move>, x: Node, c: Call, d: Call)
    requires Run(s, ms).Some?
  {
    x.stableIndex <= |x.list| && d in x.list[..x.stableIndex] <==> IssuedAfter(s, ms, c, d)
  }

  /** The last move of the run, if replica r makes it, executes no call too late or too early. */
  ghost predicate Timely(s: System, ms: seq<Move>, r: nat)
    requires Run(s, ms).Some?
  {
    ms != [] && !ms[|ms| - 1].Lose? && ms[|ms| - 1].r == r ==>
      var g := Run(s, ms[..|ms| - 1]).value;
      && r < |g.nodes|
      && forall c: Call, d: Call ::
           c in Arrival(g.nodes[r], EventOf(ms[|ms| - 1])) && d in g.nodes[r].list && Reachable(s.useCase, c, d) ==>
             PairInTime(s, ms, g.nodes[r], c, d)
  }

  /** The step from a run without its last move. */
  lemma LastMove(s: System, ms: seq<Move>) returns (g: Global, m: Move)
    requires ms != [] && Run(s, ms).Some?
    ensures Run(s, ms[..|ms| - 1]) == Some(g) && m == ms[|ms| - 1] && Possible(s, g, m) && Run(s, ms) == Some(Make(s, g, m))
    ensures Inv(s, g)
  {
    g, m := Run(s, ms[..|ms| - 1]).value, ms[|ms| - 1];
    RunKeepsInv(s, ms[..|ms| - 1]);
    hide Inv, Possible, Make;
  }

  /** A call that arrives is new. */
  lemma ArrivalIsNew(s: System, g: Global, m: Move, c: Call)
    requires Inv(s, g) && Possible(s, g, m) && !m.Lose? && c in Arrival(g.nodes[m.r], EventOf(m))
    ensures c !in g.nodes[m.r].list
  {
    MoveSourced(s, g, m);
    assert Source(s, g, m.r, EventOf(m), c);
    assert Holds(g.nodes[m.r], c) <= 1;
    HeldTwice(g.nodes[m.r], c);
    hide Inv, Possible, Arrival, Holds, Sourced;
  }

  /** A call that some replica has is not issued again. */
  lemma NotIssuedAgain(s: System, g: Global, m: Move, r: nat, c: Call, d: Call)
    requires Inv(s, g) && Possible(s, g, m) && r < s.n && c in g.nodes[r].list
    ensures !IssuesAfter(g, m, c, d)
  {
    assert c.key.node < s.n && c in g.nodes[c.key.node].list;
    hide Inv, Holds, Hindered, Reachable;
  }

  lemma TwoPlaces(cs: seq<Call>, i: nat, j: nat)
    requires i < j < |cs| && cs[i] == cs[j]
    ensures multiset(cs)[cs[j]] >= 2
  {
    assert cs == cs[..j] + [cs[j]] + cs[j + 1..];
    assert cs[..j][i] == cs[j] && cs[j] in multiset(cs[..j]);
  }

  lemma ListsAreDistinct(s: System, g: Global, r: nat)
    requires Inv(s, g) && r < s.n
    ensures r < |g.nodes| && Distinct(g.nodes[r].list)
  {
    var list := g.nodes[r].list;
    assert forall c: Call :: multiset(list)[c] <= Holds(g.nodes[r], c) <= 1;
    hide Inv, Holds;
    forall i, j | 0 <= i < j < |list| ensures list[i] != list[j] {
      if list[i] == list[j] {
        TwoPlaces(list, i, j);
      }
    }
  }

  /** No move takes a call out of a list. */
  lemma ListsGrow(s: System, g: Global, m: Move, q: nat, c: Call)
    requires Inv(s, g) && Possible(s, g, m) && q < s.n && c in g.nodes[q].list
    ensures q < |Make(s, g, m).nodes| && c in Make(s, g, m).nodes[q].list
  {
    MoveFrame(s, g, m);
    if !m.Lose? && m.r == q {
      AckEvent(s, g, m);
      EventMembers(Cfg(s, q), g.nodes[q], EventOf(m), c);
    }
    hide Inv, Possible, Make, Apply, Enabled, Holds, Accepted, Arrival;
  }

  /** If c has to precede d and was issued after it, every replica has d. */
  lemma {:induction false} SeenIsEverywhere(s: System, ms: seq<Move>, c: Call, d: Call, q: nat)
    requires Run(s, ms).Some? && IssuedAfter(s, ms, c, d) && Reachable(s.useCase, c, d) && q < s.n
    ensures q < |Run(s, ms).value.nodes| && d in Run(s, ms).value.nodes[q].list
    decreases |ms|
  {
    var g, m := LastMove(s, ms);
    var pre := ms[..|ms| - 1];
    if IssuedAfter(s, pre, c, d) {
      hide Run, Reachable, Inv, Possible;
      SeenIsEverywhere(s, pre, c, d, q);
    } else {
      hide Run, Reachable, Inv;
      assert m == Issue(m.r, c);
      IssuedOnlyWhenSafe(s, pre, m.r, c, d, q);
    }
    hide Run, Reachable, Inv, Possible, Make;
    ListsGrow(s, g, m, q, d);
  }

  /** For pairs whose first call is not new, who was issued after whom is settled. */
  lemma OldPair(s: System, ms: seq<Move>, r: nat, c: Call, d: Call)
    requires ms != [] && Run(s, ms).Some? && r < s.n
    requires Run(s, ms[..|ms| - 1]).Some? && r < |Run(s, ms[..|ms| - 1]).value.nodes|
    requires c in Run(s, ms[..|ms| - 1]).value.nodes[r].list
    ensures IssuedAfter(s, ms, c, d) <==> IssuedAfter(s, ms[..|ms| - 1], c, d)
  {
    var g, m := LastMove(s, ms);
    NotIssuedAgain(s, g, m, r, c, d);
    hide Run, Inv, Possible, Make;
  }

  /** The move m takes replica r from list x to list y, and c and d are there. */
  lemma PairAfter(s: System, ms: seq<Move>, r: nat, c: Call, d: Call)
    requires ms != [] && Run(s, ms).Some? && r < s.n && Reachable(s.useCase, c, d)
    requires Run(s, ms[..|ms| - 1]).Some? && InIssueOrder(s, ms[..|ms| - 1], r)
    requires !ms[|ms| - 1].Lose? && ms[|ms| - 1].r == r
    requires r < |Run(s, ms).value.nodes| && c in Run(s, ms).value.nodes[r].list && d in Run(s, ms).value.nodes[r].list
    ensures var x := Run(s, ms[..|ms| - 1]).value.nodes[r];
            PairInOrder(s, ms, Run(s, ms).value.nodes[r].list, c, d) <==>
              (c in Arrival(x, EventOf(ms[|ms| - 1])) ==> PairInTime(s, ms, x, c, d))
    ensures c in Arrival(Run(s, ms[..|ms| - 1]).value.nodes[r], EventOf(ms[|ms| - 1])) ==>
              d in Run(s, ms[..|ms| - 1]).value.nodes[r].list
  {
    var g, m := LastMove(s, ms);
    var x, e := g.nodes[r], EventOf(m);
    MoveFrame(s, g, m);
    ListsAreDistinct(s, g, r);
    AckEvent(s, g, m);
    EventMembers(Cfg(s, r), x, e, c);
    EventMembers(Cfg(s, r), x, e, d);
    OneArrivalAll(x, e);
    assert c != d by { Bipartite(s.useCase, c, d, d); }
    assert Plain(Cfg(s, r), x, e);
    hide Run, Inv, Possible, Make, Apply, Reachable, Before, Enabled, Holds, Accepted, Distinct, Plain;
    if c in Arrival(x, e) {
      assert d !in Arrival(x, e);
      ArrivalIsNew(s, g, m, c);
      OnlyArrival(x, e, c);
      NewcomerOrder(Cfg(s, r), x, e, c, d);
    } else {
      OldPair(s, ms, r, c, d);
      if d in Arrival(x, e) {
        ArrivalIsNew(s, g, m, d);
        OnlyArrival(x, e, d);
        FollowerOrder(Cfg(s, r), x, e, c, d);
        NotIssuedBefore(s, ms[..|ms| - 1], c, d, r);
      } else {
        OthersOrder(Cfg(s, r), x, e, d, c);
        assert PairInOrder(s, ms[..|ms| - 1], x.list, c, d);
      }
    }
  }

  lemma OnlyArrival(x: Node, e: Event, c: Call)
    requires c in Arrival(x, e)
    ensures Arrival(x, e) == [c]
  {
  }

  lemma NotIssuedBefore(s: System, ms: seq<Move>, c: Call, d: Call, r: nat)
    requires Run(s, ms).Some? && Reachable(s.useCase, c, d) && r < s.n && r < |Run(s, ms).value.nodes|
    requires d !in Run(s, ms).value.nodes[r].list
    ensures !IssuedAfter(s, ms, c, d)
  {
    if IssuedAfter(s, ms, c, d) {
      SeenIsEverywhere(s, ms, c, d, r);
    }
  }

  /** A move of another replica, or a loss, leaves the list of r. */
  lemma ElsewhereKeepsOrder(s: System, ms: seq<Move>, r: nat)
    requires ms != [] && Run(s, ms).Some? && r < s.n && (ms[|ms| - 1].Lose? || ms[|ms| - 1].r != r)
    requires Run(s, ms[..|ms| - 1]).Some? && InIssueOrder(s, ms[..|ms| - 1], r)
    ensures InIssueOrder(s, ms, r)
  {
    var g, m := LastMove(s, ms);
    MoveFrame(s, g, m);
    var list := g.nodes[r].list;
    assert r < |Run(s, ms).value.nodes| && Run(s, ms).value.nodes[r].list == list;
    hide Run, Inv, Possible, Make;
    forall c: Call, d: Call | c in list && d in list && Reachable(s.useCase, c, d) ensures PairInOrder(s, ms, list, c, d) {
      OldPair(s, ms, r, c, d);
      assert PairInOrder(s, ms[..|ms| - 1], list, c, d);
    }
  }

  lemma TimelyKeepsOrder(s: System, ms: seq<Move>, r: nat)
    requires ms != [] && Run(s, ms).Some? && r < s.n && !ms[|ms| - 1].Lose? && ms[|ms| - 1].r == r
    requires Run(s, ms[..|ms| - 1]).Some? && InIssueOrder(s, ms[..|ms| - 1], r) && Timely(s, ms, r)
    ensures InIssueOrder(s, ms, r)
  {
    var g, m := LastMove(s, ms);
    MoveFrame(s, g, m);
    var x, y := g.nodes[r], Run(s, ms).value.nodes[r];
    forall c: Call, d: Call | c in y.list && d in y.list && Reachable(s.useCase, c, d) ensures PairInOrder(s, ms, y.list, c, d) {
      hide Run, Inv, Possible, Make, Reachable, InIssueOrder, PairInOrder, PairInTime;
      PairAfter(s, ms, r, c, d);
      assert c in Arrival(x, EventOf(m)) ==> PairInTime(s, ms, x, c, d);
    }
    hide Inv, Possible, Make, Reachable, Timely;
  }

  lemma OrderNeedsTime(s: System, ms: seq<Move>, r: nat)
    requires ms != [] && Run(s, ms).Some? && r < s.n && !ms[|ms| - 1].Lose? && ms[|ms| - 1].r == r
    requires Run(s, ms[..|ms| - 1]).Some? && InIssueOrder(s, ms[..|ms| - 1], r) && InIssueOrder(s, ms, r)
    ensures Timely(s, ms, r)
  {
    var g, m := LastMove(s, ms);
    MoveFrame(s, g, m);
    AckEvent(s, g, m);
    var x, y, e := g.nodes[r], Run(s, ms).value.nodes[r], EventOf(m);
    assert InIssueOrder(s, ms, r) ==>
        forall c: Call, d: Call :: c in y.list && d in y.list && Reachable(s.useCase, c, d) ==> PairInOrder(s, ms, y.list, c, d);
    forall c: Call, d: Call | c in Arrival(x, e) && d in x.list && Reachable(s.useCase, c, d) ensures PairInTime(s, ms, x, c, d) {
      EventMembers(Cfg(s, r), x, e, c);
      EventMembers(Cfg(s, r), x, e, d);
      hide Run, Inv, Possible, Make, Reachable, InIssueOrder, PairInOrder, PairInTime, Apply, Enabled, Holds, Accepted, Arrival;
      PairAfter(s, ms, r, c, d);
    }
    hide Inv, Possible, Make, Reachable;
  }

  /** A move keeps a replica's calls in the order of issue exactly if it is timely. */
  lemma StepInOrder(s: System, ms: seq<Move>, r: nat)
    requires ms != [] && Run(s, ms).Some? && r < s.n
    requires Run(s, ms[..|ms| - 1]).Some? && InIssueOrder(s, ms[..|ms| - 1], r)
    ensures InIssueOrder(s, ms, r) <==> Timely(s, ms, r)
  {
    hide Run, InIssueOrder;
    if ms[|ms| - 1].Lose? || ms[|ms| - 1].r != r {
      ElsewhereKeepsOrder(s, ms, r);
    } else {
      hide Timely;
      if Timely(s, ms, r) {
        TimelyKeepsOrder(s, ms, r);
      }
      if InIssueOrder(s, ms, r) {
        OrderNeedsTime(s, ms, r);
      }
    }
  }

  ghost predicate AlwaysTimely(s: System, ms: seq<Move>, r: nat)
    requires Run(s, ms).Some?
    decreases |ms|
  {
    Timely(s, ms, r) && (ms != [] ==> AlwaysTimely(s, ms[..|ms| - 1], r))
  }

  ghost predicate AlwaysInOrder(s: System, ms: seq<Move>, r: nat)
    requires Run(s, ms).Some?
    decreases |ms|
  {
    InIssueOrder(s, ms, r) && (ms != [] ==> AlwaysInOrder(s, ms[..|ms| - 1], r))
  }

  /** Throughout a run a replica has related calls in the order of issue, if and only if every call comes to it in time. */
  lemma {:induction false} InOrderIffTimely(s: System, ms: seq<Move>, r: nat)
    requires Run(s, ms).Some? && r < s.n
    ensures AlwaysInOrder(s, ms, r) <==> AlwaysTimely(s, ms, r)
    decreases |ms|
  {
    if ms == [] {
      hide Reachable;
    } else {
      var pre := ms[..|ms| - 1];
      assert Run(s, pre).Some?;
      hide Run, InIssueOrder, Timely;
      InOrderIffTimely(s, pre, r);
      if AlwaysInOrder(s, pre, r) {
        assert InIssueOrder(s, pre, r);
        StepInOrder(s, ms, r);
      }
    }
  }

  // ---------------------------------------------------------------- agreement

  lemma InListByOrder(cs: seq<Call>, c: Call, d: Call)
    ensures Before(cs, c, d) ==> c in cs && d in cs
  {
  }

  /** Two replicas that have related calls in the order of issue have them in the same order. */
  lemma IssueOrderIsOne(s: System, ms: seq<Move>, q: nat, r: nat)
    requires Run(s, ms).Some? && q < s.n && r < s.n && InIssueOrder(s, ms, q) && InIssueOrder(s, ms, r)
    ensures Alike(s.useCase, Run(s, ms).value.nodes[q].list, Run(s, ms).value.nodes[r].list)
  {
    RunKeepsInv(s, ms);
    ListsAreDistinct(s, Run(s, ms).value, q);
    ListsAreDistinct(s, Run(s, ms).value, r);
    var a, b := Run(s, ms).value.nodes[q].list, Run(s, ms).value.nodes[r].list;
    forall c: Call, d: Call | Before(a, c, d) && Before(b, d, c) ensures !Related(s.useCase, c, d) {
      InListByOrder(a, c, d);
      InListByOrder(b, d, c);
      if Related(s.useCase, c, d) {
        assert if Reachable(s.useCase, c, d) then PairInOrder(s, ms, a, c, d) && PairInOrder(s, ms, b, c, d)
               else PairInOrder(s, ms, a, d, c) && PairInOrder(s, ms, b, d, c);
        Bipartite(s.useCase, if Reachable(s.useCase, c, d) then c else d, if Reachable(s.useCase, c, d) then d else c, c);
        hide Run, Inv, InIssueOrder, Reachable, Before, Distinct, Alike;
        OneOrder(a, c, d);
        OneOrder(b, c, d);
      }
    }
    hide Run, Inv, InIssueOrder;
  }

  /** If all calls came to them in time, replicas that have executed the same calls are in the same state. */
  lemma SameCallsSameState(s: System, ms: seq<Move>, q: nat, r: nat)
    requires Run(s, ms).Some? && q < s.n && r < s.n && AlwaysTimely(s, ms, q) && AlwaysTimely(s, ms, r)
    requires |Run(s, ms).value.nodes| == s.n
    requires forall c: Call :: c in Run(s, ms).value.nodes[q].list <==> c in Run(s, ms).value.nodes[r].list
    ensures Replay(Start(s.useCase), Run(s, ms).value.nodes[q].list) == Replay(Start(s.useCase), Run(s, ms).value.nodes[r].list)
  {
    InOrderIffTimely(s, ms, q);
    InOrderIffTimely(s, ms, r);
    var a, b := Run(s, ms).value.nodes[q].list, Run(s, ms).value.nodes[r].list;
    assert InIssueOrder(s, ms, q) && InIssueOrder(s, ms, r);
    hide InIssueOrder, Timely, AlwaysTimely, AlwaysInOrder;
    IssueOrderIsOne(s, ms, q, r);
    forall c: Call ensures multiset(a)[c] <= 1 && multiset(b)[c] <= 1 {
      hide Run;
      ExecutedAtMostOnce(s, ms, q, c);
      ExecutedAtMostOnce(s, ms, r, c);
    }
    hide Run, Replay, Alike;
    OnceEach(a, b);
    AlikeReplayEqually(s.useCase, Start(s.useCase), a, b);
  }

  lemma AllStable(s: System, ms: seq<Move>, r: nat)
    requires Run(s, ms).Some? && NothingLost(ms) && Quiet(s, Run(s, ms).value) && r < s.n
    requires !Enabled(Cfg(s, r), Run(s, ms).value.nodes[r], Stabilized)
    ensures Run(s, ms).value.nodes[r].stable == Replay(Start(s.useCase), Run(s, ms).value.nodes[r].list)
  {
    var x := Run(s, ms).value.nodes[r];
    RunKeepsInv(s, ms);
    assert Ledger(Cfg(s, r), x);
    hide Run, Inv, Replay, Ordered, Acknowledged, Known, Enabled;
    EverythingBecomesStable(s, ms, r);
    assert x.list[..x.stableIndex] == x.list;
  }

  /** Without losses, once all is quiet and nothing is left to stabilize, replicas to which all calls came in time have the same stable state. */
  lemma QuietReplicasConverge(s: System, ms: seq<Move>, q: nat, r: nat)
    requires Run(s, ms).Some? && NothingLost(ms) && Quiet(s, Run(s, ms).value) && q < s.n && r < s.n
    requires !Enabled(Cfg(s, q), Run(s, ms).value.nodes[q], Stabilized) && !Enabled(Cfg(s, r), Run(s, ms).value.nodes[r], Stabilized)
    requires AlwaysTimely(s, ms, q) && AlwaysTimely(s, ms, r)
    ensures Run(s, ms).value.nodes[q].stable == Run(s, ms).value.nodes[r].stable
  {
    AllStable(s, ms, q);
    AllStable(s, ms, r);
    var a, b := Run(s, ms).value.nodes[q].list, Run(s, ms).value.nodes[r].list;
    hide Enabled, AlwaysTimely, Replay;
    forall c: Call ensures c in a <==> c in b {
      if c in a {
        QuietCall(s, ms, q, r, c);
      }
      if c in b {
        QuietCall(s, ms, r, q, c);
      }
    }
    SameCallsSameState(s, ms, q, r);
  }

  /**
   What waiting is for: no call comes too early whose replica had executed, when it issued the call,
   everything that the other one counts.
   */
  lemma NeverTooEarly(s: System, before: Global, p: nat, c: Call, g: Global, m: Move, d: Call)
    requires Possible(s, before, Issue(p, c)) && p < |before.nodes[p].clock| == |d.clock|
    requires forall j :: 0 <= j < |d.clock| ==> d.clock[j] <= before.nodes[p].clock[j]
    requires Possible(s, g, m) && !m.Lose? && !EventOf(m).Issued? && c in Arrival(g.nodes[m.r], EventOf(m))
    requires d in g.nodes[m.r].list && Reachable(s.useCase, c, d)
    ensures g.nodes[m.r].stableIndex <= |g.nodes[m.r].list| && d in g.nodes[m.r].list[..g.nodes[m.r].stableIndex]
  {
    TickedIsAfter(before.nodes[p].clock, p, d.clock);
    var x := g.nodes[m.r];
    assert !Blocked(Cfg(s, m.r), x, c);
    hide Possible, Arrival, Enabled, Reachable, Compare;
    var i :| 0 <= i < |x.list| && x.list[i] == d;
    assert x.list[..x.stableIndex][i] == d;
  }
}
