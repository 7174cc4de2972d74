/** The topological sort that orders the calls of ECRO: Kahn's algorithm with a stack as work list. */
module EcroTopoSort {
  /** Calls are numbered; an edge may occur more than once. */
  datatype Edge = Edge(from: nat, to: nat)

  ghost predicate Within(calls: set<nat>, edges: seq<Edge>) {
    forall i :: 0 <= i < |edges| ==> edges[i].from in calls && edges[i].to in calls
  }

  ghost predicate NoRepeats(s: seq<nat>) {
    forall i, j :: 0 <= i < j < |s| ==> s[i] != s[j]
  }

  /** Every emitted call comes after all its predecessors. */
  ghost predicate Sorted(edges: seq<Edge>, order: seq<nat>) {
    forall e, i :: e in edges && 0 <= i < |order| && order[i] == e.to ==> e.from in order[..i]
  }

  ghost predicate Path(edges: seq<Edge>, p: seq<nat>) {
    && p != []
    && forall i :: 0 <= i < |p| - 1 ==> Edge(p[i], p[i + 1]) in edges
  }

  ghost predicate Cycle(edges: seq<Edge>, p: seq<nat>) {
    Path(edges, p) && |p| >= 2 && p[0] == p[|p| - 1]
  }

  ghost predicate LeadsTo(edges: seq<Edge>, p: seq<nat>, u: nat) {
    Path(edges, p) && p[|p| - 1] == u
  }

  /** u can be reached from a call that lies on a cycle. */
  ghost predicate BehindCycle(edges: seq<Edge>, u: nat) {
    exists c, p :: Cycle(edges, c) && LeadsTo(edges, p, u) && p[0] == c[0]
  }

  ghost predicate Acyclic(edges: seq<Edge>) {
    forall c :: !Cycle(edges, c)
  }

  // ---------------------------------------------------------------- counting edges

  /** The edges into v from calls that are not done. */
  function Degree(edges: seq<Edge>, done: set<nat>, v: nat): nat {
    if edges == [] then 0
    else Degree(edges[..|edges| - 1], done, v) + var e := edges[|edges| - 1]; if e.to == v && e.from !in done then 1 else 0
  }

  lemma {:induction false} DegreeConcat(a: seq<Edge>, b: seq<Edge>, done: set<nat>, v: nat)
    ensures Degree(a + b, done, v) == Degree(a, done, v) + Degree(b, done, v)
    decreases |b|
  {
    if b == [] {
      assert a + b == a;
    } else {
      assert (a + b)[..|a + b| - 1] == a + b[..|b| - 1];
      DegreeConcat(a, b[..|b| - 1], done, v);
    }
  }

  lemma {:induction false} DegreeZero(edges: seq<Edge>, done: set<nat>, v: nat)
    ensures Degree(edges, done, v) == 0 <==> forall e :: e in edges && e.to == v ==> e.from in done
    decreases |edges|
  {
    if edges != [] {
      DegreeZero(edges[..|edges| - 1], done, v);
      assert edges == edges[..|edges| - 1] + [edges[|edges| - 1]];
    }
  }

  /** What indeg[v] holds while the edges of u are walked through: k of them are done. */
  function Remaining(edges: seq<Edge>, done: set<nat>, u: nat, k: nat, v: nat): nat
    requires k <= |edges|
  {
    Degree(edges[..k], done + {u}, v) + Degree(edges[k..], done, v)
  }

  lemma RemainingStarts(edges: seq<Edge>, done: set<nat>, u: nat, v: nat)
    ensures Remaining(edges, done, u, 0, v) == Degree(edges, done, v)
  {
    assert edges[..0] == [] && edges[0..] == edges;
  }

  lemma RemainingEnds(edges: seq<Edge>, done: set<nat>, u: nat, v: nat)
    ensures Remaining(edges, done, u, |edges|, v) == Degree(edges, done + {u}, v)
  {
    assert edges[..|edges|] == edges && edges[|edges|..] == [];
  }

  lemma RemainingStep(edges: seq<Edge>, done: set<nat>, u: nat, k: nat, v: nat)
    requires k < |edges| && u !in done
    ensures Remaining(edges, done, u, k, v) == Remaining(edges, done, u, k + 1, v)
              + if edges[k].from == u && edges[k].to == v then 1 else 0
  {
    var e := edges[k];
    assert edges[..k + 1] == edges[..k] + [e];
    assert edges[k..] == [e] + edges[k + 1..];
    DegreeConcat([e], edges[k + 1..], done, v);
    DegreeConcat(edges[..k], [e], done + {u}, v);
    assert [e][..0] == [];
  }

  // ---------------------------------------------------------------- the sort

  ghost function Elements(s: seq<nat>): set<nat> {
    set x | x in s
  }

  /** The work list and the emitted calls are the calls without remaining predecessors. */
  ghost predicate Ready(calls: set<nat>, indeg: map<nat, int>, q: seq<nat>, order: seq<nat>) {
    && NoRepeats(q + order)
    && forall v :: v in q + order <==> v in calls && v in indeg && indeg[v] == 0
  }

  ghost predicate Counts(calls: set<nat>, edges: seq<Edge>, indeg: map<nat, int>, done: set<nat>) {
    indeg.Keys == calls && forall v :: v in calls ==> indeg[v] == Degree(edges, done, v)
  }

  /** indeg while the edges of u are walked through. */
  ghost predicate CountsAt(calls: set<nat>, edges: seq<Edge>, indeg: map<nat, int>, done: set<nat>, u: nat, k: nat)
    requires k <= |edges|
  {
    indeg.Keys == calls && forall v :: v in calls ==> indeg[v] == Remaining(edges, done, u, k, v)
  }

  lemma DegreeNext(edges: seq<Edge>, i: nat)
    requires i < |edges|
    ensures forall v :: Degree(edges[..i + 1], {}, v) == Degree(edges[..i], {}, v) + if edges[i].to == v then 1 else 0
  {
    assert edges[..i + 1][..i] == edges[..i];
  }

  class Handler {
    var calls: set<nat>
    var edges: seq<Edge>
    var topoOrder: seq<nat>

    method CountIncoming() returns (indeg: map<nat, int>)
      requires Within(calls, edges)
      ensures Counts(calls, edges, indeg, {})
    {
      indeg := map[];
      var todo := calls;
      while todo != {}
        invariant todo <= calls && indeg.Keys == calls - todo
        invariant forall v :: v in indeg ==> indeg[v] == 0
        decreases |todo|
      {
        var u :| u in todo;
        todo := todo - {u};
        indeg := indeg[u := 0];
      }
      for i := 0 to |edges|
        invariant indeg.Keys == calls
        invariant forall v :: v in calls ==> indeg[v] == Degree(edges[..i], {}, v)
      {
        DegreeNext(edges, i);
        indeg := indeg[edges[i].to := indeg[edges[i].to] + 1];
      }
      assert edges[..|edges|] == edges;
    }

    method CollectFree(indeg: map<nat, int>) returns (q: seq<nat>)
      requires indeg.Keys == calls
      ensures Ready(calls, indeg, q, [])
    {
      q := [];
      var todo := indeg.Keys;
      while todo != {}
        invariant todo <= indeg.Keys && NoRepeats(q)
        invariant forall v :: v in q <==> v in indeg && v !in todo && indeg[v] == 0
        decreases |todo|
      {
        var v :| v in todo;
        todo := todo - {v};
        if indeg[v] == 0 {
          q := q + [v];
        }
      }
      assert q + [] == q;
    }

    /** The inner loop: the edges of u are removed, and calls without predecessors are pushed. */
    method Release(indeg0: map<nat, int>, q0: seq<nat>, u: nat, ghost done: set<nat>) returns (indeg: map<nat, int>, q: seq<nat>)
      requires Within(calls, edges) && Counts(calls, edges, indeg0, done) && u !in done
      requires Ready(calls, indeg0, q0, topoOrder)
      ensures Counts(calls, edges, indeg, done + {u}) && Ready(calls, indeg, q, topoOrder)
    {
      indeg, q := indeg0, q0;
      hide Ready, Remaining, Degree;
      forall v | v in calls ensures indeg[v] == Remaining(edges, done, u, 0, v) {
        RemainingStarts(edges, done, u, v);
      }
      for k := 0 to |edges|
        invariant CountsAt(calls, edges, indeg, done, u, k) && Ready(calls, indeg, q, topoOrder)
      {
        var e := edges[k];
        CountStep(calls, edges, indeg, done, u, k);
        if e.from == u {
          ghost var before, queue := indeg, q;
          indeg := indeg[e.to := indeg[e.to] - 1];
          if indeg[e.to] == 0 {
            q := q + [e.to];
            Pushed(calls, before, queue, topoOrder, e.to);
          } else {
            NotPushed(calls, before, queue, topoOrder, e.to);
          }
        }
      }
      forall v | v in calls ensures indeg[v] == Degree(edges, done + {u}, v) {
        RemainingEnds(edges, done, u, v);
      }
    }

    method FullTopoSort()
      requires Within(calls, edges)
      modifies this`topoOrder
      ensures NoRepeats(topoOrder) && Elements(topoOrder) <= calls && Sorted(edges, topoOrder)
      ensures forall u :: u in calls ==> (u in topoOrder <==> !BehindCycle(edges, u))
      ensures Acyclic(edges) ==> Elements(topoOrder) == calls
    {
      hide Degree, BehindCycle;
      topoOrder := [];
      var indeg := CountIncoming();
      var q := CollectFree(indeg);
      assert Elements(topoOrder) == {};
      while q != []
        invariant Counts(calls, edges, indeg, Elements(topoOrder)) && Ready(calls, indeg, q, topoOrder)
        invariant Sorted(edges, topoOrder)
        decreases calls - Elements(topoOrder)
      {
        var u := q[|q| - 1];
        assert q == q[..|q| - 1] + [u];
        q := q[..|q| - 1];
        ghost var done, order := Elements(topoOrder), topoOrder;
        Emit(calls, edges, indeg, q, u, topoOrder);
        topoOrder := topoOrder + [u];
        assert Elements(topoOrder) == done + {u};
        indeg, q := Release(indeg, q, u, done);
      }
      assert [] + topoOrder == topoOrder;
      Finished(calls, edges, indeg, topoOrder);
    }
  }

  /** Walking past one edge. */
  lemma CountStep(calls: set<nat>, edges: seq<Edge>, indeg: map<nat, int>, done: set<nat>, u: nat, k: nat)
    requires Within(calls, edges) && k < |edges| && CountsAt(calls, edges, indeg, done, u, k) && u !in done
    ensures var e := edges[k];
            && e.to in indeg
            && if e.from == u then indeg[e.to] >= 1 && CountsAt(calls, edges, indeg[e.to := indeg[e.to] - 1], done, u, k + 1)
               else CountsAt(calls, edges, indeg, done, u, k + 1)
  {
    hide Remaining;
    forall v: nat
      ensures Remaining(edges, done, u, k, v)
           == Remaining(edges, done, u, k + 1, v) + if edges[k].from == u && edges[k].to == v then 1 else 0
    {
      RemainingStep(edges, done, u, k, v);
    }
  }

  lemma Pushed(calls: set<nat>, indeg: map<nat, int>, q: seq<nat>, order: seq<nat>, v: nat)
    requires Ready(calls, indeg, q, order) && v in calls && v in indeg && indeg[v] == 1
    ensures Ready(calls, indeg[v := 0], q + [v], order)
  {
    assert v !in q + order;
    assert forall x :: x in q + [v] + order <==> x == v || x in q + order;
    forall i, j | 0 <= i < j < |q + [v] + order| ensures (q + [v] + order)[i] != (q + [v] + order)[j] {
      var a, b := q + order, q + [v] + order;
      assert i < |q| ==> b[i] == a[i];
      assert i > |q| ==> b[i] == a[i - 1];
      assert j < |q| ==> b[j] == a[j];
      assert j > |q| ==> b[j] == a[j - 1];
    }
  }

  lemma NotPushed(calls: set<nat>, indeg: map<nat, int>, q: seq<nat>, order: seq<nat>, v: nat)
    requires Ready(calls, indeg, q, order) && v in calls && v in indeg && indeg[v] > 1
    ensures Ready(calls, indeg[v := indeg[v] - 1], q, order)
  {
    assert v !in q + order;
  }

  /** The call on top of the work list can be emitted. */
  lemma Emit(calls: set<nat>, edges: seq<Edge>, indeg: map<nat, int>, q: seq<nat>, u: nat, order: seq<nat>)
    requires Counts(calls, edges, indeg, Elements(order)) && Ready(calls, indeg, q + [u], order) && Sorted(edges, order)
    ensures u in calls && u !in order && Ready(calls, indeg, q, order + [u]) && Sorted(edges, order + [u])
  {
    var a, b := q + [u] + order, q + (order + [u]);
    assert a[|q|] == u && u in a;
    assert forall i :: 0 <= i < |order| ==> a[|q| + 1 + i] == order[i];
    assert forall i :: 0 <= i < |q| ==> a[i] == q[i];
    assert u !in order && u !in q;
    assert forall v :: v in a <==> v in b;
    assert NoRepeats(b) by {
      forall i, j | 0 <= i < j < |b| ensures b[i] != b[j] {
        assert b[i] == if i < |q| then a[i] else if i < |b| - 1 then a[i + 1] else u;
        assert b[j] == if j < |q| then a[j] else if j < |b| - 1 then a[j + 1] else u;
      }
    }
    DegreeZero(edges, Elements(order), u);
    var next := order + [u];
    forall e, i | e in edges && 0 <= i < |next| && next[i] == e.to ensures e.from in next[..i] {
      if i < |order| {
        assert next[..i] == order[..i];
      } else {
        assert next[..i] == order;
      }
    }
  }

  // ---------------------------------------------------------------- what is emitted

  /** Along a path to an emitted call, everything is emitted, ever earlier. */
  lemma {:induction false} PathIsEmitted(edges: seq<Edge>, order: seq<nat>, p: seq<nat>, i: nat)
    requires Sorted(edges, order) && NoRepeats(order) && Path(edges, p) && i < |order| && order[i] == p[|p| - 1]
    ensures exists j :: 0 <= j <= i && order[j] == p[0] && (|p| >= 2 ==> j < i)
    decreases |p|
  {
    if |p| >= 2 {
      var e := Edge(p[|p| - 2], p[|p| - 1]);
      assert e in edges;
      var k :| 0 <= k < i && order[..i][k] == e.from;
      var shorter := p[..|p| - 1];
      assert Path(edges, shorter);
      PathIsEmitted(edges, order, shorter, k);
      var j :| 0 <= j <= k && order[j] == shorter[0];
      assert order[j] == p[0];
    }
  }

  lemma EmittedIsNotBehindCycle(edges: seq<Edge>, order: seq<nat>, u: nat)
    requires Sorted(edges, order) && NoRepeats(order) && u in order
    ensures !BehindCycle(edges, u)
  {
    if BehindCycle(edges, u) {
      var c, p :| Cycle(edges, c) && LeadsTo(edges, p, u) && p[0] == c[0];
      var i :| 0 <= i < |order| && order[i] == u;
      PathIsEmitted(edges, order, p, i);
      var j :| 0 <= j <= i && order[j] == p[0];
      PathIsEmitted(edges, order, c, j);
      assert false;
    }
  }

  /** Every omitted call has an omitted predecessor. */
  ghost predicate Enters(edges: seq<Edge>, omitted: set<nat>, v: nat, e: Edge) {
    e in edges && e.to == v && e.from in omitted
  }

  ghost predicate Stuck(edges: seq<Edge>, omitted: set<nat>) {
    forall v :: v in omitted ==> exists e :: Enters(edges, omitted, v, e)
  }

  lemma Prepend(edges: seq<Edge>, e: Edge, p: seq<nat>)
    requires Path(edges, p) && e in edges && e.to == p[0]
    ensures Path(edges, [e.from] + p)
  {
    var q := [e.from] + p;
    forall i | 0 <= i < |q| - 1 ensures Edge(q[i], q[i + 1]) in edges {
      if i == 0 {
        assert e == Edge(q[0], q[1]);
      } else {
        assert q[i] == p[i - 1] && q[i + 1] == p[i];
      }
    }
  }

  lemma Part(edges: seq<Edge>, p: seq<nat>, i: nat, j: nat)
    requires Path(edges, p) && i < j <= |p|
    ensures Path(edges, p[i..j])
  {
    var q := p[i..j];
    forall k | 0 <= k < |q| - 1 ensures Edge(q[k], q[k + 1]) in edges {
      assert q[k] == p[i + k] && q[k + 1] == p[i + k + 1];
    }
  }

  /** Walking back from an omitted call, one always finds another. */
  lemma {:induction false} WalkBack(edges: seq<Edge>, omitted: set<nat>, u: nat, n: nat) returns (p: seq<nat>)
    requires u in omitted && Stuck(edges, omitted)
    ensures LeadsTo(edges, p, u) && |p| == n + 1 && forall i :: 0 <= i < |p| ==> p[i] in omitted
  {
    if n == 0 {
      p := [u];
    } else {
      hide Path;
      var shorter := WalkBack(edges, omitted, u, n - 1);
      var v := shorter[0];
      var e :| Enters(edges, omitted, v, e);
      hide Stuck, LeadsTo;
      Prepend(edges, e, shorter);
      p := [e.from] + shorter;
    }
  }

  /** A list that is longer than the set of its elements repeats one. */
  lemma {:induction false} Pigeonhole(s: set<nat>, p: seq<nat>)
    requires |p| > |s| && forall i :: 0 <= i < |p| ==> p[i] in s
    ensures exists i, j :: 0 <= i < j < |p| && p[i] == p[j]
    decreases |p|
  {
    var x := p[0];
    var rest := p[1..];
    if x in rest {
      var j :| 0 <= j < |rest| && rest[j] == x;
      assert p[0] == p[j + 1];
    } else {
      forall i | 0 <= i < |rest| ensures rest[i] in s - {x} {
        assert rest[i] == p[i + 1] && rest[i] in rest;
      }
      assert x in s && |s - {x}| == |s| - 1;
      Pigeonhole(s - {x}, rest);
      var i, j :| 0 <= i < j < |rest| && rest[i] == rest[j];
      assert p[i + 1] == p[j + 1];
    }
  }

  lemma OmittedIsBehindCycle(edges: seq<Edge>, omitted: set<nat>, u: nat)
    requires u in omitted && Stuck(edges, omitted)
    ensures BehindCycle(edges, u)
  {
    hide Stuck, Path, Cycle, BehindCycle;
    var p := WalkBack(edges, omitted, u, |omitted|);
    assert LeadsTo(edges, p, u);
    hide LeadsTo;
    Pigeonhole(omitted, p);
    var i, j :| 0 <= i < j < |p| && p[i] == p[j];
    Repeats(edges, p, i, j, u);
  }

  lemma Repeats(edges: seq<Edge>, p: seq<nat>, i: nat, j: nat, u: nat)
    requires LeadsTo(edges, p, u) && i < j < |p| && p[i] == p[j]
    ensures BehindCycle(edges, u)
  {
    hide Path;
    Part(edges, p, i, j + 1);
    Part(edges, p, i, |p|);
    var c, q := p[i..j + 1], p[i..|p|];
    assert |c| == j + 1 - i && c[0] == p[i] && c[|c| - 1] == p[j];
    assert |q| == |p| - i && q[0] == p[i] && q[|q| - 1] == p[|p| - 1];
    assert Cycle(edges, c) && LeadsTo(edges, q, u);
  }

  /** With an empty work list exactly the calls behind cycles are missing. */
  lemma Finished(calls: set<nat>, edges: seq<Edge>, indeg: map<nat, int>, order: seq<nat>)
    requires Within(calls, edges) && Counts(calls, edges, indeg, Elements(order)) && Ready(calls, indeg, [], order)
    requires Sorted(edges, order)
    ensures NoRepeats(order) && Elements(order) <= calls
    ensures forall u :: u in calls ==> (u in order <==> !BehindCycle(edges, u))
    ensures Acyclic(edges) ==> Elements(order) == calls
  {
    assert [] + order == order;
    var omitted := calls - Elements(order);
    assert Stuck(edges, omitted) by {
      forall v | v in omitted ensures exists e :: Enters(edges, omitted, v, e) {
        assert v !in order && indeg[v] != 0;
        DegreeZero(edges, Elements(order), v);
        var e :| e in edges && e.to == v && e.from !in Elements(order);
        assert Enters(edges, omitted, v, e);
      }
    }
    forall u | u in calls ensures u in order <==> !BehindCycle(edges, u) {
      if u in order {
        EmittedIsNotBehindCycle(edges, order, u);
      } else {
        OmittedIsBehindCycle(edges, omitted, u);
      }
    }
    if Acyclic(edges) {
      forall u | u in calls ensures u in order {
        assert !BehindCycle(edges, u);
      }
    }
  }
}
