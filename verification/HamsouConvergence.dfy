/** Replicas that agree on the stable prefix and on which calls are unstable agree on the state. */
module HamsouConvergence {
  import opened Options
  import opened HamsouCalls
  import opened HamsouNode
  import opened HamsouLedger
  import opened HamsouGlobal

  /** Calls that the relation leaves unordered commute; only those. */
  lemma UnorderedCommute(u: UseCase, s: AppState, a: Call, b: Call)
    requires Fits(u, s) && !Reachable(u, a, b) && !Reachable(u, b, a)
    ensures Update(Update(s, a), b) == Update(Update(s, b), a)
  {
    match s
    case SetState(_) => SetsCommute(s, a, b);
    case MovieState(_, _) => MoviesCommute(s, a, b);
    case ProjectState(_, _, _) => ProjectsCommute(s, a, b);
    case CoursewareState(_, _, _) => CoursesCommute(s, a, b);
  }

  lemma SetsCommute(s: AppState, a: Call, b: Call)
    requires s.SetState? && !Reachable(SetCase, a, b) && !Reachable(SetCase, b, a)
    ensures Update(Update(s, a), b) == Update(Update(s, b), a)
  {
  }

  lemma MoviesCommute(s: AppState, a: Call, b: Call)
    requires s.MovieState? && !Reachable(MovieCase, a, b) && !Reachable(MovieCase, b, a)
    ensures Update(Update(s, a), b) == Update(Update(s, b), a)
  {
  }

  lemma ProjectsCommute(s: AppState, a: Call, b: Call)
    requires s.ProjectState? && !Reachable(ProjectCase, a, b) && !Reachable(ProjectCase, b, a)
    ensures Update(Update(s, a), b) == Update(Update(s, b), a)
  {
  }

  lemma CoursesCommute(s: AppState, a: Call, b: Call)
    requires s.CoursewareState? && !Reachable(CoursewareCase, a, b) && !Reachable(CoursewareCase, b, a)
    ensures Update(Update(s, a), b) == Update(Update(s, b), a)
  {
  }

  /** A call that is unordered with all before it can be moved to the front. */
  lemma {:induction false} MoveToFront(u: UseCase, s: AppState, a: seq<Call>, c: Call)
    requires Fits(u, s)
    requires forall i :: 0 <= i < |a| ==> !Reachable(u, a[i], c) && !Reachable(u, c, a[i])
    ensures Replay(s, a + [c]) == Replay(Update(s, c), a)
    decreases |a|
  {
    if a == [] {
      assert a + [c] == [c];
      assert [c][1..] == [];
    } else {
      assert (a + [c])[1..] == a[1..] + [c];
      MoveToFront(u, Update(s, a[0]), a[1..], c);
      UnorderedCommute(u, s, a[0], c);
    }
  }

  /** The first occurrence of c in b, taken out. */
  lemma FirstOf(b: seq<Call>, c: Call) returns (k: nat)
    requires c in b
    ensures k < |b| && b[k] == c && c !in b[..k]
    ensures multiset(b) == multiset(b[..k] + b[k + 1..]) + multiset{c}
  {
    k := 0;
    while b[k] != c
      invariant k < |b| && c !in b[..k] && c in b[k..]
      decreases |b| - k
    {
      k := k + 1;
    }
    assert b == b[..k] + [c] + b[k + 1..];
  }

  /** c stands before d. */
  ghost predicate Before(cs: seq<Call>, c: Call, d: Call) {
    exists i, j :: 0 <= i < j < |cs| && cs[i] == c && cs[j] == d
  }

  ghost predicate Related(u: UseCase, c: Call, d: Call) {
    Reachable(u, c, d) || Reachable(u, d, c)
  }

  /** No two related calls stand in opposite orders in a and b. */
  ghost predicate Alike(u: UseCase, a: seq<Call>, b: seq<Call>) {
    forall c: Call, d: Call :: Before(a, c, d) && Before(b, d, c) ==> !Related(u, c, d)
  }

  /** A call that is unordered with all before it can be taken to the front. */
  lemma TakeToFront(u: UseCase, s: AppState, b: seq<Call>, k: nat)
    requires Fits(u, s) && k < |b| && forall i :: 0 <= i < k ==> !Related(u, b[i], b[k])
    ensures Replay(s, b) == Replay(Update(s, b[k]), b[..k] + b[k + 1..])
  {
    var c := b[k];
    assert forall i :: 0 <= i < k ==> b[..k][i] == b[i];
    MoveToFront(u, s, b[..k], c);
    assert b == (b[..k] + [c]) + b[k + 1..];
    hide Reachable, Update, Fits;
    ReplayConcat(s, b[..k] + [c], b[k + 1..]);
    ReplayConcat(Update(s, c), b[..k], b[k + 1..]);
  }

  /** The calls before the first occurrence of a's head in b are unordered with it. */
  lemma HeadIsUnordered(u: UseCase, a: seq<Call>, b: seq<Call>, k: nat)
    requires a != [] && k < |b| && b[k] == a[0] && a[0] !in b[..k] && multiset(a) == multiset(b) && Alike(u, a, b)
    ensures forall i :: 0 <= i < k ==> !Related(u, b[i], b[k])
  {
    hide Reachable;
    forall i | 0 <= i < k ensures !Related(u, b[i], b[k]) {
      assert b[i] == b[..k][i] && b[i] in multiset(b);
      assert b[i] in a;
      var j :| 0 <= j < |a| && a[j] == b[i];
      assert Before(a, a[0], a[j]) && Before(b, b[i], b[k]);
    }
  }

  /** Whatever stands before another call without the call at k stood before it with that call. */
  lemma RemovedBefore(b: seq<Call>, k: nat, c: Call, d: Call)
    requires k < |b|
    ensures Before(b[..k] + b[k + 1..], c, d) ==> Before(b, c, d)
  {
    var rest := b[..k] + b[k + 1..];
    if i: nat, j: nat :| i < j < |rest| && rest[i] == c && rest[j] == d {
      assert b[if i < k then i else i + 1] == c && b[if j < k then j else j + 1] == d;
    }
  }

  lemma TailsAlike(u: UseCase, a: seq<Call>, b: seq<Call>, k: nat)
    requires a != [] && k < |b| && Alike(u, a, b)
    ensures Alike(u, a[1..], b[..k] + b[k + 1..])
  {
    assert a[1..] == a[..0] + a[1..];
    forall c: Call, d: Call | Before(a[1..], c, d) && Before(b[..k] + b[k + 1..], d, c) ensures !Related(u, c, d) {
      RemovedBefore(a, 0, c, d);
      RemovedBefore(b, k, d, c);
    }
  }

  /** Two orders of the same calls that agree on related calls lead to the same state. */
  lemma {:induction false} AlikeReplayEqually(u: UseCase, s: AppState, a: seq<Call>, b: seq<Call>)
    requires Fits(u, s) && multiset(a) == multiset(b) && Alike(u, a, b)
    ensures Replay(s, a) == Replay(s, b)
    decreases |a|
  {
    if a == [] {
      assert |multiset(b)| == 0;
    } else {
      var c := a[0];
      assert c in multiset(a);
      hide Related, Alike, Update, Fits, Replay;
      var k := FirstOf(b, c);
      HeadIsUnordered(u, a, b, k);
      TakeToFront(u, s, b, k);
      TailsAlike(u, a, b, k);
      assert a == [c] + a[1..];
      assert multiset(a[1..]) == multiset(a) - multiset{c};
      UpdateFits(u, s, c);
      AlikeReplayEqually(u, Update(s, c), a[1..], b[..k] + b[k + 1..]);
      ReplayHead(s, a);
    }
  }

  /** In particular two orders that both respect the relation. */
  lemma OrdersReplayEqually(u: UseCase, s: AppState, a: seq<Call>, b: seq<Call>)
    requires Fits(u, s) && multiset(a) == multiset(b) && Ordered(u, a, 0) && Ordered(u, b, 0)
    ensures Replay(s, a) == Replay(s, b)
  {
    forall c: Call, d: Call | Before(a, c, d) && Before(b, d, c) ensures !Related(u, c, d) {
      hide Reachable;
    }
    hide Ordered, Fits, Replay;
    AlikeReplayEqually(u, s, a, b);
  }

  lemma UpdateFits(u: UseCase, s: AppState, c: Call)
    requires Fits(u, s)
    ensures Fits(u, Update(s, c))
  {
  }

  lemma ReplayHead(s: AppState, a: seq<Call>)
    requires a != []
    ensures Replay(s, a) == Replay(Update(s, a[0]), a[1..])
  {
  }

  /**
   Two replicas of one object, each after any run of its own, failures included: with equal
   stable prefixes and the same unstable calls in whatever order, their lists replay equally.
   */
  lemma ReplicasConverge(a: Config, b: Config, es: seq<Event>, fs: seq<Event>)
    requires a.useCase == b.useCase && After(a, es).Some? && After(b, fs).Some?
    requires After(a, es).value.stableIndex <= |After(a, es).value.list|
    requires After(b, fs).value.stableIndex <= |After(b, fs).value.list|
    requires var x, y := After(a, es).value, After(b, fs).value;
             && x.list[..x.stableIndex] == y.list[..y.stableIndex]
             && multiset(x.list[x.stableIndex..]) == multiset(y.list[y.stableIndex..])
    ensures Replay(Start(a.useCase), After(a, es).value.list) == Replay(Start(a.useCase), After(b, fs).value.list)
  {
    RunKeepsLedger(a, es);
    RunKeepsLedger(b, fs);
    ListsConverge(a.useCase, After(a, es).value, After(b, fs).value);
  }

  lemma ListsConverge(u: UseCase, x: Node, y: Node)
    requires x.stableIndex <= |x.list| && y.stableIndex <= |y.list|
    requires Ordered(u, x.list, x.stableIndex) && Ordered(u, y.list, y.stableIndex)
    requires x.list[..x.stableIndex] == y.list[..y.stableIndex]
    requires multiset(x.list[x.stableIndex..]) == multiset(y.list[y.stableIndex..])
    ensures Replay(Start(u), x.list) == Replay(Start(u), y.list)
  {
    var i, j := x.stableIndex, y.stableIndex;
    var s := Replay(Start(u), x.list[..i]);
    ReplayFits(u, Start(u), x.list[..i]);
    assert Ordered(u, x.list[i..], 0) && Ordered(u, y.list[j..], 0);
    OrdersReplayEqually(u, s, x.list[i..], y.list[j..]);
    assert x.list == x.list[..i] + x.list[i..] && y.list == y.list[..j] + y.list[j..];
    ReplayConcat(Start(u), x.list[..i], x.list[i..]);
    ReplayConcat(Start(u), y.list[..j], y.list[j..]);
  }

  // ---------------------------------------------------------------- in the distributed system

  lemma OnceEach(a: seq<Call>, b: seq<Call>)
    requires forall c: Call :: multiset(a)[c] <= 1 && multiset(b)[c] <= 1
    requires forall c: Call :: c in a <==> c in b
    ensures multiset(a) == multiset(b)
  {
    forall c: Call ensures multiset(a)[c] == multiset(b)[c] {
      assert c in a <==> c in multiset(a);
      assert c in b <==> c in multiset(b);
    }
  }

  lemma SuffixesEqual(a: seq<Call>, i: nat, b: seq<Call>, j: nat)
    requires i <= |a| && j <= |b| && a[..i] == b[..j] && multiset(a) == multiset(b)
    ensures multiset(a[i..]) == multiset(b[j..])
  {
    assert a == a[..i] + a[i..] && b == b[..j] + b[j..];
    assert multiset(a[i..]) == multiset(a) - multiset(a[..i]);
    assert multiset(b[j..]) == multiset(b) - multiset(b[..j]);
  }

  lemma OrderedIn(s: System, g: Global, r: nat)
    requires Inv(s, g) && r < s.n
    ensures Ordered(s.useCase, g.nodes[r].list, g.nodes[r].stableIndex)
  {
    assert Ledger(Cfg(s, r), g.nodes[r]);
  }

  /** Two replicas of the running system that have executed the same calls agree, if their stable prefixes do. */
  lemma SystemConverges(s: System, ms: seq<Move>, q: nat, r: nat)
    requires Run(s, ms).Some? && q < s.n && r < s.n
    requires var x, y := Run(s, ms).value.nodes[q], Run(s, ms).value.nodes[r];
             && x.stableIndex <= |x.list| && y.stableIndex <= |y.list|
             && x.list[..x.stableIndex] == y.list[..y.stableIndex]
             && (forall c: Call :: c in x.list <==> c in y.list)
    ensures Replay(Start(s.useCase), Run(s, ms).value.nodes[q].list) == Replay(Start(s.useCase), Run(s, ms).value.nodes[r].list)
  {
    RunKeepsInv(s, ms);
    var x, y := Run(s, ms).value.nodes[q], Run(s, ms).value.nodes[r];
    OrderedIn(s, Run(s, ms).value, q);
    OrderedIn(s, Run(s, ms).value, r);
    hide Inv, Ordered;
    forall c: Call ensures multiset(x.list)[c] <= 1 && multiset(y.list)[c] <= 1 {
      ExecutedAtMostOnce(s, ms, q, c);
      ExecutedAtMostOnce(s, ms, r, c);
    }
    hide Run, Inv, Replay, Ledger, Cfg;
    OnceEach(x.list, y.list);
    SuffixesEqual(x.list, x.stableIndex, y.list, y.stableIndex);
    ListsConverge(s.useCase, x, y);
  }
}
