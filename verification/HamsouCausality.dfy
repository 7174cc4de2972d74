/**
 What the vector clocks of Hamsou say about the order in which calls were issued and executed, and
 which calls have to wait because of it.
 */
module HamsouCausality {
  import opened Options
  import opened HamsouCalls
  import opened HamsouNode
  import opened HamsouLedger

  /** In every component of clock c it is at least clock d, and in one it is greater. */
  ghost predicate Exceeds(c: seq<int>, d: seq<int>) {
    |c| <= |d| && (forall i :: 0 <= i < |c| ==> c[i] >= d[i]) && exists i :: 0 <= i < |c| && c[i] > d[i]
  }

  lemma AfterMeansExceeds(c: seq<int>, d: seq<int>)
    ensures Compare(c, d) == 2 <==> Exceeds(c, d)
  {
  }

  /** A clock that is ticked over everything that d counts comes after d. */
  lemma TickedIsAfter(clock: seq<int>, me: nat, d: seq<int>)
    requires me < |clock| == |d| && forall j :: 0 <= j < |d| ==> d[j] <= clock[j]
    ensures Compare(Tick(clock, me), d) == 2 && Compare(d, Tick(clock, me)) == 0
  {
    var ticked := Tick(clock, me);
    assert ticked[me] > d[me];
    assert Above(ticked, d);
    assert Below(d, ticked);
  }

  /** A remote call has seen the top of the queue, or an unstable call that has to follow it. */
  ghost predicate HasSeen(cfg: Config, x: Node, c: Call) {
    || (x.queue != [] && Exceeds(c.clock, x.queue[0].clock))
    || (exists i :: x.stableIndex <= i < |x.list| && Reachable(cfg.useCase, c, x.list[i]) && Exceeds(c.clock, x.list[i].clock))
  }

  /** Exactly then it waits. */
  lemma WaitsIff(cfg: Config, x: Node, c: Call)
    ensures MustWait(cfg, x, c) <==> HasSeen(cfg, x, c)
  {
    forall d: Call ensures Compare(c.clock, d.clock) == 2 <==> Exceeds(c.clock, d.clock) {
      AfterMeansExceeds(c.clock, d.clock);
    }
    hide Compare, Exceeds, Reachable;
  }

  // ---------------------------------------------------------------- clocks over runs

  /** A call counts what its node had executed when it was issued, and itself. */
  lemma IssuedClock(cfg: Config, es: seq<Event>, c: Call)
    requires After(cfg, es + [Issued(c)]).Some? && After(cfg, es).Some?
    ensures |c.clock| == cfg.n && cfg.me < cfg.n
    ensures forall j :: 0 <= j < cfg.n ==> c.clock[j] == CountFrom(Arrivals(cfg, es), j) + if j == cfg.me then 1 else 0
  {
    assert (es + [Issued(c)])[..|es|] == es;
    RunCounters(cfg, es, After(cfg, es).value);
    CurrentFollowsArrival(cfg, es);
    hide ReplayCurrent, Arrivals, CountFrom, Hindered;
  }

  /** It comes after every call whose clock counts nothing that its node had not executed. */
  lemma SeenCallsComeBefore(cfg: Config, es: seq<Event>, c: Call, d: Call)
    requires After(cfg, es + [Issued(c)]).Some? && After(cfg, es).Some? && |d.clock| == cfg.n
    requires forall j :: 0 <= j < cfg.n ==> d.clock[j] <= CountFrom(Arrivals(cfg, es), j)
    ensures Compare(c.clock, d.clock) == 2 && Compare(d.clock, c.clock) == 0
  {
    IssuedClock(cfg, es, c);
    hide After, Arrivals, CountFrom;
    assert c.clock[cfg.me] > d.clock[cfg.me];
    assert Above(c.clock, d.clock) && Below(d.clock, c.clock);
  }

  lemma ClockStep(cfg: Config, x: Node, e: Event)
    requires Enabled(cfg, x, e)
    ensures |Apply(cfg, x, e).clock| == |x.clock| && forall j :: 0 <= j < |x.clock| ==> x.clock[j] <= Apply(cfg, x, e).clock[j]
    ensures e.Issued? ==> Apply(cfg, x, e).clock == e.call.clock
  {
    hide Slot, Insert, UpdateCurrent, Update, Survivors, Blocked, MustWait, Hindered, Acks, Threshold;
  }

  lemma {:induction false} ClockGrows(cfg: Config, es: seq<Event>, k: nat)
    requires After(cfg, es).Some? && k <= |es| && After(cfg, es[..k]).Some?
    ensures var x, y := After(cfg, es[..k]).value, After(cfg, es).value;
            |x.clock| == |y.clock| == cfg.n && forall j :: 0 <= j < cfg.n ==> x.clock[j] <= y.clock[j]
    decreases |es|
  {
    RunCounters(cfg, es, After(cfg, es).value);
    if k == |es| {
      assert es[..k] == es;
    } else {
      var before := es[..|es| - 1];
      assert before[..k] == es[..k];
      ClockGrows(cfg, before, k);
      ClockStep(cfg, After(cfg, before).value, es[|es| - 1]);
      hide Apply, Enabled;
    }
  }

  /** Of two calls issued by one replica the later comes after the earlier. */
  lemma IssueOrder(cfg: Config, es: seq<Event>, k: nat, c: Call, d: Call)
    requires k < |es| && es[k] == Issued(c) && After(cfg, es + [Issued(d)]).Some?
    requires After(cfg, es).Some? && After(cfg, es[..k]).Some? && After(cfg, es[..k + 1]).Some?
    ensures Compare(d.clock, c.clock) == 2 && Compare(c.clock, d.clock) == 0
  {
    var x, y := After(cfg, es[..k]).value, After(cfg, es).value;
    assert es[..k + 1][..k] == es[..k] && es[..k + 1][k] == es[k];
    assert (es + [Issued(d)])[..|es|] == es;
    ClockStep(cfg, x, Issued(c));
    ClockGrows(cfg, es, k + 1);
    assert d.clock == Tick(y.clock, cfg.me) && cfg.me < cfg.n;
    hide After, Apply, Enabled, Tick;
    TickedIsAfter(y.clock, cfg.me, c.clock);
  }

  /**
   In every history a call that was executed on arrival had seen neither the top of the queue nor an
   unstable call that it has to precede; one that was queued had; and one that left the queue had
   seen no such unstable call any more.  Only the drain after a failure does not ask.
   */
  lemma OnlySeenCallsWait(cfg: Config, es: seq<Event>, k: nat)
    requires k < |es| && After(cfg, es[..k]).Some? && After(cfg, es[..k + 1]).Some?
    ensures var x := After(cfg, es[..k]).value;
            match es[k]
            case Executed(c) => !HasSeen(cfg, x, c)
            case Queued(c, _) => HasSeen(cfg, x, c)
            case Dequeued(_) => x.queue != [] && !HasSeen(cfg, x.(queue := []), x.queue[0])
            case _ => true
  {
    var x := After(cfg, es[..k]).value;
    assert es[..k + 1][..k] == es[..k] && es[..k + 1][k] == es[k];
    assert Enabled(cfg, x, es[k]);
    match es[k]
    case Executed(c) => WaitsIff(cfg, x, c);
    case Queued(c, _) => WaitsIff(cfg, x, c);
    case Dequeued(_) => WaitsIff(cfg, x.(queue := []), x.queue[0]);
    case _ =>
  }

  // ---------------------------------------------------------------- the relation

  /** Calls that link two elements. */
  predicate IsLink(u: UseCase, k: Kind) {
    (u == ProjectCase && k == WorksOn) || (u == CoursewareCase && k == Enroll)
  }

  /** A call removes what some kind of call adds. */
  predicate Removes(u: UseCase, k: Kind, add: Kind) {
    Opposite(u, add) == Some(k)
  }

  /** a has to precede b exactly if b takes elements out of a set, and a puts elements into that set or links elements. */
  lemma ReachableExactly(u: UseCase, a: Call, b: Call)
    ensures Reachable(u, a, b) <==> Removes(u, b.kind, a.kind) || (IsLink(u, a.kind) && exists add :: Removes(u, b.kind, add))
  {
    assert Removes(ProjectCase, DeleteProject, AddProject) && Removes(ProjectCase, DeleteEmployee, AddEmployee);
    assert Removes(CoursewareCase, DeleteCourse, AddCourse) && Removes(CoursewareCase, DeleteStudent, AddStudent);
  }

  /** After every history no unstable call adds or links anything after a call that removes it or could remove its ends. */
  lemma RemovalsComeLast(cfg: Config, es: seq<Event>, j: nat, k: nat)
    requires After(cfg, es).Some?
    requires After(cfg, es).value.stableIndex <= j < k < |After(cfg, es).value.list|
    ensures var a, b := After(cfg, es).value.list[j], After(cfg, es).value.list[k];
            && !Removes(cfg.useCase, a.kind, b.kind)
            && (IsLink(cfg.useCase, b.kind) ==> forall add :: !Removes(cfg.useCase, a.kind, add))
  {
    RunKeepsLedger(cfg, es);
    var a, b := After(cfg, es).value.list[j], After(cfg, es).value.list[k];
    assert !Reachable(cfg.useCase, b, a);
    ReachableExactly(cfg.useCase, b, a);
    hide Reachable, Removes, After, Replay;
  }
}
