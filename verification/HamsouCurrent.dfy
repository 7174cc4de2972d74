/**
 When the current state of a Hamsou replica is the replay of its execution list.  A remote call is
 inserted into the list before the calls that have to follow it, but applied to the current state
 last; and the calls that a failure removes from the list stay in the current state.
 */
module HamsouCurrent {
  import opened Options
  import opened HamsouCalls
  import opened HamsouNode
  import opened HamsouLedger

  ghost predicate InStep(cfg: Config, x: Node) {
    x.current == ReplayCurrent(Start(cfg.useCase), x.list)
  }

  // ---------------------------------------------------------------- items of a state

  /** An element of the first set of the object, of its second set, or of its relation. */
  datatype Item = First(value: int) | Second(value: int) | Pair(left: int, right: int)

  function Firsts(s: AppState): set<int> {
    match s
    case SetState(elements) => elements
    case MovieState(movies, _) => movies
    case ProjectState(projects, _, _) => projects
    case CoursewareState(courses, _, _) => courses
  }

  function Seconds(s: AppState): set<int> {
    match s
    case SetState(_) => {}
    case MovieState(_, customers) => customers
    case ProjectState(_, employees, _) => employees
    case CoursewareState(_, students, _) => students
  }

  function Pairs(s: AppState): set<(int, int)> {
    match s
    case SetState(_) => {}
    case MovieState(_, _) => {}
    case ProjectState(_, _, works) => works
    case CoursewareState(_, _, enroll) => enroll
  }

  predicate Has(s: AppState, it: Item) {
    match it
    case First(v) => v in Firsts(s)
    case Second(v) => v in Seconds(s)
    case Pair(v, w) => (v, w) in Pairs(s)
  }

  /** The item of the current state that the call puts in or takes out. */
  function About(u: UseCase, c: Call): Option<Item> {
    match u
    case SetCase => if c.kind == Add || c.kind == Remove then Some(First(c.value1)) else None
    case MovieCase =>
      if c.kind == AddMovie || c.kind == DeleteMovie then Some(First(c.value1))
      else if c.kind == AddCustomer || c.kind == DeleteCustomer then Some(Second(c.value1))
      else None
    case ProjectCase =>
      if c.kind == AddProject || c.kind == DeleteProject then Some(First(c.value1))
      else if c.kind == AddEmployee || c.kind == DeleteEmployee then Some(Second(c.value1))
      else if c.kind == WorksOn then Some(Pair(c.value1, c.value2))
      else None
    case CoursewareCase =>
      if c.kind == AddCourse || c.kind == DeleteCourse then Some(First(c.value1))
      else if c.kind == AddStudent || c.kind == DeleteStudent then Some(Second(c.value1))
      else None
  }

  predicate Gives(k: Kind) {
    k == Add || k == AddMovie || k == AddCustomer || k == AddProject || k == AddEmployee || k == WorksOn || k == AddCourse || k == AddStudent
  }

  predicate Puts(u: UseCase, c: Call, it: Item) {
    About(u, c) == Some(it) && Gives(c.kind)
  }

  predicate Takes(u: UseCase, c: Call, it: Item) {
    About(u, c) == Some(it) && !Gives(c.kind)
  }

  ghost predicate SomePuts(u: UseCase, cs: seq<Call>, it: Item) {
    exists i :: 0 <= i < |cs| && Puts(u, cs[i], it)
  }

  ghost predicate SomeTakes(u: UseCase, cs: seq<Call>, it: Item) {
    exists i :: 0 <= i < |cs| && Takes(u, cs[i], it)
  }

  lemma SameItems(u: UseCase, s: AppState, t: AppState)
    requires Fits(u, s) && Fits(u, t)
    requires forall it :: Has(s, it) <==> Has(t, it)
    ensures s == t
  {
    forall v ensures v in Firsts(s) <==> v in Firsts(t) {
      assert Has(s, First(v)) <==> Has(t, First(v));
    }
    forall v ensures v in Seconds(s) <==> v in Seconds(t) {
      assert Has(s, Second(v)) <==> Has(t, Second(v));
    }
    forall p: (int, int) ensures p in Pairs(s) <==> p in Pairs(t) {
      assert Has(s, Pair(p.0, p.1)) <==> Has(t, Pair(p.0, p.1));
    }
    assert Firsts(s) == Firsts(t) && Seconds(s) == Seconds(t) && Pairs(s) == Pairs(t);
  }

  lemma OneCall(u: UseCase, s: AppState, c: Call, it: Item)
    requires Fits(u, s)
    ensures Fits(u, UpdateCurrent(s, c))
    ensures Has(UpdateCurrent(s, c), it) <==> Puts(u, c, it) || (Has(s, it) && !Takes(u, c, it))
  {
  }

  /** A call that puts an item in has to precede the calls that take it out. */
  lemma PutsFirst(u: UseCase, a: Call, b: Call, it: Item)
    requires Puts(u, a, it) && Takes(u, b, it)
    ensures Reachable(u, a, b)
  {
  }

  lemma {:induction false} CurrentFits(u: UseCase, s: AppState, cs: seq<Call>)
    requires Fits(u, s)
    ensures Fits(u, ReplayCurrent(s, cs))
    decreases |cs|
  {
    if cs != [] {
      CurrentFits(u, s, cs[..|cs| - 1]);
    }
  }

  lemma {:induction false} CurrentConcat(s: AppState, a: seq<Call>, b: seq<Call>)
    ensures ReplayCurrent(s, a + b) == ReplayCurrent(ReplayCurrent(s, a), b)
    decreases |b|
  {
    if b == [] {
      assert a + b == a;
    } else {
      assert (a + b)[..|a + b| - 1] == a + b[..|b| - 1];
      CurrentConcat(s, a, b[..|b| - 1]);
    }
  }

  lemma SomePutsOne(u: UseCase, cs: seq<Call>, it: Item)
    requires cs != []
    ensures SomePuts(u, cs, it) <==> SomePuts(u, cs[..|cs| - 1], it) || Puts(u, cs[|cs| - 1], it)
  {
    var before := cs[..|cs| - 1];
    hide Puts;
    forall i | 0 <= i < |before| ensures Puts(u, before[i], it) == Puts(u, cs[i], it) {
    }
  }

  lemma SomeTakesOne(u: UseCase, cs: seq<Call>, it: Item)
    requires cs != []
    ensures SomeTakes(u, cs, it) <==> SomeTakes(u, cs[..|cs| - 1], it) || Takes(u, cs[|cs| - 1], it)
  {
    var before := cs[..|cs| - 1];
    hide Takes;
    forall i | 0 <= i < |before| ensures Takes(u, before[i], it) == Takes(u, cs[i], it) {
    }
  }

  /** In a list that respects the relation a taken item is gone, and any other put item is there. */
  lemma {:induction false} OrderedDecides(u: UseCase, s: AppState, cs: seq<Call>, it: Item)
    requires Fits(u, s) && Ordered(u, cs, 0)
    ensures Has(ReplayCurrent(s, cs), it) <==> !SomeTakes(u, cs, it) && (SomePuts(u, cs, it) || Has(s, it))
    decreases |cs|
  {
    if cs != [] {
      var before, last := cs[..|cs| - 1], cs[|cs| - 1];
      assert Ordered(u, before, 0) by { hide Reachable; }
      OrderedDecides(u, s, before, it);
      CurrentFits(u, s, before);
      OneCall(u, ReplayCurrent(s, before), last, it);
      SomePutsOne(u, cs, it);
      SomeTakesOne(u, cs, it);
      LastPuts(u, cs, it);
      hide Puts, Takes, SomePuts, SomeTakes, Has, UpdateCurrent, Fits, Ordered;
    }
  }

  lemma LastPuts(u: UseCase, cs: seq<Call>, it: Item)
    requires cs != [] && Ordered(u, cs, 0)
    ensures Puts(u, cs[|cs| - 1], it) ==> !SomeTakes(u, cs[..|cs| - 1], it)
  {
    var last := cs[|cs| - 1];
    forall i | 0 <= i < |cs| - 1 ensures !(Puts(u, last, it) && Takes(u, cs[i], it)) {
      assert !Reachable(u, last, cs[i]);
      if Puts(u, last, it) && Takes(u, cs[i], it) {
        PutsFirst(u, last, cs[i], it);
      }
    }
    hide Puts, Takes;
  }

  // ---------------------------------------------------------------- an arrival

  /** d takes out what c puts in. */
  predicate Undoes(u: UseCase, c: Call, d: Call) {
    Opposite(u, c.kind) == Some(d.kind) && c.value1 == d.value1
  }

  /** None of the calls that c is inserted before undoes it. */
  ghost predicate ArrivesHarmlessly(u: UseCase, list: seq<Call>, i: nat, c: Call)
    requires i <= |list|
  {
    forall j :: Slot(u, list, i, c) <= j < |list| ==> !Undoes(u, c, list[j])
  }

  lemma UndoesTakes(u: UseCase, c: Call, d: Call, it: Item)
    ensures Puts(u, c, it) ==> (Undoes(u, c, d) <==> Takes(u, d, it))
  {
  }

  lemma UndoneItem(u: UseCase, c: Call, d: Call) returns (it: Item)
    ensures Undoes(u, c, d) ==> Puts(u, c, it) && Takes(u, d, it)
  {
    it := if About(u, c).Some? then About(u, c).value else First(0);
  }

  /** A call that takes something out is inserted at the end. */
  lemma TakersGoLast(u: UseCase, list: seq<Call>, i: nat, c: Call, it: Item)
    requires i <= |list| && Takes(u, c, it)
    ensures Slot(u, list, i, c) == |list|
  {
  }

  lemma SlotSuffixOrdered(u: UseCase, list: seq<Call>, i: nat, c: Call)
    requires i <= |list| && Ordered(u, list, i)
    ensures Ordered(u, list[Slot(u, list, i, c)..], 0)
  {
    hide Reachable;
  }

  /** What the item is with c applied last, and with c inserted at its place. */
  lemma ItemOfArrival(u: UseCase, list: seq<Call>, i: nat, c: Call, it: Item)
    requires i <= |list| && Ordered(u, list, i)
    ensures var p := Slot(u, list, i, c);
            (Has(UpdateCurrent(ReplayCurrent(Start(u), list), c), it) <==> Has(ReplayCurrent(Start(u), Insert(list, p, c)), it))
            <==> !(Puts(u, c, it) && SomeTakes(u, list[p..], it))
  {
    var p := Slot(u, list, i, c);
    var a, b := list[..p], list[p..];
    var s := ReplayCurrent(Start(u), a);
    assert list == a + b;
    assert Insert(list, p, c) == (a + [c]) + b;
    CurrentFits(u, Start(u), a);
    CurrentFits(u, Start(u), list);
    CurrentConcat(Start(u), a, b);
    CurrentConcat(Start(u), a + [c], b);
    ReplayCurrentOne(Start(u), a, c);
    OneCall(u, s, c, it);
    OneCall(u, ReplayCurrent(Start(u), list), c, it);
    SlotSuffixOrdered(u, list, i, c);
    OrderedDecides(u, s, b, it);
    OrderedDecides(u, UpdateCurrent(s, c), b, it);
    if Takes(u, c, it) {
      TakersGoLast(u, list, i, c, it);
    }
    assert Takes(u, c, it) ==> b == [];
    hide Insert, Slot, ReplayCurrent, Has, UpdateCurrent, Fits, Ordered, About;
  }

  /** An arrival keeps list and current state in step exactly when no call behind its place undoes it. */
  lemma ExecuteInStep(cfg: Config, x: Node, c: Call)
    requires Ledger(cfg, x) && InStep(cfg, x)
    ensures InStep(cfg, Execute(cfg, x, c)) <==> ArrivesHarmlessly(cfg.useCase, x.list, x.stableIndex, c)
  {
    var u := cfg.useCase;
    var p := Slot(u, x.list, x.stableIndex, c);
    var now, replayed := UpdateCurrent(x.current, c), ReplayCurrent(Start(u), Insert(x.list, p, c));
    assert InStep(cfg, Execute(cfg, x, c)) <==> now == replayed;
    CurrentFits(u, Start(u), x.list);
    CurrentFits(u, Start(u), Insert(x.list, p, c));
    OneCall(u, x.current, c, First(0));
    if ArrivesHarmlessly(u, x.list, x.stableIndex, c) {
      forall it ensures Has(now, it) <==> Has(replayed, it) {
        ItemOfArrival(u, x.list, x.stableIndex, c, it);
        NothingUndone(u, x.list, x.stableIndex, c, it);
      }
      SameItems(u, now, replayed);
    } else {
      var j :| p <= j < |x.list| && Undoes(u, c, x.list[j]);
      var it := UndoneItem(u, c, x.list[j]);
      ItemOfArrival(u, x.list, x.stableIndex, c, it);
      assert x.list[p..][j - p] == x.list[j];
      assert SomeTakes(u, x.list[p..], it);
    }
  }

  lemma NothingUndone(u: UseCase, list: seq<Call>, i: nat, c: Call, it: Item)
    requires i <= |list| && ArrivesHarmlessly(u, list, i, c)
    ensures !(Puts(u, c, it) && SomeTakes(u, list[Slot(u, list, i, c)..], it))
  {
    var p := Slot(u, list, i, c);
    var b := list[p..];
    forall k | 0 <= k < |b| ensures !(Puts(u, c, it) && Takes(u, b[k], it)) {
      assert b[k] == list[p + k];
      UndoesTakes(u, c, list[p + k], it);
    }
    hide Puts, Takes, Slot;
  }

  // ---------------------------------------------------------------- a failure

  /** What the unstable calls that stay, applied to the stable state, make of the item is what it is now. */
  ghost predicate Unaffected(cfg: Config, x: Node, d: nat, it: Item)
    requires x.stableIndex <= |x.list|
  {
    var rest := Survivors(x.acks, d, x.list[x.stableIndex..]);
    Has(x.current, it) <==> !SomeTakes(cfg.useCase, rest, it) && (SomePuts(cfg.useCase, rest, it) || Has(x.stable, it))
  }

  /** A call of d that nobody has acknowledged. */
  predicate Abandoned(x: Node, d: nat, c: Call) {
    c.key.node == d && !(c.key in x.acks && x.acks[c.key] >= 1)
  }

  /** Every call that is dropped leaves no trace. */
  ghost predicate FailsHarmlessly(cfg: Config, x: Node, d: nat)
    requires x.stableIndex <= |x.list|
  {
    forall j :: x.stableIndex <= j < |x.list| && Abandoned(x, d, x.list[j]) && About(cfg.useCase, x.list[j]).Some? ==>
                  Unaffected(cfg, x, d, About(cfg.useCase, x.list[j]).value)
  }

  /** Apart from enrolments the two ways to apply calls agree. */
  lemma {:induction false} StableItems(u: UseCase, cs: seq<Call>, it: Item)
    requires !(u == CoursewareCase && it.Pair?)
    ensures Has(Replay(Start(u), cs), it) <==> Has(ReplayCurrent(Start(u), cs), it)
    decreases |cs|
  {
    if cs != [] {
      var before, last := cs[..|cs| - 1], cs[|cs| - 1];
      StableItems(u, before, it);
      assert cs == before + [last];
      ReplayOne(Start(u), before, last);
      ReplayFits(u, Start(u), before);
      CurrentFits(u, Start(u), before);
      OneCall(u, Replay(Start(u), before), last, it);
      OneCall(u, ReplayCurrent(Start(u), before), last, it);
      StableItem(u, Replay(Start(u), before), last, it);
      hide Replay, Update, UpdateCurrent, Has, Puts, Takes, Fits;
    }
  }

  lemma StableItem(u: UseCase, s: AppState, c: Call, it: Item)
    requires Fits(u, s) && !(u == CoursewareCase && it.Pair?)
    ensures Has(Update(s, c), it) <==> Has(UpdateCurrent(s, c), it)
  {
  }

  lemma SurvivorsSome(acks: map<Key, nat>, d: nat, u: UseCase, cs: seq<Call>, it: Item)
    ensures var rest := Survivors(acks, d, cs);
            && (SomePuts(u, rest, it) ==> SomePuts(u, cs, it)) && (SomeTakes(u, rest, it) ==> SomeTakes(u, cs, it))
  {
    var rest := Survivors(acks, d, cs);
    if k: nat :| k < |rest| && Puts(u, rest[k], it) {
      SurvivorsIn(acks, d, cs, k);
    }
    if k: nat :| k < |rest| && Takes(u, rest[k], it) {
      SurvivorsIn(acks, d, cs, k);
    }
  }

  /** A call that is not dropped survives. */
  lemma StaysSome(acks: map<Key, nat>, d: nat, u: UseCase, cs: seq<Call>, it: Item)
    requires forall j :: 0 <= j < |cs| && Orphan(acks, d, cs[j]) ==> About(u, cs[j]) != Some(it)
    ensures var rest := Survivors(acks, d, cs);
            && (SomePuts(u, cs, it) ==> SomePuts(u, rest, it)) && (SomeTakes(u, cs, it) ==> SomeTakes(u, rest, it))
  {
    var rest := Survivors(acks, d, cs);
    forall j | 0 <= j < |cs| && About(u, cs[j]) == Some(it) ensures cs[j] in rest {
      SurvivorsAre(acks, d, cs, cs[j]);
      assert multiset(cs)[cs[j]] > 0;
      assert multiset(rest)[cs[j]] > 0;
    }
    hide About, Survivors, Orphan;
  }

  /** What the item is in the replay of the shortened list. */
  lemma ItemOfFailure(cfg: Config, x: Node, d: nat, it: Item)
    requires Ledger(cfg, x) && !(cfg.useCase == CoursewareCase && it.Pair?)
    ensures var rest := Survivors(x.acks, d, x.list[x.stableIndex..]);
            Has(ReplayCurrent(Start(cfg.useCase), x.list[..x.stableIndex] + rest), it)
            <==> !SomeTakes(cfg.useCase, rest, it) && (SomePuts(cfg.useCase, rest, it) || Has(x.stable, it))
  {
    var u, i := cfg.useCase, x.stableIndex;
    var a, b := x.list[..i], x.list[i..];
    assert Ordered(u, b, 0) by { hide Reachable; }
    SurvivorsOrdered(u, x.acks, d, b);
    CurrentFits(u, Start(u), a);
    CurrentConcat(Start(u), a, Survivors(x.acks, d, b));
    OrderedDecides(u, ReplayCurrent(Start(u), a), Survivors(x.acks, d, b), it);
    StableItems(u, a, it);
    hide Survivors, Replay, ReplayCurrent, Has, SomePuts, SomeTakes, Ordered, Acknowledged, Known;
  }

  /** What the item is while the replica is in step. */
  lemma ItemInStep(cfg: Config, x: Node, it: Item)
    requires Ledger(cfg, x) && InStep(cfg, x) && !(cfg.useCase == CoursewareCase && it.Pair?)
    ensures var b := x.list[x.stableIndex..];
            Has(x.current, it) <==> !SomeTakes(cfg.useCase, b, it) && (SomePuts(cfg.useCase, b, it) || Has(x.stable, it))
  {
    var u, i := cfg.useCase, x.stableIndex;
    var a, b := x.list[..i], x.list[i..];
    assert x.list == a + b;
    assert Ordered(u, b, 0) by { hide Reachable; }
    CurrentFits(u, Start(u), a);
    CurrentConcat(Start(u), a, b);
    OrderedDecides(u, ReplayCurrent(Start(u), a), b, it);
    StableItems(u, a, it);
    hide Replay, ReplayCurrent, Has, SomePuts, SomeTakes, Ordered, Acknowledged, Known;
  }

  lemma EnrolmentsNever(u: UseCase, cs: seq<Call>, it: Item)
    requires u == CoursewareCase && it.Pair?
    ensures !Has(ReplayCurrent(Start(u), cs), it)
  {
    CurrentNeverEnrols(Start(u), cs);
  }

  /** Items that no dropped call is about stay what they are. */
  lemma UntouchedItem(cfg: Config, x: Node, d: nat, it: Item)
    requires Ledger(cfg, x) && InStep(cfg, x)
    requires forall j :: x.stableIndex <= j < |x.list| && Abandoned(x, d, x.list[j]) ==> About(cfg.useCase, x.list[j]) != Some(it)
    requires !(cfg.useCase == CoursewareCase && it.Pair?)
    ensures Unaffected(cfg, x, d, it)
  {
    hide Ordered, Known, Acknowledged, Replay, ReplayCurrent, Reachable;
    ItemInStep(cfg, x, it);
    assert x.stableIndex <= |x.list|;
    hide Ledger, InStep;
    var b := x.list[x.stableIndex..];
    assert forall j :: 0 <= j < |b| ==> b[j] == x.list[x.stableIndex + j];
    hide Survivors, About, Has, SomePuts, SomeTakes;
    StaysSome(x.acks, d, cfg.useCase, b, it);
    SurvivorsSome(x.acks, d, cfg.useCase, b, it);
  }

  /** Each item stays in step exactly when it is unaffected. */
  lemma ItemAfterFailure(cfg: Config, x: Node, d: nat, it: Item)
    requires Ledger(cfg, x) && InStep(cfg, x)
    ensures var list := x.list[..x.stableIndex] + Survivors(x.acks, d, x.list[x.stableIndex..]);
            (Has(x.current, it) <==> Has(ReplayCurrent(Start(cfg.useCase), list), it)) <==>
              (cfg.useCase == CoursewareCase && it.Pair?) || Unaffected(cfg, x, d, it)
  {
    if cfg.useCase == CoursewareCase && it.Pair? {
      EnrolmentsNever(cfg.useCase, x.list, it);
      EnrolmentsNever(cfg.useCase, x.list[..x.stableIndex] + Survivors(x.acks, d, x.list[x.stableIndex..]), it);
    } else {
      ItemOfFailure(cfg, x, d, it);
    }
    hide Ledger, Survivors, Has, SomePuts, SomeTakes, Start;
  }

  lemma AboutIsNoEnrolment(u: UseCase, c: Call)
    ensures About(u, c).Some? ==> !(u == CoursewareCase && About(u, c).value.Pair?)
  {
  }

  /** A failure keeps list and current state in step exactly when every call it drops leaves no trace. */
  lemma FailureInStep(cfg: Config, x: Node, d: nat)
    requires Ledger(cfg, x) && InStep(cfg, x) && Enabled(cfg, x, Failed(d))
    ensures InStep(cfg, Apply(cfg, x, Failed(d))) <==> FailsHarmlessly(cfg, x, d)
  {
    var u := cfg.useCase;
    var list := x.list[..x.stableIndex] + Survivors(x.acks, d, x.list[x.stableIndex..]);
    var replayed := ReplayCurrent(Start(u), list);
    assert InStep(cfg, Apply(cfg, x, Failed(d))) <==> x.current == replayed;
    CurrentFits(u, Start(u), x.list);
    CurrentFits(u, Start(u), list);
    forall it ensures (Has(x.current, it) <==> Has(replayed, it)) <==> (u == CoursewareCase && it.Pair?) || Unaffected(cfg, x, d, it) {
      ItemAfterFailure(cfg, x, d, it);
    }
    if FailsHarmlessly(cfg, x, d) {
      forall it ensures Has(x.current, it) <==> Has(replayed, it) {
        HarmlessItem(cfg, x, d, it);
      }
      SameItems(u, x.current, replayed);
    } else {
      var j :| x.stableIndex <= j < |x.list| && Abandoned(x, d, x.list[j]) && About(u, x.list[j]).Some?
               && !Unaffected(cfg, x, d, About(u, x.list[j]).value);
      AboutIsNoEnrolment(u, x.list[j]);
    }
  }

  lemma HarmlessItem(cfg: Config, x: Node, d: nat, it: Item)
    requires Ledger(cfg, x) && InStep(cfg, x) && FailsHarmlessly(cfg, x, d)
    ensures (cfg.useCase == CoursewareCase && it.Pair?) || Unaffected(cfg, x, d, it)
  {
    if !(cfg.useCase == CoursewareCase && it.Pair?)
       && forall j :: x.stableIndex <= j < |x.list| && Abandoned(x, d, x.list[j]) ==> About(cfg.useCase, x.list[j]) != Some(it) {
      UntouchedItem(cfg, x, d, it);
    }
    hide Ledger, InStep, Unaffected, About, Abandoned;
  }

  // ---------------------------------------------------------------- every event

  ghost predicate Harmless(cfg: Config, x: Node, e: Event)
    requires Enabled(cfg, x, e)
  {
    match e
    case Executed(c) => ArrivesHarmlessly(cfg.useCase, x.list, x.stableIndex, c)
    case Dequeued(_) => ArrivesHarmlessly(cfg.useCase, x.list, x.stableIndex, x.queue[0])
    case Drained(_) => ArrivesHarmlessly(cfg.useCase, x.list, x.stableIndex, x.queue[0])
    case Failed(d) => FailsHarmlessly(cfg, x, d)
    case Issued(_) => true
    case Queued(_, _) => true
    case Counted(_) => true
    case Stabilized => true
  }

  /**
   A replica in step leaves it exactly with an arrival that a call behind its place undoes, or a
   failure that drops a call with a trace; issuing, queueing, counting and stabilizing never do it.
   */
  lemma EventInStep(cfg: Config, x: Node, e: Event)
    requires Ledger(cfg, x) && InStep(cfg, x) && Enabled(cfg, x, e)
    ensures InStep(cfg, Apply(cfg, x, e)) <==> Harmless(cfg, x, e)
  {
    hide Ledger, ReplayCurrent, UpdateCurrent, ArrivesHarmlessly, FailsHarmlessly, Survivors, Blocked, MustWait, Hindered;
    match e
    case Issued(c) => ReplayCurrentOne(Start(cfg.useCase), x.list, c);
    case Executed(c) => ExecuteInStep(cfg, x, c);
    case Dequeued(_) => ExecuteInStep(cfg, x, x.queue[0]);
    case Drained(_) => ExecuteInStep(cfg, x, x.queue[0]);
    case Failed(d) => FailureInStep(cfg, x, d);
    case Queued(_, _) =>
    case Counted(_) =>
    case Stabilized =>
  }

  /** The replica is in step after every prefix of the events. */
  ghost predicate AlwaysInStep(cfg: Config, es: seq<Event>)
    decreases |es|
  {
    && After(cfg, es).Some? && InStep(cfg, After(cfg, es).value)
    && (es != [] ==> AlwaysInStep(cfg, es[..|es| - 1]))
  }

  ghost predicate AllHarmless(cfg: Config, es: seq<Event>)
    requires After(cfg, es).Some?
    decreases |es|
  {
    es != [] ==>
      AllHarmless(cfg, es[..|es| - 1]) && Harmless(cfg, After(cfg, es[..|es| - 1]).value, es[|es| - 1])
  }

  /** Throughout a run the current state is the replay of the list exactly when every event is harmless. */
  lemma {:induction false} RunInStep(cfg: Config, es: seq<Event>)
    requires After(cfg, es).Some?
    ensures AlwaysInStep(cfg, es) <==> AllHarmless(cfg, es)
    decreases |es|
  {
    if es != [] {
      var before := es[..|es| - 1];
      RunInStep(cfg, before);
      var x := After(cfg, before).value;
      RunKeepsLedger(cfg, before);
      if InStep(cfg, x) {
        EventInStep(cfg, x, es[|es| - 1]);
      }
      hide InStep, Harmless, Ledger, Apply, Enabled;
    }
  }

  /** A failure can do it: the dropped call is gone from the list, its effect stays in the current state. */
  lemma FailureLeavesATrace() returns (cfg: Config, es: seq<Event>)
    ensures After(cfg, es).Some?
    ensures var x := After(cfg, es).value; x.current == SetState({1}) && x.list == []
  {
    cfg := Config(SetCase, 0, 2);
    var add := Call(Add, 1, 0, Key(1, 1), [0, 1]);
    var x1 := AddExecuted(cfg, add);
    AddDropped(cfg, x1, add);
    hide After, Apply, Enabled;
    AfterOne(cfg, [Executed(add)], Failed(1));
    es := [Executed(add)] + [Failed(1)];
  }

  lemma AddExecuted(cfg: Config, add: Call) returns (x: Node)
    requires cfg == Config(SetCase, 0, 2) && add == Call(Add, 1, 0, Key(1, 1), [0, 1])
    ensures After(cfg, [Executed(add)]) == Some(x)
    ensures x.list == [add] && x.stableIndex == 0 && x.current == SetState({1}) && x.acks == map[] && x.failed == {}
  {
    var x0 := Initial(cfg);
    assert Enabled(cfg, x0, Executed(add));
    AfterOne(cfg, [], Executed(add));
    assert [] + [Executed(add)] == [Executed(add)];
    x := Apply(cfg, x0, Executed(add));
  }

  lemma AddDropped(cfg: Config, x: Node, add: Call)
    requires cfg == Config(SetCase, 0, 2) && add == Call(Add, 1, 0, Key(1, 1), [0, 1])
    requires x.list == [add] && x.stableIndex == 0 && x.current == SetState({1}) && x.acks == map[] && x.failed == {}
    ensures Enabled(cfg, x, Failed(1))
    ensures Apply(cfg, x, Failed(1)).list == [] && Apply(cfg, x, Failed(1)).current == SetState({1})
  {
    assert x.list[0..] == [add];
    assert Survivors(x.acks, 1, [add]) == [] by {
      assert Orphan(x.acks, 1, add);
      assert Survivors(x.acks, 1, [add][1..]) == [];
    }
  }
}
