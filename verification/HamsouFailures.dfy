/**
 What the failure of a node does to the calls of a Hamsou replica: of the calls of that node that
 are not stable, those that nobody has acknowledged go, and all others stay.
 */
module HamsouFailures {
  import opened Options
  import opened HamsouCalls
  import opened HamsouNode
  import opened HamsouLedger

  // ---------------------------------------------------------------- one failure

  /** How often c is in the list afterwards. */
  lemma FailureKeeps(cfg: Config, x: Node, d: nat, c: Call)
    requires Enabled(cfg, x, Failed(d))
    ensures var y := Apply(cfg, x, Failed(d));
            multiset(y.list)[c] ==
              if c.key.node == d && !(c.key in x.acks && x.acks[c.key] >= 1) then multiset(x.list[..x.stableIndex])[c] else multiset(x.list)[c]
  {
    var a, b := x.list[..x.stableIndex], x.list[x.stableIndex..];
    assert x.list == a + b;
    SurvivorsAre(x.acks, d, b, c);
    assert Apply(cfg, x, Failed(d)).list == a + Survivors(x.acks, d, b);
    hide Survivors, Apply, Enabled;
    assert multiset(a + b)[c] == multiset(a)[c] + multiset(b)[c];
  }

  /** A call that was acknowledged at least once survives. */
  lemma AcknowledgedSurvives(cfg: Config, x: Node, d: nat, c: Call)
    requires Enabled(cfg, x, Failed(d)) && c in x.list && c.key in x.acks && x.acks[c.key] >= 1
    ensures c in Apply(cfg, x, Failed(d)).list
  {
    FailureKeeps(cfg, x, d, c);
    assert multiset(x.list)[c] > 0;
    assert multiset(Apply(cfg, x, Failed(d)).list)[c] > 0;
  }

  predicate Goes(acks: map<Key, nat>, d: nat, c: Call) {
    c.key.node == d && !(c.key in acks && acks[c.key] >= 1)
  }

  /** The positions from k on of the calls that stay, in increasing order. */
  function Positions(acks: map<Key, nat>, d: nat, cs: seq<Call>, k: nat): (at: seq<nat>)
    requires k <= |cs|
    ensures forall i: nat :: i in at <==> k <= i < |cs| && !Goes(acks, d, cs[i])
    ensures forall m, n :: 0 <= m < n < |at| ==> at[m] < at[n]
    decreases |cs| - k
  {
    if k == |cs| then []
    else if Goes(acks, d, cs[k]) then Positions(acks, d, cs, k + 1)
    else
      var tail := Positions(acks, d, cs, k + 1);
      assert forall m :: 0 <= m < |tail| ==> tail[m] in tail;
      [k] + tail
  }

  ghost predicate Selects(cs: seq<Call>, at: seq<nat>, rest: seq<Call>) {
    |at| == |rest| && forall m :: 0 <= m < |at| ==> at[m] < |cs| && cs[at[m]] == rest[m]
  }

  lemma SelectsOneMore(cs: seq<Call>, k: nat, at: seq<nat>, rest: seq<Call>)
    requires k < |cs| && Selects(cs, at, rest)
    ensures Selects(cs, [k] + at, [cs[k]] + rest)
  {
  }

  lemma {:induction false} PositionsSelect(acks: map<Key, nat>, d: nat, cs: seq<Call>, k: nat)
    requires k <= |cs|
    ensures Selects(cs, Positions(acks, d, cs, k), Survivors(acks, d, cs[k..]))
    decreases |cs| - k
  {
    if k < |cs| {
      PositionsSelect(acks, d, cs, k + 1);
      SurvivorsFrom(acks, d, cs, k);
      SelectsOneMore(cs, k, Positions(acks, d, cs, k + 1), Survivors(acks, d, cs[k + 1..]));
      hide Selects, Survivors, Goes;
    }
  }

  lemma SurvivorsFrom(acks: map<Key, nat>, d: nat, cs: seq<Call>, k: nat)
    requires k < |cs|
    ensures Survivors(acks, d, cs[k..]) == if Goes(acks, d, cs[k]) then Survivors(acks, d, cs[k + 1..]) else [cs[k]] + Survivors(acks, d, cs[k + 1..])
  {
    assert cs[k..][1..] == cs[k + 1..];
  }

  /** A failure leaves the stable calls and, in their order, exactly the unstable ones that do not go. */
  lemma FailureSelects(cfg: Config, x: Node, d: nat) returns (at: seq<nat>)
    requires Enabled(cfg, x, Failed(d))
    ensures forall i: nat :: i in at <==> x.stableIndex <= i < |x.list| && !Goes(x.acks, d, x.list[i])
    ensures forall m, n :: 0 <= m < n < |at| ==> at[m] < at[n]
    ensures var y := Apply(cfg, x, Failed(d));
            && |y.list| == x.stableIndex + |at| && y.list[..x.stableIndex] == x.list[..x.stableIndex]
            && Selects(x.list, at, y.list[x.stableIndex..])
  {
    at := Positions(x.acks, d, x.list, x.stableIndex);
    PositionsSelect(x.acks, d, x.list, x.stableIndex);
    hide Survivors, Positions, Goes, Selects;
  }

  // ---------------------------------------------------------------- over runs

  function TimesCounted(es: seq<Event>, key: Key): nat {
    if es == [] then 0 else TimesCounted(es[..|es| - 1], key) + if es[|es| - 1] == Counted(key) then 1 else 0
  }

  /** The table of acknowledgements counts the acknowledgements that arrived. */
  lemma {:induction false} AcksAreCounted(cfg: Config, es: seq<Event>, key: Key)
    requires After(cfg, es).Some?
    ensures (if key in After(cfg, es).value.acks then After(cfg, es).value.acks[key] else 0) == TimesCounted(es, key)
    decreases |es|
  {
    if es != [] {
      AcksAreCounted(cfg, es[..|es| - 1], key);
      CountStepAcks(cfg, After(cfg, es[..|es| - 1]).value, es[|es| - 1], key);
      hide Apply, Enabled;
    }
  }

  lemma CountStepAcks(cfg: Config, x: Node, e: Event, key: Key)
    requires Enabled(cfg, x, e)
    ensures var y := Apply(cfg, x, e);
            (if key in y.acks then y.acks[key] else 0) == (if key in x.acks then x.acks[key] else 0) + if e == Counted(key) then 1 else 0
  {
    hide Slot, Insert, Tick, UpdateCurrent, Update, Survivors, Blocked, MustWait, Hindered;
  }

  /** The nodes marked failed are those reported. */
  lemma {:induction false} FailedAreReported(cfg: Config, es: seq<Event>, d: nat)
    requires After(cfg, es).Some?
    ensures d in After(cfg, es).value.failed <==> Failed(d) in es
    decreases |es|
  {
    if es != [] {
      var before := es[..|es| - 1];
      FailedAreReported(cfg, before, d);
      assert es == before + [es[|es| - 1]];
      FailedOne(cfg, After(cfg, before).value, es[|es| - 1], d);
      hide Apply, Enabled;
    }
  }

  lemma FailedOne(cfg: Config, x: Node, e: Event, d: nat)
    requires Enabled(cfg, x, e)
    ensures d in Apply(cfg, x, e).failed <==> d in x.failed || e == Failed(d)
  {
    hide Slot, Insert, Tick, UpdateCurrent, Update, Survivors, Blocked, MustWait, Hindered;
  }

  /** Events other than failures take nothing out of the list. */
  lemma ListGrows(cfg: Config, x: Node, e: Event, c: Call)
    requires Enabled(cfg, x, e) && !e.Failed? && c in x.list
    ensures c in Apply(cfg, x, e).list
  {
    hide Slot, Tick, UpdateCurrent, Update, Survivors, Blocked, MustWait, Hindered;
    var i :| 0 <= i < |x.list| && x.list[i] == c;
    if e.Executed? {
      InsertHas(cfg, x, e.call, c);
    } else if e.Dequeued? || e.Drained? {
      InsertHas(cfg, x, x.queue[0], c);
    } else if e.Issued? {
      assert (x.list + [e.call])[i] == c;
    }
  }

  lemma InsertHas(cfg: Config, x: Node, d: Call, c: Call)
    requires x.stableIndex <= |x.list| && c in x.list
    ensures c in Execute(cfg, x, d).list
  {
    hide Slot, Insert, Tick, UpdateCurrent;
    InsertHolds(x.list, Slot(cfg.useCase, x.list, x.stableIndex, d), d);
    assert c in multiset(x.list);
    assert c in multiset(Execute(cfg, x, d).list);
  }

  lemma {:induction false} ListGrowsRun(cfg: Config, es: seq<Event>, k: nat, c: Call)
    requires After(cfg, es).Some? && k <= |es| && After(cfg, es[..k]).Some? && c in After(cfg, es[..k]).value.list
    requires forall i :: k <= i < |es| ==> !es[i].Failed?
    ensures c in After(cfg, es).value.list
    decreases |es|
  {
    if k == |es| {
      assert es[..k] == es;
    } else {
      var before := es[..|es| - 1];
      assert before[..k] == es[..k];
      ListGrowsRun(cfg, before, k, c);
      ListGrows(cfg, After(cfg, before).value, es[|es| - 1], c);
      hide Apply, Enabled;
    }
  }

  /** What removing the calls without acknowledgement from the unstable ones leaves. */
  lemma SurvivorsStay(acks: map<Key, nat>, d: nat, list: seq<Call>, i: nat, c: Call)
    requires i <= |list|
    ensures var after := list[..i] + Survivors(acks, d, list[i..]);
            && (c in list && !Goes(acks, d, c) ==> c in after)
            && (c in after[i..] <==> c in list[i..] && !Goes(acks, d, c))
  {
    var a, b := list[..i], list[i..];
    var rest := Survivors(acks, d, b);
    assert list == a + b && (a + rest)[i..] == rest;
    SurvivorsAre(acks, d, b, c);
    assert c in rest <==> multiset(rest)[c] > 0;
    assert c in b <==> multiset(b)[c] > 0;
    hide Survivors;
  }

  lemma AllSurvivorsStay(acks: map<Key, nat>, d: nat, list: seq<Call>, i: nat)
    requires i <= |list|
    ensures var after := list[..i] + Survivors(acks, d, list[i..]);
            && (forall c :: c in list && (c.key.node != d || (c.key in acks && acks[c.key] >= 1)) ==> c in after)
            && (forall c :: c in after[i..] ==> c.key.node != d || (c.key in acks && acks[c.key] >= 1))
  {
    var after := list[..i] + Survivors(acks, d, list[i..]);
    forall c | c in list && (c.key.node != d || (c.key in acks && acks[c.key] >= 1)) ensures c in after {
      SurvivorsStay(acks, d, list, i, c);
    }
    forall c | c in after[i..] ensures c.key.node != d || (c.key in acks && acks[c.key] >= 1) {
      SurvivorsStay(acks, d, list, i, c);
    }
  }

  lemma {:induction false} CountsGrow(es: seq<Event>, k: nat, key: Key)
    requires k <= |es|
    ensures TimesCounted(es[..k], key) <= TimesCounted(es, key)
    decreases |es|
  {
    if k < |es| {
      CountsGrow(es[..|es| - 1], k, key);
      assert es[..|es| - 1][..k] == es[..k];
    } else {
      assert es[..k] == es;
    }
  }

  /** Once a call is in the list and has been acknowledged, it is never lost, whichever nodes fail. */
  lemma {:induction false} CountedCallStays(cfg: Config, es: seq<Event>, k: nat, c: Call)
    requires After(cfg, es).Some? && k <= |es| && TimesCounted(es[..k], c.key) >= 1
    requires After(cfg, es[..k]).Some? && c in After(cfg, es[..k]).value.list
    ensures c in After(cfg, es).value.list
    decreases |es|
  {
    if k == |es| {
      assert es[..k] == es;
    } else {
      var before, last := es[..|es| - 1], es[|es| - 1];
      assert before[..k] == es[..k];
      CountedCallStays(cfg, before, k, c);
      CountsGrow(before, k, c.key);
      AcksAreCounted(cfg, before, c.key);
      if last.Failed? {
        AcknowledgedSurvives(cfg, After(cfg, before).value, last.node, c);
      } else {
        ListGrows(cfg, After(cfg, before).value, last, c);
      }
      hide Apply, Enabled;
    }
  }

  /** A call of the failed node that is not stable and was never acknowledged is gone. */
  lemma UncountedCallGoes(cfg: Config, es: seq<Event>, c: Call)
    requires After(cfg, es + [Failed(c.key.node)]).Some? && After(cfg, es).Some?
    requires TimesCounted(es, c.key) == 0
    requires After(cfg, es).value.stableIndex <= |After(cfg, es).value.list|
    requires c !in After(cfg, es).value.list[..After(cfg, es).value.stableIndex]
    ensures c !in After(cfg, es + [Failed(c.key.node)]).value.list
  {
    var x, e := After(cfg, es).value, Failed(c.key.node);
    assert (es + [e])[..|es|] == es;
    AcksAreCounted(cfg, es, c.key);
    FailureKeeps(cfg, x, c.key.node, c);
    hide Survivors;
    assert multiset(x.list[..x.stableIndex])[c] == 0;
    assert c in Apply(cfg, x, e).list <==> multiset(Apply(cfg, x, e).list)[c] > 0;
  }
}
