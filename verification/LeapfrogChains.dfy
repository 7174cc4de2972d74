/**
 One table of the concurrent Leapfrog map.  Every cell heads a bucket, whose other members
 are linked to it by one-byte deltas.  Every load, store and compare-exchange of
 `insertOrFind` and `find` is one step; any number of threads interleave.

 Cells of a bucket are named by their offset from the bucket's home.  Offset 0 is the home
 cell itself, which may hold a hash of another bucket.
 */
module LeapfrogChains {
  import opened Options
  import opened Ring

  const NULL: nat := 0
  const LINEAR_SEARCH_LIMIT: nat := 128

  datatype Result = AlreadyFound | InsertedNew

  /**
   Where a thread stands.  In `Returned`, `chained` tells whether the thread reached the cell
   through the links, or linked it itself.  In a find, `sure` records that the hash could be
   reached through the links when the find began.
   */
  datatype PC =
    | Idle
    | LoadHome(h: nat)
    | CasHome(h: nat)
    | Follow(h: nat, o: nat)
    | Visit(h: nat, o: nat)
    | Search(h: nat, prev: nat, cur: nat)
    | CasCell(h: nat, prev: nat, cur: nat)
    | LinkOwn(h: nat, prev: nat, cur: nat)
    | Help(h: nat, prev: nat, cur: nat)
    | Returned(h: nat, o: nat, result: Result, chained: bool)
    | Overflow(h: nat, prev: nat, cur: nat)
    | FindHome(h: nat, sure: bool)
    | FindLink(h: nat, o: nat, sure: bool)
    | FindVisit(h: nat, o: nat, sure: bool)
    | FindDone(h: nat, found: Option<nat>, sure: bool)

  /** `first` is deltas 0 to 3 of the cell groups, `next` is deltas 4 to 7. */
  datatype Table = Table(hashes: seq<nat>, first: seq<nat>, next: seq<nat>)

  datatype State = State(table: Table, threads: seq<PC>)

  datatype Action = StartInsert(h: nat) | StartFind(h: nat) | Go

  ghost predicate Shape(tb: Table) {
    |tb.hashes| > 0 && |tb.first| == |tb.hashes| && |tb.next| == |tb.hashes|
  }

  function Bucket(tb: Table, h: nat): nat
    requires |tb.hashes| > 0
  {
    Home(|tb.hashes|, h)
  }

  /** The hash at offset o of bucket b. */
  function HashAt(tb: Table, b: nat, o: nat): nat
    requires b < |tb.hashes| && o < |tb.hashes|
  {
    tb.hashes[Pos(|tb.hashes|, b, o)]
  }

  /** The delta at offset o of bucket b. */
  function Link(tb: Table, b: nat, o: nat): nat
    requires |tb.first| == |tb.next| == |tb.hashes| && b < |tb.hashes| && o < |tb.hashes|
  {
    if o == 0 then tb.first[b] else tb.next[Pos(|tb.hashes|, b, o)]
  }

  function SetLink(tb: Table, b: nat, o: nat, delta: nat): Table
    requires |tb.first| == |tb.next| == |tb.hashes| && b < |tb.hashes| && o < |tb.hashes|
  {
    if o == 0 then tb.(first := tb.first[b := delta]) else tb.(next := tb.next[Pos(|tb.hashes|, b, o) := delta])
  }

  function SetHash(tb: Table, b: nat, o: nat, h: nat): Table
    requires b < |tb.hashes| && o < |tb.hashes|
  {
    tb.(hashes := tb.hashes[Pos(|tb.hashes|, b, o) := h])
  }

  predicate Member(tb: Table, b: nat, o: nat)
    requires b < |tb.hashes| && o < |tb.hashes|
  {
    HashAt(tb, b, o) != NULL && Bucket(tb, HashAt(tb, b, o)) == b
  }

  predicate Node(tb: Table, b: nat, o: nat)
    requires b < |tb.hashes| && o < |tb.hashes|
  {
    o == 0 || Member(tb, b, o)
  }

  /** How far the linear search from offset prev may go. */
  function SearchEnd(n: nat, prev: nat): nat
    requires prev < n
  {
    if n - 1 - prev <= LINEAR_SEARCH_LIMIT then n - 1 else prev + LINEAR_SEARCH_LIMIT
  }

  // ---------------------------------------------------------------- steps

  /** The step of a thread at pc: the new table and the thread's new program counter. */
  function Effect(tb: Table, pc: PC): (Table, PC)
    requires Shape(tb) && Bounded(tb, pc) && Running(pc)
  {
    var n := |tb.hashes|;
    var b := Bucket(tb, pc.h);
    match pc
    case LoadHome(h) =>
      var probe := tb.hashes[b];
      (tb, if probe == NULL then CasHome(h) else AfterHome(h, probe))
    case CasHome(h) =>
      if tb.hashes[b] == NULL then (SetHash(tb, b, 0, h), Returned(h, 0, InsertedNew, true))
      else (tb, AfterHome(h, tb.hashes[b]))
    case Follow(h, o) =>
      var delta := Link(tb, b, o);
      (tb, if delta != 0 then Visit(h, o + delta) else AfterProbe(n, h, o, o))
    case Visit(h, o) =>
      var probe := HashAt(tb, b, o);
      (tb, if probe == NULL then pc else if probe == h then Returned(h, o, AlreadyFound, true) else Follow(h, o))
    case Search(h, prev, cur) =>
      var probe := HashAt(tb, b, cur);
      (tb, if probe == NULL then CasCell(h, prev, cur) else AfterSearch(tb, h, prev, cur, probe))
    case CasCell(h, prev, cur) =>
      var probe := HashAt(tb, b, cur);
      if probe == NULL then (SetHash(tb, b, cur, h), LinkOwn(h, prev, cur))
      else (tb, AfterSearch(tb, h, prev, cur, probe))
    case LinkOwn(h, prev, cur) => (SetLink(tb, b, prev, cur - prev), Returned(h, cur, InsertedNew, true))
    case Help(h, prev, cur) => (SetLink(tb, b, prev, cur - prev), Follow(h, cur))
    case FindHome(h, sure) =>
      (tb, if tb.hashes[b] == h then FindDone(h, Some(0), sure)
           else if tb.hashes[b] == NULL then FindDone(h, None, sure)
           else FindLink(h, 0, sure))
    case FindLink(h, o, sure) =>
      var delta := Link(tb, b, o);
      (tb, if delta == 0 then FindDone(h, None, sure) else FindVisit(h, o + delta, sure))
    case FindVisit(h, o, sure) =>
      (tb, if HashAt(tb, b, o) == h then FindDone(h, Some(o), sure) else FindLink(h, o, sure))
  }

  /** The home cell holds hash probe. */
  function AfterHome(h: nat, probe: nat): PC {
    if probe == h then Returned(h, 0, AlreadyFound, true) else Follow(h, 0)
  }

  /** The linear search has passed offset cur: on to the next cell, if the limit allows. */
  function AfterProbe(n: nat, h: nat, prev: nat, cur: nat): PC
    requires prev < n
  {
    if cur < SearchEnd(n, prev) then Search(h, prev, cur + 1) else Overflow(h, prev, cur)
  }

  /** The linear search meets hash probe at offset cur. */
  function AfterSearch(tb: Table, h: nat, prev: nat, cur: nat, probe: nat): PC
    requires prev < |tb.hashes|
  {
    if probe == h then Returned(h, cur, AlreadyFound, false)
    else if Bucket(tb, probe) == Bucket(tb, h) then Help(h, prev, cur)
    else AfterProbe(|tb.hashes|, h, prev, cur)
  }

  predicate Running(pc: PC) {
    !pc.Idle? && !pc.Returned? && !pc.Overflow? && !pc.FindDone?
  }

  predicate Bounded(tb: Table, pc: PC) {
    match pc
    case Follow(_, o) => o < |tb.hashes|
    case Visit(_, o) => o < |tb.hashes|
    case Search(_, prev, cur) => prev < cur < |tb.hashes|
    case CasCell(_, prev, cur) => prev < cur < |tb.hashes|
    case LinkOwn(_, prev, cur) => prev < cur < |tb.hashes|
    case Help(_, prev, cur) => prev < cur < |tb.hashes|
    case FindLink(_, o, _) => o < |tb.hashes|
    case FindVisit(_, o, _) => o < |tb.hashes|
    case _ => true
  }

  ghost predicate Enabled(st: State, t: nat, a: Action) {
    && t < |st.threads|
    && Shape(st.table)
    && if a.Go? then Running(st.threads[t]) && Bounded(st.table, st.threads[t]) else !Running(st.threads[t]) && a.h != NULL
  }

  ghost function Step(st: State, t: nat, a: Action): State
    requires Enabled(st, t, a)
  {
    match a
    case StartInsert(h) => st.(threads := st.threads[t := LoadHome(h)])
    case StartFind(h) => st.(threads := st.threads[t := FindHome(h, Chained(st.table, h))])
    case Go =>
      var (tb, pc) := Effect(st.table, st.threads[t]);
      State(tb, st.threads[t := pc])
  }

  // ---------------------------------------------------------------- invariant

  ghost predicate Passed(tb: Table, h: nat, o: nat)
    requires |tb.hashes| > 0 && o <= |tb.hashes|
  {
    forall j :: 0 <= j < o ==> HashAt(tb, Bucket(tb, h), j) != NULL && HashAt(tb, Bucket(tb, h), j) != h
  }

  /** No cell strictly between offsets lo and hi is empty or belongs to bucket b. */
  ghost predicate Foreign(tb: Table, b: nat, lo: nat, hi: nat)
    requires b < |tb.hashes| && hi <= |tb.hashes|
  {
    forall j :: lo < j < hi ==> HashAt(tb, b, j) != NULL && !Member(tb, b, j)
  }

  /** Every link of bucket b below offset o has been set. */
  ghost predicate ChainTo(tb: Table, b: nat, o: nat)
    requires Shape(tb) && b < |tb.hashes| && o <= |tb.hashes|
  {
    forall m :: 0 <= m < o && Node(tb, b, m) ==> Link(tb, b, m) != 0
  }

  ghost predicate ChainedAt(tb: Table, h: nat, o: nat)
    requires Shape(tb)
  {
    o < |tb.hashes| && HashAt(tb, Bucket(tb, h), o) == h && ChainTo(tb, Bucket(tb, h), o)
  }

  /** Hash h is in the table and can be reached through the links. */
  ghost predicate Chained(tb: Table, h: nat)
    requires Shape(tb)
  {
    exists o :: 0 <= o < |tb.hashes| && ChainedAt(tb, h, o)
  }

  /** A set link is exactly the distance to the next cell of the same bucket. */
  ghost predicate LinkOk(tb: Table, b: nat, o: nat)
    requires Shape(tb) && b < |tb.hashes| && o < |tb.hashes|
  {
    var delta := Link(tb, b, o);
    delta != 0 ==>
      delta <= LINEAR_SEARCH_LIMIT && o + delta < |tb.hashes| && Member(tb, b, o + delta) && Foreign(tb, b, o, o + delta)
  }

  ghost predicate TableOk(tb: Table)
    requires Shape(tb)
  {
    && (forall i, j :: 0 <= i < j < |tb.hashes| && tb.hashes[i] != NULL ==> tb.hashes[i] != tb.hashes[j])
    && (forall i :: 0 <= i < |tb.hashes| && tb.hashes[i] != NULL ==>
          Passed(tb, tb.hashes[i], Off(|tb.hashes|, Bucket(tb, tb.hashes[i]), i)))
    && (forall i :: 0 <= i < |tb.hashes| && tb.hashes[i] == NULL ==> tb.next[i] == 0)
    && (forall b, o :: 0 <= b < |tb.hashes| && 0 <= o < |tb.hashes| && Node(tb, b, o) ==> LinkOk(tb, b, o))
  }

  /** The end of the chain so far is at offset prev, and no cell of the bucket lies between prev and cur. */
  ghost predicate AtTail(tb: Table, h: nat, prev: nat, cur: nat)
    requires Shape(tb)
  {
    && prev < cur < |tb.hashes|
    && cur <= SearchEnd(|tb.hashes|, prev)
    && Node(tb, Bucket(tb, h), prev)
    && ChainTo(tb, Bucket(tb, h), prev)
    && Foreign(tb, Bucket(tb, h), prev, cur)
  }

  ghost predicate ThreadOk(tb: Table, pc: PC)
    requires Shape(tb)
  {
    match pc
    case Idle => true
    case LoadHome(h) => h != NULL
    case CasHome(h) => h != NULL
    case Follow(h, o) =>
      h != NULL && o < |tb.hashes| && Node(tb, Bucket(tb, h), o) && Passed(tb, h, o + 1) && ChainTo(tb, Bucket(tb, h), o)
    case Visit(h, o) =>
      h != NULL && o < |tb.hashes| && Member(tb, Bucket(tb, h), o) && Passed(tb, h, o) && ChainTo(tb, Bucket(tb, h), o)
    case Search(h, prev, cur) => h != NULL && AtTail(tb, h, prev, cur) && Passed(tb, h, cur)
    case CasCell(h, prev, cur) => h != NULL && AtTail(tb, h, prev, cur) && Passed(tb, h, cur)
    case LinkOwn(h, prev, cur) => h != NULL && AtTail(tb, h, prev, cur) && HashAt(tb, Bucket(tb, h), cur) == h
    case Help(h, prev, cur) =>
      h != NULL && AtTail(tb, h, prev, cur) && Passed(tb, h, cur + 1) && Member(tb, Bucket(tb, h), cur)
    case Returned(h, o, _, chained) =>
      h != NULL && o < |tb.hashes| && HashAt(tb, Bucket(tb, h), o) == h && (chained ==> ChainTo(tb, Bucket(tb, h), o))
    case Overflow(h, prev, cur) =>
      h != NULL && prev < |tb.hashes| && cur == SearchEnd(|tb.hashes|, prev) && Passed(tb, h, cur + 1)
    case FindHome(h, sure) => h != NULL && (sure ==> Chained(tb, h))
    case FindLink(h, o, sure) =>
      h != NULL && o < |tb.hashes| && Node(tb, Bucket(tb, h), o) && Passed(tb, h, o + 1) && (sure ==> Chained(tb, h))
    case FindVisit(h, o, sure) =>
      h != NULL && o < |tb.hashes| && Member(tb, Bucket(tb, h), o) && Passed(tb, h, o) && (sure ==> Chained(tb, h))
    case FindDone(h, found, sure) =>
      && (sure ==> found.Some?)
      && (found.Some? ==> h != NULL && found.value < |tb.hashes| && HashAt(tb, Bucket(tb, h), found.value) == h)
  }

  ghost predicate Inv(st: State) {
    && Shape(st.table)
    && TableOk(st.table)
    && forall t :: 0 <= t < |st.threads| ==> ThreadOk(st.table, st.threads[t])
  }

  // ---------------------------------------------------------------- how a table grows

  /** Reserved cells keep their hash and set links keep their value. */
  ghost predicate Grows(tb: Table, tb': Table) {
    && Shape(tb) && Shape(tb') && |tb'.hashes| == |tb.hashes|
    && (forall i :: 0 <= i < |tb.hashes| && tb.hashes[i] != NULL ==> tb'.hashes[i] == tb.hashes[i])
    && (forall i :: 0 <= i < |tb.hashes| && tb.first[i] != 0 ==> tb'.first[i] == tb.first[i])
    && (forall i :: 0 <= i < |tb.hashes| && tb.next[i] != 0 ==> tb'.next[i] == tb.next[i])
  }

  lemma PassedStays(tb: Table, tb': Table, h: nat, o: nat)
    requires Grows(tb, tb') && o <= |tb.hashes| && Passed(tb, h, o)
    ensures Passed(tb', h, o)
  {
    forall j | 0 <= j < o ensures HashAt(tb', Bucket(tb', h), j) != NULL && HashAt(tb', Bucket(tb', h), j) != h {
      assert HashAt(tb, Bucket(tb, h), j) != NULL;
    }
  }

  lemma ForeignStays(tb: Table, tb': Table, b: nat, lo: nat, hi: nat)
    requires Grows(tb, tb') && b < |tb.hashes| && hi <= |tb.hashes| && Foreign(tb, b, lo, hi)
    ensures Foreign(tb', b, lo, hi)
  {
    forall j | lo < j < hi ensures HashAt(tb', b, j) != NULL && !Member(tb', b, j) {
      assert HashAt(tb, b, j) != NULL;
    }
  }

  /** Below a cell that all earlier cells lead up to, no new member can appear. */
  lemma ChainStays(tb: Table, tb': Table, h: nat, o: nat, q: nat)
    requires Grows(tb, tb') && o <= q <= |tb.hashes| && ChainTo(tb, Bucket(tb, h), o) && Passed(tb, h, q)
    ensures ChainTo(tb', Bucket(tb', h), o)
  {
    var b := Bucket(tb, h);
    forall m | 0 <= m < o && Node(tb', b, m) ensures Link(tb', b, m) != 0 {
      assert HashAt(tb, b, m) != NULL;
      assert Node(tb, b, m);
      assert Link(tb, b, m) != 0;
    }
  }

  lemma PresentPassed(tb: Table, h: nat, o: nat)
    requires Shape(tb) && TableOk(tb) && h != NULL && o < |tb.hashes| && HashAt(tb, Bucket(tb, h), o) == h
    ensures Passed(tb, h, o)
  {
    OffPos(|tb.hashes|, Bucket(tb, h), o);
  }

  lemma ChainedStays(tb: Table, tb': Table, h: nat)
    requires Grows(tb, tb') && TableOk(tb) && h != NULL && Chained(tb, h)
    ensures Chained(tb', h)
  {
    var o :| 0 <= o < |tb.hashes| && ChainedAt(tb, h, o);
    PresentPassed(tb, h, o);
    ChainStays(tb, tb', h, o, o);
    assert ChainedAt(tb', h, o);
  }

  /** No cell holds a hash whose cells from home on are passed and that would be reserved next. */
  lemma NullMeansAbsent(tb: Table, h: nat, o: nat)
    requires Shape(tb) && TableOk(tb) && h != NULL && o < |tb.hashes| && Passed(tb, h, o) && HashAt(tb, Bucket(tb, h), o) == NULL
    ensures forall i :: 0 <= i < |tb.hashes| ==> tb.hashes[i] != h
  {
    forall i | 0 <= i < |tb.hashes| ensures tb.hashes[i] != h {
      assert HashAt(tb, Bucket(tb, h), Off(|tb.hashes|, Bucket(tb, h), i)) == tb.hashes[i];
    }
  }

  lemma ReserveLinks(tb: Table, h: nat, o: nat)
    requires Shape(tb) && TableOk(tb) && h != NULL && o < |tb.hashes| && HashAt(tb, Bucket(tb, h), o) == NULL
    requires Grows(tb, SetHash(tb, Bucket(tb, h), o, h))
    ensures var tb' := SetHash(tb, Bucket(tb, h), o, h);
            forall b', o' :: 0 <= b' < |tb.hashes| && 0 <= o' < |tb.hashes| && Node(tb', b', o') ==> LinkOk(tb', b', o')
  {
    var b := Bucket(tb, h);
    var tb' := SetHash(tb, b, o, h);
    OffPos(|tb.hashes|, b, o);
    forall b', o' | 0 <= b' < |tb.hashes| && 0 <= o' < |tb.hashes| && Node(tb', b', o') ensures LinkOk(tb', b', o') {
      OffPos(|tb.hashes|, b', o');
      if Node(tb, b', o') {
        var delta := Link(tb, b', o');
        assert LinkOk(tb, b', o');
        if delta != 0 {
          ForeignStays(tb, tb', b', o', o' + delta);
          assert HashAt(tb, b', o' + delta) != NULL;
        }
      } else {
        assert Link(tb', b', o') == 0;
      }
    }
  }

  lemma ReserveKeepsTable(tb: Table, h: nat, o: nat)
    requires Shape(tb) && TableOk(tb) && h != NULL && o < |tb.hashes| && Passed(tb, h, o) && HashAt(tb, Bucket(tb, h), o) == NULL
    ensures var tb' := SetHash(tb, Bucket(tb, h), o, h); Grows(tb, tb') && TableOk(tb')
  {
    var b := Bucket(tb, h);
    var tb' := SetHash(tb, b, o, h);
    NullMeansAbsent(tb, h, o);
    ReserveLinks(tb, h, o);
    forall i | 0 <= i < |tb'.hashes| && tb'.hashes[i] != NULL
      ensures Passed(tb', tb'.hashes[i], Off(|tb'.hashes|, Bucket(tb', tb'.hashes[i]), i))
    {
      if i == Pos(|tb.hashes|, b, o) {
        OffPos(|tb.hashes|, b, o);
        PassedStays(tb, tb', h, o);
      } else {
        PassedStays(tb, tb', tb.hashes[i], Off(|tb.hashes|, Bucket(tb, tb.hashes[i]), i));
      }
    }
  }

  /** Two links of different nodes are stored in different places. */
  lemma LinksApart(tb: Table, b: nat, o: nat, b': nat, o': nat, delta: nat)
    requires Shape(tb) && b < |tb.hashes| && o < |tb.hashes| && b' < |tb.hashes| && o' < |tb.hashes|
    requires Node(tb, b, o) && Node(tb, b', o') && (b' != b || o' != o)
    ensures Link(SetLink(tb, b, o, delta), b', o') == Link(tb, b', o')
  {
    OffPos(|tb.hashes|, b, o);
    OffPos(|tb.hashes|, b', o');
  }

  /** A link that is already set at the end of a chain is the one about to be stored. */
  lemma LinkIsExact(tb: Table, h: nat, prev: nat, cur: nat)
    requires Shape(tb) && TableOk(tb) && AtTail(tb, h, prev, cur) && Member(tb, Bucket(tb, h), cur)
    ensures Link(tb, Bucket(tb, h), prev) == 0 || Link(tb, Bucket(tb, h), prev) == cur - prev
  {
    var b := Bucket(tb, h);
    var delta := Link(tb, b, prev);
    assert LinkOk(tb, b, prev);
    hide TableOk;
    if delta != 0 {
      NextMember(tb, b, prev, prev + delta, cur);
    }
  }

  /** A node has one next member. */
  lemma NextMember(tb: Table, b: nat, o: nat, x: nat, y: nat)
    requires b < |tb.hashes| && o < x < |tb.hashes| && o < y < |tb.hashes|
    requires Foreign(tb, b, o, x) && Member(tb, b, x) && Foreign(tb, b, o, y) && Member(tb, b, y)
    ensures x == y
  {
  }

  lemma LinkStaysOk(tb: Table, tb': Table, b: nat, o: nat)
    requires Grows(tb, tb') && tb'.hashes == tb.hashes && b < |tb.hashes| && o < |tb.hashes|
    requires LinkOk(tb, b, o) && Link(tb', b, o) == Link(tb, b, o)
    ensures LinkOk(tb', b, o)
  {
    if Link(tb, b, o) != 0 {
      ForeignStays(tb, tb', b, o, o + Link(tb, b, o));
    }
  }

  lemma LinkLinks(tb: Table, h: nat, prev: nat, cur: nat)
    requires Shape(tb) && TableOk(tb) && AtTail(tb, h, prev, cur) && Member(tb, Bucket(tb, h), cur)
    requires Grows(tb, SetLink(tb, Bucket(tb, h), prev, cur - prev))
    ensures var tb' := SetLink(tb, Bucket(tb, h), prev, cur - prev);
            && Link(tb', Bucket(tb, h), prev) == cur - prev
            && (forall b', o' :: 0 <= b' < |tb.hashes| && 0 <= o' < |tb.hashes| && Node(tb', b', o') ==> LinkOk(tb', b', o'))
  {
    var b := Bucket(tb, h);
    var tb' := SetLink(tb, b, prev, cur - prev);
    ForeignStays(tb, tb', b, prev, cur);
    assert Node(tb, b, prev);
    hide AtTail;
    forall b', o' | 0 <= b' < |tb.hashes| && 0 <= o' < |tb.hashes| && Node(tb', b', o') ensures LinkOk(tb', b', o') {
      if b' != b || o' != prev {
        assert Node(tb, b', o') && LinkOk(tb, b', o');
        LinksApart(tb, b, prev, b', o', cur - prev);
        LinkStaysOk(tb, tb', b', o');
      }
    }
  }

  /** Setting the link at the end of a chain: whoever does it, the value is the distance to the next cell of the bucket. */
  lemma LinkKeepsTable(tb: Table, h: nat, prev: nat, cur: nat)
    requires Shape(tb) && TableOk(tb) && AtTail(tb, h, prev, cur) && Member(tb, Bucket(tb, h), cur)
    requires Passed(tb, h, prev + 1)
    ensures var tb' := SetLink(tb, Bucket(tb, h), prev, cur - prev);
            Grows(tb, tb') && TableOk(tb') && Link(tb', Bucket(tb, h), prev) == cur - prev
  {
    var b := Bucket(tb, h);
    var tb' := SetLink(tb, b, prev, cur - prev);
    LinkIsExact(tb, h, prev, cur);
    assert HashAt(tb, b, prev) != NULL;
    assert Grows(tb, tb');
    LinkLinks(tb, h, prev, cur);
    hide LinkOk, AtTail;
    forall i | 0 <= i < |tb.hashes| && tb.hashes[i] != NULL
      ensures Passed(tb', tb'.hashes[i], Off(|tb'.hashes|, Bucket(tb', tb'.hashes[i]), i))
    {
      PassedStays(tb, tb', tb.hashes[i], Off(|tb.hashes|, Bucket(tb, tb.hashes[i]), i));
    }
  }

  lemma ReaderOk(tb: Table, tb': Table, pc: PC)
    requires Grows(tb, tb') && TableOk(tb) && ThreadOk(tb, pc) && (pc.FindHome? || pc.FindLink? || pc.FindVisit?)
    ensures ThreadOk(tb', pc)
  {
    if pc.sure { ChainedStays(tb, tb', pc.h); }
    hide TableOk, Chained;
    match pc
    case FindHome(_, _) =>
    case FindLink(h, o, _) => PassedStays(tb, tb', h, o + 1);
    case FindVisit(h, o, _) => PassedStays(tb, tb', h, o);
  }

  lemma SearcherOk(tb: Table, tb': Table, pc: PC)
    requires Grows(tb, tb') && TableOk(tb) && ThreadOk(tb, pc) && (pc.Search? || pc.CasCell? || pc.LinkOwn? || pc.Help?)
    ensures ThreadOk(tb', pc)
  {
    var b := Bucket(tb, pc.h);
    if pc.LinkOwn? { PresentPassed(tb, pc.h, pc.cur); }
    assert Passed(tb, pc.h, pc.cur);
    TailStays(tb, tb', pc.h, pc.prev, pc.cur);
    PassedStays(tb, tb', pc.h, pc.cur);
    if pc.Help? { PassedStays(tb, tb', pc.h, pc.cur + 1); }
    hide TableOk, AtTail, Passed;
  }

  lemma BystanderOk(tb: Table, tb': Table, pc: PC)
    requires Grows(tb, tb') && TableOk(tb) && ThreadOk(tb, pc)
    ensures ThreadOk(tb', pc)
  {
    if pc.FindHome? || pc.FindLink? || pc.FindVisit? {
      ReaderOk(tb, tb', pc);
    } else if pc.Search? || pc.CasCell? || pc.LinkOwn? || pc.Help? {
      SearcherOk(tb, tb', pc);
    } else {
      hide TableOk;
      match pc
      case Follow(h, o) => PassedStays(tb, tb', h, o + 1); ChainStays(tb, tb', h, o, o + 1);
      case Visit(h, o) => PassedStays(tb, tb', h, o); ChainStays(tb, tb', h, o, o);
      case Returned(h, o, _, chained) => PresentPassed(tb, h, o); if chained { ChainStays(tb, tb', h, o, o); }
      case Overflow(h, prev, cur) => PassedStays(tb, tb', h, cur + 1);
      case _ =>
    }
  }

  lemma TailStays(tb: Table, tb': Table, h: nat, prev: nat, cur: nat)
    requires Grows(tb, tb') && AtTail(tb, h, prev, cur) && Passed(tb, h, cur)
    ensures AtTail(tb', h, prev, cur)
  {
    ChainStays(tb, tb', h, prev, cur);
    ForeignStays(tb, tb', Bucket(tb, h), prev, cur);
    assert HashAt(tb, Bucket(tb, h), prev) != NULL;
  }

  // ---------------------------------------------------------------- the moving thread

  /** Following a set link skips only cells of other buckets. */
  lemma FollowLink(tb: Table, h: nat, o: nat)
    requires Shape(tb) && TableOk(tb) && h != NULL && o < |tb.hashes| && Node(tb, Bucket(tb, h), o)
    requires Passed(tb, h, o + 1) && Link(tb, Bucket(tb, h), o) != 0
    ensures var to := o + Link(tb, Bucket(tb, h), o);
            && to < |tb.hashes| && Member(tb, Bucket(tb, h), to) && Passed(tb, h, to)
            && (ChainTo(tb, Bucket(tb, h), o) ==> ChainTo(tb, Bucket(tb, h), to))
  {
    var b := Bucket(tb, h);
    var to := o + Link(tb, b, o);
    assert LinkOk(tb, b, o);
    forall j | 0 <= j < to ensures HashAt(tb, b, j) != NULL && HashAt(tb, b, j) != h {
      assert o < j ==> !Member(tb, b, j);
    }
  }

  /** The linear search moves past a cell of another bucket. */
  lemma SearchOn(tb: Table, h: nat, prev: nat, cur: nat)
    requires Shape(tb) && h != NULL && AtTail(tb, h, prev, cur) && Passed(tb, h, cur) && HashAt(tb, Bucket(tb, h), cur) != NULL
    ensures ThreadOk(tb, AfterSearch(tb, h, prev, cur, HashAt(tb, Bucket(tb, h), cur)))
  {
    var probe := HashAt(tb, Bucket(tb, h), cur);
    if probe != h {
      assert Passed(tb, h, cur + 1);
    }
  }

  /** A hash that is chained is never missed: the link at any earlier node of its bucket is set. */
  lemma SureFinds(tb: Table, h: nat, o: nat)
    requires Shape(tb) && h != NULL && o < |tb.hashes| && Node(tb, Bucket(tb, h), o) && Passed(tb, h, o + 1) && Chained(tb, h)
    ensures Link(tb, Bucket(tb, h), o) != 0
  {
    var p :| 0 <= p < |tb.hashes| && ChainedAt(tb, h, p);
    assert p > o;
  }

  lemma SureHome(tb: Table, h: nat)
    requires Shape(tb) && TableOk(tb) && h != NULL && Chained(tb, h)
    ensures tb.hashes[Bucket(tb, h)] != NULL
  {
    var p :| 0 <= p < |tb.hashes| && ChainedAt(tb, h, p);
    PresentPassed(tb, h, p);
    hide TableOk;
    assert HashAt(tb, Bucket(tb, h), 0) == tb.hashes[Bucket(tb, h)];
    assert p > 0 ==> HashAt(tb, Bucket(tb, h), 0) != NULL;
  }

  lemma HomeStepOk(tb: Table, pc: PC)
    requires Shape(tb) && Bounded(tb, pc) && Running(pc) && ThreadOk(tb, pc)
    requires Effect(tb, pc).0 == tb && (pc.LoadHome? || pc.CasHome?)
    ensures ThreadOk(tb, Effect(tb, pc).1)
  {
    assert HashAt(tb, Bucket(tb, pc.h), 0) == tb.hashes[Bucket(tb, pc.h)];
  }

  lemma ChainStepOk(tb: Table, pc: PC)
    requires Shape(tb) && TableOk(tb) && Bounded(tb, pc) && Running(pc) && ThreadOk(tb, pc)
    requires Effect(tb, pc).0 == tb && (pc.Follow? || pc.Visit?)
    ensures ThreadOk(tb, Effect(tb, pc).1)
  {
    var b := Bucket(tb, pc.h);
    if pc.Follow? {
      if Link(tb, b, pc.o) != 0 { FollowLink(tb, pc.h, pc.o); }
    } else if HashAt(tb, b, pc.o) != pc.h {
      assert Passed(tb, pc.h, pc.o + 1);
    }
    hide TableOk;
  }

  lemma SearchStepOk(tb: Table, pc: PC)
    requires Shape(tb) && Bounded(tb, pc) && Running(pc) && ThreadOk(tb, pc)
    requires Effect(tb, pc).0 == tb && (pc.Search? || pc.CasCell?)
    ensures ThreadOk(tb, Effect(tb, pc).1)
  {
    if HashAt(tb, Bucket(tb, pc.h), pc.cur) != NULL { SearchOn(tb, pc.h, pc.prev, pc.cur); }
    hide Passed, AtTail, Foreign;
  }

  lemma ReadStepOk(tb: Table, pc: PC)
    requires Shape(tb) && TableOk(tb) && Bounded(tb, pc) && Running(pc) && ThreadOk(tb, pc)
    requires Effect(tb, pc).0 == tb && (pc.LoadHome? || pc.CasHome? || pc.Follow? || pc.Visit? || pc.Search? || pc.CasCell?)
    ensures ThreadOk(tb, Effect(tb, pc).1)
  {
    hide TableOk, ThreadOk, Effect;
    if pc.LoadHome? || pc.CasHome? {
      HomeStepOk(tb, pc);
    } else if pc.Follow? || pc.Visit? {
      ChainStepOk(tb, pc);
    } else {
      SearchStepOk(tb, pc);
    }
  }

  lemma FindLinkOk(tb: Table, h: nat, o: nat, sure: bool)
    requires Shape(tb) && TableOk(tb) && ThreadOk(tb, FindLink(h, o, sure))
    ensures ThreadOk(tb, Effect(tb, FindLink(h, o, sure)).1)
  {
    hide TableOk, Chained, Passed, ChainTo, Node;
    if sure { SureFinds(tb, h, o); }
    if Link(tb, Bucket(tb, h), o) != 0 { FollowLink(tb, h, o); }
    hide Link, Member;
  }

  lemma FindHomeOk(tb: Table, h: nat, sure: bool)
    requires Shape(tb) && TableOk(tb) && ThreadOk(tb, FindHome(h, sure))
    ensures ThreadOk(tb, Effect(tb, FindHome(h, sure)).1)
  {
    hide Chained;
    if sure { SureHome(tb, h); }
    assert HashAt(tb, Bucket(tb, h), 0) == tb.hashes[Bucket(tb, h)];
    hide TableOk;
  }

  lemma FindVisitOk(tb: Table, h: nat, o: nat, sure: bool)
    requires Shape(tb) && ThreadOk(tb, FindVisit(h, o, sure))
    ensures ThreadOk(tb, Effect(tb, FindVisit(h, o, sure)).1)
  {
    hide Chained;
    if HashAt(tb, Bucket(tb, h), o) != h { assert Passed(tb, h, o + 1); }
    hide Passed;
  }

  lemma FindStepOk(tb: Table, pc: PC)
    requires Shape(tb) && TableOk(tb) && Bounded(tb, pc) && Running(pc) && ThreadOk(tb, pc)
    requires pc.FindHome? || pc.FindLink? || pc.FindVisit?
    ensures Effect(tb, pc).0 == tb && ThreadOk(tb, Effect(tb, pc).1)
  {
    hide TableOk, ThreadOk, Link, HashAt, Bucket;
    match pc
    case FindHome(h, sure) => FindHomeOk(tb, h, sure);
    case FindLink(h, o, sure) => FindLinkOk(tb, h, o, sure);
    case FindVisit(h, o, sure) => FindVisitOk(tb, h, o, sure);
  }

  lemma EffectOk(tb: Table, pc: PC)
    requires Shape(tb) && TableOk(tb) && Bounded(tb, pc) && Running(pc) && ThreadOk(tb, pc)
    ensures var (tb', pc') := Effect(tb, pc); Grows(tb, tb') && TableOk(tb') && ThreadOk(tb', pc')
  {
    var (tb', pc') := Effect(tb, pc);
    if pc.FindHome? || pc.FindLink? || pc.FindVisit? {
      FindStepOk(tb, pc);
    } else if pc.CasHome? && tb.hashes[Bucket(tb, pc.h)] == NULL {
      ReserveKeepsTable(tb, pc.h, 0);
    } else if pc.CasCell? && HashAt(tb, Bucket(tb, pc.h), pc.cur) == NULL {
      ReserveKeepsTable(tb, pc.h, pc.cur);
      TailStays(tb, tb', pc.h, pc.prev, pc.cur);
    } else if pc.LinkOwn? || pc.Help? {
      LinkStepOk(tb, pc);
    } else {
      ReadStepOk(tb, pc);
    }
  }

  lemma LinkStepOk(tb: Table, pc: PC)
    requires Shape(tb) && TableOk(tb) && Bounded(tb, pc) && ThreadOk(tb, pc) && (pc.LinkOwn? || pc.Help?)
    ensures var (tb', pc') := Effect(tb, pc); Grows(tb, tb') && TableOk(tb') && ThreadOk(tb', pc')
  {
    hide TableOk, Foreign;
    var (tb', pc') := Effect(tb, pc);
    var b := Bucket(tb, pc.h);
    if pc.LinkOwn? {
      PresentPassed(tb, pc.h, pc.cur);
    }
    assert Passed(tb, pc.h, pc.cur) && Passed(tb, pc.h, pc.prev + 1);
    LinkKeepsTable(tb, pc.h, pc.prev, pc.cur);
    TailStays(tb, tb', pc.h, pc.prev, pc.cur);
    PassedStays(tb, tb', pc.h, if pc.Help? then pc.cur + 1 else pc.cur);
    hide TableOk, Grows;
    LinkedTail(tb', pc.h, pc.prev, pc.cur);
  }

  lemma LinkedTail(tb: Table, h: nat, prev: nat, cur: nat)
    requires Shape(tb) && AtTail(tb, h, prev, cur) && Link(tb, Bucket(tb, h), prev) != 0
    ensures ChainTo(tb, Bucket(tb, h), cur)
  {
    var b := Bucket(tb, h);
    forall m | 0 <= m < cur && Node(tb, b, m) ensures Link(tb, b, m) != 0 {
    }
  }

  lemma StepKeepsInv(st: State, t: nat, a: Action)
    requires Inv(st) && Enabled(st, t, a)
    ensures Inv(Step(st, t, a)) && Grows(st.table, Step(st, t, a).table)
  {
    var st' := Step(st, t, a);
    if a.Go? {
      EffectOk(st.table, st.threads[t]);
    }
    assert Grows(st.table, st'.table);
    hide TableOk, Effect;
    forall t' | 0 <= t' < |st.threads| && t' != t ensures ThreadOk(st'.table, st'.threads[t']) {
      BystanderOk(st.table, st'.table, st.threads[t']);
    }
  }

  // ---------------------------------------------------------------- what callers rely on

  ghost predicate Absent(tb: Table, h: nat) {
    forall i :: 0 <= i < |tb.hashes| ==> tb.hashes[i] != h
  }

  /** In every reachable table no hash occupies two cells, and a set link of a node leads to the next cell of its bucket. */
  lemma ChainsAreExact(st: State, i: nat, j: nat, b: nat, o: nat)
    requires Inv(st) && i < |st.table.hashes| && j < |st.table.hashes| && b < |st.table.hashes| && o < |st.table.hashes|
    ensures st.table.hashes[i] == st.table.hashes[j] != NULL ==> i == j
    ensures Node(st.table, b, o) && Link(st.table, b, o) != 0 ==>
              var to := o + Link(st.table, b, o);
              && to < |st.table.hashes| && Member(st.table, b, to)
              && forall m :: o < m < to ==> !Member(st.table, b, m)
  {
    assert Node(st.table, b, o) ==> LinkOk(st.table, b, o);
  }

  /** Reserved cells keep their hash, and a link never changes once set, whoever stores it again. */
  lemma LinksNeverChange(st: State, t: nat, a: Action, i: nat)
    requires Inv(st) && Enabled(st, t, a) && i < |st.table.hashes|
    ensures var tb, tb' := st.table, Step(st, t, a).table;
            && (tb.hashes[i] != NULL ==> tb'.hashes[i] == tb.hashes[i])
            && (tb.first[i] != 0 ==> tb'.first[i] == tb.first[i])
            && (tb.next[i] != 0 ==> tb'.next[i] == tb.next[i])
  {
    StepKeepsInv(st, t, a);
  }

  lemma ReservedIsNew(tb: Table, pc: PC)
    requires Shape(tb) && TableOk(tb) && Bounded(tb, pc) && Running(pc) && ThreadOk(tb, pc)
    ensures Effect(tb, pc).0.hashes != tb.hashes ==> Absent(tb, pc.h) && !Absent(Effect(tb, pc).0, pc.h)
  {
    if pc.CasHome? && tb.hashes[Bucket(tb, pc.h)] == NULL {
      assert HashAt(tb, Bucket(tb, pc.h), 0) == NULL;
      NullMeansAbsent(tb, pc.h, 0);
      hide TableOk;
      assert Effect(tb, pc).0.hashes[Bucket(tb, pc.h)] == pc.h;
    } else if pc.CasCell? && HashAt(tb, Bucket(tb, pc.h), pc.cur) == NULL {
      NullMeansAbsent(tb, pc.h, pc.cur);
      hide TableOk;
      assert Effect(tb, pc).0.hashes[Pos(|tb.hashes|, Bucket(tb, pc.h), pc.cur)] == pc.h;
    } else {
      hide TableOk, Link, Bucket, HashAt;
    }
  }

  lemma ReturnedIsPresent(tb: Table, pc: PC)
    requires Shape(tb) && pc.Returned? && ThreadOk(tb, pc)
    ensures !Absent(tb, pc.h)
  {
  }

  lemma EffectKeepsHash(tb: Table, pc: PC)
    requires Shape(tb) && Bounded(tb, pc) && Running(pc)
    ensures Effect(tb, pc).1.Returned? ==> Effect(tb, pc).1.h == pc.h
  {
    hide HashAt, Link, Bucket, SetHash, SetLink;
  }

  /** A hash is new when a thread reserves a cell for it, and present when a thread reports it found. */
  lemma AnswersAreTrue(st: State, t: nat)
    requires Inv(st) && Enabled(st, t, Go)
    ensures Step(st, t, Go).table.hashes != st.table.hashes ==>
              Absent(st.table, st.threads[t].h) && !Absent(Step(st, t, Go).table, st.threads[t].h)
    ensures Step(st, t, Go).threads[t].Returned? ==> !Absent(Step(st, t, Go).table, st.threads[t].h)
  {
    var pc := st.threads[t];
    var st' := Step(st, t, Go);
    StepKeepsInv(st, t, Go);
    assert ThreadOk(st.table, pc) && ThreadOk(st'.table, st'.threads[t]);
    hide ThreadOk, Effect, TableOk, Absent;
    ReservedIsNew(st.table, pc);
    EffectKeepsHash(st.table, pc);
    if st'.threads[t].Returned? {
      ReturnedIsPresent(st'.table, st'.threads[t]);
    }
  }

  /** What the step of a thread answers and continues with, by whether it reserves a cell. */
  ghost predicate AnswerIsRight(pc: PC, pc': PC, reserves: bool) {
    && (reserves ==> (pc.CasHome? && pc' == Returned(pc.h, 0, InsertedNew, true)) || (pc.CasCell? && pc' == LinkOwn(pc.h, pc.prev, pc.cur)))
    && (pc'.LinkOwn? ==> reserves)
    && (pc.LinkOwn? ==> pc' == Returned(pc.h, pc.cur, InsertedNew, true))
    && (pc'.Returned? && !reserves && !pc.LinkOwn? ==> pc'.result == AlreadyFound)
  }

  /**
   InsertedNew is answered exactly by the step that reserves the home cell, or links the cell that the
   same call has reserved; every other answer of an insert is AlreadyFound or an overflow.
   */
  lemma ResultsAreRight(st: State, t: nat)
    requires Inv(st) && Enabled(st, t, Go)
    ensures AnswerIsRight(st.threads[t], Step(st, t, Go).threads[t], Step(st, t, Go).table.hashes != st.table.hashes)
  {
    assert ThreadOk(st.table, st.threads[t]);
    HashIsSet(st.table, st.threads[t]);
    hide Inv, ThreadOk, Effect, AnswerIsRight;
    EffectAnswers(st.table, st.threads[t]);
  }

  lemma HashIsSet(tb: Table, pc: PC)
    requires Shape(tb) && ThreadOk(tb, pc)
    ensures pc.CasCell? || pc.CasHome? ==> pc.h != NULL
  {
  }

  lemma EffectAnswers(tb: Table, pc: PC)
    requires Shape(tb) && Bounded(tb, pc) && Running(pc) && (pc.CasCell? || pc.CasHome? ==> pc.h != NULL)
    ensures AnswerIsRight(pc, Effect(tb, pc).1, Effect(tb, pc).0.hashes != tb.hashes)
  {
    ReservedChanges(tb, pc);
    hide Link, Bucket, SetLink;
  }

  lemma ReservedChanges(tb: Table, pc: PC)
    requires Shape(tb) && Bounded(tb, pc) && Running(pc)
    ensures pc.CasCell? && pc.h != NULL && HashAt(tb, Bucket(tb, pc.h), pc.cur) == NULL ==> Effect(tb, pc).0.hashes != tb.hashes
  {
    if pc.CasCell? && pc.h != NULL && HashAt(tb, Bucket(tb, pc.h), pc.cur) == NULL {
      assert Effect(tb, pc).0.hashes[Pos(|tb.hashes|, Bucket(tb, pc.h), pc.cur)] == pc.h;
    }
  }

  /** A lookup over a quiet table: home cell first, then along the links. */
  function Walk(tb: Table, h: nat, o: nat): Option<nat>
    requires |tb.first| == |tb.next| == |tb.hashes| && o < |tb.hashes|
    decreases |tb.hashes| - o
  {
    var b := Bucket(tb, h);
    if HashAt(tb, b, o) == h then Some(o)
    else if Link(tb, b, o) == 0 || o + Link(tb, b, o) >= |tb.hashes| then None
    else Walk(tb, h, o + Link(tb, b, o))
  }

  lemma {:induction false} WalkFinds(tb: Table, h: nat, o: nat, p: nat)
    requires Shape(tb) && TableOk(tb) && h != NULL && ChainedAt(tb, h, p)
    requires o <= p && Node(tb, Bucket(tb, h), o)
    ensures Walk(tb, h, o) == Some(p)
    decreases p - o
  {
    var b := Bucket(tb, h);
    PresentPassed(tb, h, p);
    if o < p {
      assert Link(tb, b, o) != 0;
      assert LinkOk(tb, b, o);
      var to := o + Link(tb, b, o);
      assert Member(tb, b, p);
      WalkFinds(tb, h, to, p);
    }
  }

  lemma {:induction false} WalkChains(tb: Table, h: nat, o: nat)
    requires Shape(tb) && TableOk(tb) && h != NULL && o < |tb.hashes|
    requires Node(tb, Bucket(tb, h), o) && ChainTo(tb, Bucket(tb, h), o)
    ensures Walk(tb, h, o).Some? ==> ChainedAt(tb, h, Walk(tb, h, o).value)
    decreases |tb.hashes| - o
  {
    var b := Bucket(tb, h);
    if HashAt(tb, b, o) != h && Link(tb, b, o) != 0 {
      assert LinkOk(tb, b, o);
      var to := o + Link(tb, b, o);
      assert ChainTo(tb, b, to) by {
        assert forall m :: o < m < to ==> !Member(tb, b, m);
      }
      WalkChains(tb, h, to);
    }
  }

  /** A hash can be found exactly when it is in the table with every link of its bucket before it set. */
  lemma FoundIffChained(tb: Table, h: nat)
    requires Shape(tb) && TableOk(tb) && h != NULL
    ensures Walk(tb, h, 0).Some? <==> Chained(tb, h)
  {
    if Chained(tb, h) {
      var p :| 0 <= p < |tb.hashes| && ChainedAt(tb, h, p);
      WalkFinds(tb, h, 0, p);
    }
    WalkChains(tb, h, 0);
  }

  ghost predicate CanRun(st: State, run: seq<(nat, Action)>)
    decreases |run|
  {
    run == [] || (Enabled(st, run[0].0, run[0].1) && CanRun(Step(st, run[0].0, run[0].1), run[1..]))
  }

  ghost function Final(st: State, run: seq<(nat, Action)>): State
    requires CanRun(st, run)
    decreases |run|
  {
    if run == [] then st else Final(Step(st, run[0].0, run[0].1), run[1..])
  }

  /**
   Once an insert has returned a cell that it reached through the links or linked itself, the
   hash is found in every later table, whatever the other threads do in between.
   */
  lemma {:induction false} ReturnedIsFound(st: State, t: nat, run: seq<(nat, Action)>)
    requires Inv(st) && CanRun(st, run) && t < |st.threads| && st.threads[t].Returned? && st.threads[t].chained
    ensures Inv(Final(st, run)) && Walk(Final(st, run).table, st.threads[t].h, 0).Some?
  {
    var h := st.threads[t].h;
    assert ThreadOk(st.table, st.threads[t]);
    assert ChainedAt(st.table, h, st.threads[t].o);
    ChainedForever(st, run, h);
    FoundIffChained(Final(st, run).table, h);
  }

  lemma {:induction false} ChainedForever(st: State, run: seq<(nat, Action)>, h: nat)
    requires Inv(st) && CanRun(st, run) && h != NULL && Chained(st.table, h)
    ensures Inv(Final(st, run)) && Chained(Final(st, run).table, h)
    decreases |run|
  {
    if run != [] {
      StepKeepsInv(st, run[0].0, run[0].1);
      ChainedStays(st.table, Step(st, run[0].0, run[0].1).table, h);
      ChainedForever(Step(st, run[0].0, run[0].1), run[1..], h);
    }
  }

  ghost predicate Finds(tb: Table, h: nat) {
    Shape(tb) && Walk(tb, h, 0).Some?
  }

  lemma FindsIffChained(st: State, h: nat)
    requires Inv(st) && h != NULL
    ensures Finds(st.table, h) <==> Chained(st.table, h)
  {
    FoundIffChained(st.table, h);
  }

  ghost predicate AlwaysFinds(st: State, h: nat) {
    forall run :: CanRun(st, run) ==> Finds(Final(st, run).table, h)
  }

  /**
   Whichever way the cell was reached: the hash is found in every later table exactly when every
   link of its bucket before it is set by the time the insert returns.
   */
  lemma ReturnedIsFoundIff(st: State, t: nat)
    requires Inv(st) && t < |st.threads| && st.threads[t].Returned?
    ensures AlwaysFinds(st, st.threads[t].h) <==> ChainTo(st.table, Bucket(st.table, st.threads[t].h), st.threads[t].o)
  {
    var h := st.threads[t].h;
    ReturnedChained(st, t);
    FindsIffChained(st, h);
    assert CanRun(st, []) && Final(st, []) == st;
    hide Inv, Chained, Finds, CanRun, Final, ChainTo;
    if Chained(st.table, h) {
      forall run | CanRun(st, run) ensures Finds(Final(st, run).table, h) {
        ChainedForever(st, run, h);
        FindsIffChained(Final(st, run), h);
      }
    }
  }

  lemma ReturnedChained(st: State, t: nat)
    requires Inv(st) && t < |st.threads| && st.threads[t].Returned?
    ensures var pc := st.threads[t];
            pc.h != NULL && pc.o < |st.table.hashes| && (Chained(st.table, pc.h) <==> ChainTo(st.table, Bucket(st.table, pc.h), pc.o))
  {
    var tb, pc := st.table, st.threads[t];
    assert ThreadOk(tb, pc);
    if ChainTo(tb, Bucket(tb, pc.h), pc.o) {
      assert ChainedAt(tb, pc.h, pc.o);
    }
    if Chained(tb, pc.h) {
      var o :| 0 <= o < |tb.hashes| && ChainedAt(tb, pc.h, o);
      OnePlace(tb, pc.h, o, pc.o);
    }
    hide TableOk, ChainTo;
  }

  lemma OnePlace(tb: Table, h: nat, o: nat, p: nat)
    requires Shape(tb) && TableOk(tb) && h != NULL && o < |tb.hashes| && p < |tb.hashes|
    requires HashAt(tb, Bucket(tb, h), o) == h && HashAt(tb, Bucket(tb, h), p) == h
    ensures o == p
  {
    PresentPassed(tb, h, o);
    PresentPassed(tb, h, p);
    hide TableOk;
  }

  /** The thread is in a find, or in an insertOrFind, for hash h, or has its answer. */
  predicate Serves(pc: PC, h: nat, insert: bool) {
    match pc
    case Idle => false
    case LoadHome(g) => g == h && insert
    case CasHome(g) => g == h && insert
    case Follow(g, _) => g == h && insert
    case Visit(g, _) => g == h && insert
    case Search(g, _, _) => g == h && insert
    case CasCell(g, _, _) => g == h && insert
    case LinkOwn(g, _, _) => g == h && insert
    case Help(g, _, _) => g == h && insert
    case Returned(g, _, _, _) => g == h && insert
    case Overflow(g, _, _) => g == h && insert
    case FindHome(g, _) => g == h && !insert
    case FindLink(g, _, _) => g == h && !insert
    case FindVisit(g, _, _) => g == h && !insert
    case FindDone(g, _, _) => g == h && !insert
  }

  /** One step of the thread in such a call: a find leaves the table alone. */
  lemma ServiceStep(st: State, t: nat, h: nat, insert: bool)
    requires Enabled(st, t, Go) && Serves(st.threads[t], h, insert)
    ensures Serves(Step(st, t, Go).threads[t], h, insert) && (!insert ==> Step(st, t, Go).table == st.table)
  {
    hide HashAt, Link, Bucket, SetHash, SetLink;
  }

  lemma StartServes(st: State, t: nat, h: nat)
    requires h != NULL && t < |st.threads| && Shape(st.table) && !Running(st.threads[t])
    ensures Serves(Step(st, t, StartInsert(h)).threads[t], h, true) && Running(Step(st, t, StartInsert(h)).threads[t])
    ensures Serves(Step(st, t, StartFind(h)).threads[t], h, false) && Running(Step(st, t, StartFind(h)).threads[t])
    ensures Step(st, t, StartInsert(h)).table == st.table == Step(st, t, StartFind(h)).table
  {
    hide Chained;
  }

  /** Thread t starts no call in the run. */
  ghost predicate StartsNothing(run: seq<(nat, Action)>, t: nat) {
    forall i :: 0 <= i < |run| && run[i].0 == t ==> run[i].1.Go?
  }

  /** From its start on, and until the thread starts another call, the thread works on that call. */
  lemma {:induction false} CallIsServed(st: State, t: nat, h: nat, insert: bool, run: seq<(nat, Action)>)
    requires CanRun(st, run) && t < |st.threads| && StartsNothing(run, t)
    requires Serves(st.threads[t], h, insert)
    ensures t < |Final(st, run).threads| && Serves(Final(st, run).threads[t], h, insert)
    decreases |run|
  {
    if run != [] {
      if run[0].0 == t {
        ServiceStep(st, t, h, insert);
      }
      assert forall i :: 0 <= i < |run[1..]| ==> run[1..][i] == run[i + 1];
      hide Serves, Effect, Chained;
      CallIsServed(Step(st, run[0].0, run[0].1), t, h, insert, run[1..]);
    }
  }

  ghost predicate FindsSurely(pc: PC, h: nat) {
    match pc
    case FindHome(g, sure) => g == h && sure
    case FindLink(g, _, sure) => g == h && sure
    case FindVisit(g, _, sure) => g == h && sure
    case FindDone(g, _, sure) => g == h && sure
    case _ => false
  }

  lemma SureStep(st: State, t: nat, h: nat)
    requires Enabled(st, t, Go) && FindsSurely(st.threads[t], h)
    ensures FindsSurely(Step(st, t, Go).threads[t], h)
  {
    hide HashAt, Link, Bucket;
  }

  lemma {:induction false} StaysSure(st: State, t: nat, h: nat, run: seq<(nat, Action)>)
    requires Inv(st) && CanRun(st, run) && t < |st.threads| && StartsNothing(run, t)
    requires FindsSurely(st.threads[t], h)
    ensures Inv(Final(st, run)) && t < |Final(st, run).threads| && FindsSurely(Final(st, run).threads[t], h)
    decreases |run|
  {
    if run != [] {
      if run[0].0 == t {
        SureStep(st, t, h);
      }
      StepKeepsInv(st, run[0].0, run[0].1);
      assert forall i :: 0 <= i < |run[1..]| ==> run[1..][i] == run[i + 1];
      hide FindsSurely, Effect, Chained, Inv;
      StaysSure(Step(st, run[0].0, run[0].1), t, h, run[1..]);
    }
  }

  /** A find that starts while its hash is chained answers with the cell of the hash, after any steps of other threads. */
  lemma {:induction false} StartedFindSucceeds(st: State, t: nat, h: nat, run: seq<(nat, Action)>)
    requires Inv(st) && Enabled(st, t, StartFind(h)) && Chained(st.table, h) && CanRun(Step(st, t, StartFind(h)), run)
    requires StartsNothing(run, t)
    ensures var end := Final(Step(st, t, StartFind(h)), run);
            && Inv(end) && t < |end.threads|
            && (end.threads[t].FindDone? ==>
                  && end.threads[t].found.Some? && end.threads[t].found.value < |end.table.hashes|
                  && HashAt(end.table, Bucket(end.table, h), end.threads[t].found.value) == h)
  {
    var next := Step(st, t, StartFind(h));
    StepKeepsInv(st, t, StartFind(h));
    StaysSure(next, t, h, run);
    var end := Final(next, run);
    assert ThreadOk(end.table, end.threads[t]);
    hide TableOk, CanRun, Final, Step;
  }

  /** A find that begins after that returns the cell of the hash, step by step among all other threads. */
  lemma SureFindSucceeds(st: State, t: nat)
    requires Inv(st) && t < |st.threads| && st.threads[t].FindDone? && st.threads[t].sure
    ensures st.threads[t].found.Some? && HashAt(st.table, Bucket(st.table, st.threads[t].h), st.threads[t].found.value) == st.threads[t].h
  {
    assert ThreadOk(st.table, st.threads[t]);
  }

  /** On overflow every cell of the sample that the next table size is estimated from is reserved. */
  lemma OverflowSampleIsFull(st: State, t: nat, j: nat)
    requires Inv(st) && t < |st.threads| && st.threads[t].Overflow?
    requires j < |st.table.hashes| && (st.threads[t].cur == |st.table.hashes| - 1 || st.threads[t].cur - LINEAR_SEARCH_LIMIT < j <= st.threads[t].cur)
    ensures HashAt(st.table, Bucket(st.table, st.threads[t].h), j) != NULL
  {
    assert ThreadOk(st.table, st.threads[t]);
  }

  /** What a call has left to do, in steps of its own. */
  function Left(n: nat, pc: PC): int {
    match pc
    case LoadHome(_) => 5 * n + 2
    case CasHome(_) => 5 * n + 1
    case Follow(_, o) => 5 * (n - o)
    case Visit(_, o) => 5 * (n - o) + 1
    case Search(_, _, cur) => 5 * (n - cur) + 4
    case CasCell(_, _, cur) => 5 * (n - cur) + 3
    case Help(_, _, cur) => 5 * (n - cur) + 2
    case LinkOwn(_, _, cur) => 1
    case FindHome(_, _) => 5 * n + 2
    case FindLink(_, o, _) => 5 * (n - o)
    case FindVisit(_, o, _) => 5 * (n - o) + 1
    case _ => 0
  }

  /** Every call ends within a bounded number of its own steps, whatever the other threads do. */
  lemma CallsEnd(st: State, t: nat)
    requires Inv(st) && t < |st.threads| && Running(st.threads[t])
    ensures Enabled(st, t, Go)
    ensures 0 <= Left(|st.table.hashes|, Step(st, t, Go).threads[t]) < Left(|st.table.hashes|, st.threads[t]) <= 5 * |st.table.hashes| + 2
  {
    var pc := st.threads[t];
    assert ThreadOk(st.table, pc);
    assert Bounded(st.table, pc);
    StepKeepsInv(st, t, Go);
    assert ThreadOk(Step(st, t, Go).table, Step(st, t, Go).threads[t]);
    hide TableOk, Chained, Passed, Foreign, ChainTo;
    assert Bounded(st.table, Step(st, t, Go).threads[t]);
    assert pc.LinkOwn? || pc.Help? ==> AtTail(st.table, pc.h, pc.prev, pc.cur);
    assert pc.Visit? ==> HashAt(st.table, Bucket(st.table, pc.h), pc.o) != NULL;
    hide ThreadOk, AtTail, Inv;
    LeftDecreases(st.table, pc);
  }

  lemma LeftDecreases(tb: Table, pc: PC)
    requires Shape(tb) && Bounded(tb, pc) && Running(pc) && Bounded(tb, Effect(tb, pc).1)
    requires pc.Visit? ==> HashAt(tb, Bucket(tb, pc.h), pc.o) != NULL
    ensures 0 <= Left(|tb.hashes|, Effect(tb, pc).1) < Left(|tb.hashes|, pc) <= 5 * |tb.hashes| + 2
  {
    hide HashAt, Bucket, Link, SetLink, SetHash;
  }

  /** A new table of any size, with any number of idle threads. */
  lemma FreshTable(n: nat, k: nat)
    requires n > 0
    ensures Inv(State(Table(seq(n, _ => NULL), seq(n, _ => 0), seq(n, _ => 0)), seq(k, _ => Idle)))
  {
    var tb := Table(seq(n, _ => NULL), seq(n, _ => 0), seq(n, _ => 0));
    forall b, o | 0 <= b < n && 0 <= o < n ensures Link(tb, b, o) == 0 {
    }
    assert TableOk(tb) by {
      hide Link;
    }
  }

  // ---------------------------------------------------------------- a cell outside the chain

  const FRESH := Table([0, 0, 0, 0], [0, 0, 0, 0], [0, 0, 0, 0])
  const WITH4 := Table([4, 0, 0, 0], [0, 0, 0, 0], [0, 0, 0, 0])
  const WITH48 := Table([4, 8, 0, 0], [0, 0, 0, 0], [0, 0, 0, 0])
  const DONE4 := Returned(4, 0, InsertedNew, true)
  const STUCK8 := LinkOwn(8, 0, 1)

  ghost predicate Goes(st: State, t: nat, a: Action, to: State) {
    Enabled(st, t, a) && Step(st, t, a) == to
  }

  lemma FirstInserts4()
    ensures Goes(State(FRESH, [Idle, Idle, Idle]), 0, StartInsert(4), State(FRESH, [LoadHome(4), Idle, Idle]))
    ensures Goes(State(FRESH, [LoadHome(4), Idle, Idle]), 0, Go, State(FRESH, [CasHome(4), Idle, Idle]))
    ensures Goes(State(FRESH, [CasHome(4), Idle, Idle]), 0, Go, State(WITH4, [DONE4, Idle, Idle]))
  {
  }

  lemma SecondFindsEnd()
    ensures Goes(State(WITH4, [DONE4, Idle, Idle]), 1, StartInsert(8), State(WITH4, [DONE4, LoadHome(8), Idle]))
    ensures Goes(State(WITH4, [DONE4, LoadHome(8), Idle]), 1, Go, State(WITH4, [DONE4, Follow(8, 0), Idle]))
    ensures Goes(State(WITH4, [DONE4, Follow(8, 0), Idle]), 1, Go, State(WITH4, [DONE4, Search(8, 0, 1), Idle]))
  {
  }

  lemma SecondReserves8()
    ensures Goes(State(WITH4, [DONE4, Search(8, 0, 1), Idle]), 1, Go, State(WITH4, [DONE4, CasCell(8, 0, 1), Idle]))
    ensures Goes(State(WITH4, [DONE4, CasCell(8, 0, 1), Idle]), 1, Go, State(WITH48, [DONE4, STUCK8, Idle]))
  {
  }

  lemma ThirdFindsEnd()
    ensures Goes(State(WITH48, [DONE4, STUCK8, Idle]), 2, StartInsert(8), State(WITH48, [DONE4, STUCK8, LoadHome(8)]))
    ensures Goes(State(WITH48, [DONE4, STUCK8, LoadHome(8)]), 2, Go, State(WITH48, [DONE4, STUCK8, Follow(8, 0)]))
    ensures Goes(State(WITH48, [DONE4, STUCK8, Follow(8, 0)]), 2, Go, State(WITH48, [DONE4, STUCK8, Search(8, 0, 1)]))
  {
  }

  lemma ThirdMeets8()
    ensures Goes(State(WITH48, [DONE4, STUCK8, Search(8, 0, 1)]), 2, Go, State(WITH48, [DONE4, STUCK8, Returned(8, 1, AlreadyFound, false)]))
  {
  }

  lemma StartOk()
    ensures Inv(State(FRESH, [Idle, Idle, Idle]))
  {
    FreshTable(4, 3);
    assert seq(4, _ => 0) == [0, 0, 0, 0] && seq(4, _ => NULL) == [0, 0, 0, 0];
    assert seq(3, _ => Idle) == [Idle, Idle, Idle];
    hide Inv;
  }

  lemma Misses8()
    ensures Walk(WITH48, 8, 0) == None
  {
  }

  /**
   The one gap in the guarantee.  An insert that meets its own hash during the linear search
   returns AlreadyFound before anybody has set the link: a find that the same thread makes
   next can miss the hash.  Thread 0 inserts 4; thread 1 reserves a cell for 8, in the same
   bucket of a table of four cells, and stops before linking it; thread 2 inserts 8, is told
   that it is there, and does not find it.
   */
  lemma FoundOutsideTheChainCanBeMissed()
    ensures exists st: State, run ::
              && st == State(Table([0, 0, 0, 0], [0, 0, 0, 0], [0, 0, 0, 0]), [Idle, Idle, Idle])
              && Inv(st) && CanRun(st, run)
              && |Final(st, run).threads| == 3 && Shape(Final(st, run).table)
              && Final(st, run).threads[2] == Returned(8, 1, AlreadyFound, false)
              && Walk(Final(st, run).table, 8, 0) == None
  {
    var start := State(FRESH, [Idle, Idle, Idle]);
    var run0: seq<(nat, Action)> := [];
    assert CanRun(start, run0) && Final(start, run0) == start;
    StartOk();
    Misses8();
    FirstInserts4();
    SecondFindsEnd();
    SecondReserves8();
    ThirdFindsEnd();
    ThirdMeets8();
    hide CanRun, Final, Goes, Inv, Walk;
    var run1 := Extend(start, run0, 0, StartInsert(4), State(FRESH, [LoadHome(4), Idle, Idle]));
    var run2 := Extend(start, run1, 0, Go, State(FRESH, [CasHome(4), Idle, Idle]));
    var run3 := Extend(start, run2, 0, Go, State(WITH4, [DONE4, Idle, Idle]));
    var run4 := Extend(start, run3, 1, StartInsert(8), State(WITH4, [DONE4, LoadHome(8), Idle]));
    var run5 := Extend(start, run4, 1, Go, State(WITH4, [DONE4, Follow(8, 0), Idle]));
    var run6 := Extend(start, run5, 1, Go, State(WITH4, [DONE4, Search(8, 0, 1), Idle]));
    var run7 := Extend(start, run6, 1, Go, State(WITH4, [DONE4, CasCell(8, 0, 1), Idle]));
    var run8 := Extend(start, run7, 1, Go, State(WITH48, [DONE4, STUCK8, Idle]));
    var run9 := Extend(start, run8, 2, StartInsert(8), State(WITH48, [DONE4, STUCK8, LoadHome(8)]));
    var run10 := Extend(start, run9, 2, Go, State(WITH48, [DONE4, STUCK8, Follow(8, 0)]));
    var run11 := Extend(start, run10, 2, Go, State(WITH48, [DONE4, STUCK8, Search(8, 0, 1)]));
    var run12 := Extend(start, run11, 2, Go, State(WITH48, [DONE4, STUCK8, Returned(8, 1, AlreadyFound, false)]));
  }

  /** One more step at the end of a run, leading to a given state. */
  lemma {:induction false} Extend(st: State, run: seq<(nat, Action)>, t: nat, a: Action, to: State) returns (longer: seq<(nat, Action)>)
    requires CanRun(st, run) && Goes(Final(st, run), t, a, to)
    ensures longer == run + [(t, a)] && CanRun(st, longer) && Final(st, longer) == to
    decreases |run|
  {
    longer := run + [(t, a)];
    if run != [] {
      var rest := Extend(Step(st, run[0].0, run[0].1), run[1..], t, a, to);
      assert longer[1..] == rest;
    } else {
      assert longer[1..] == [];
    }
  }
}
