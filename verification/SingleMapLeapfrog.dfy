/**
 `SingleMap_Leapfrog`: the single-threaded Leapfrog table.  It has the buckets and links of
 `LeapfrogChains`, and in addition no link is ever missing.  Erased entries keep their cell and
 lose their value until the next migration.
 */
module SingleMapLeapfrog {
  import opened Counting
  import opened Ring
  import opened LeapfrogChains

  const INITIAL_SIZE: nat := 8
  const CELLS_IN_USE_SAMPLE: nat := LINEAR_SEARCH_LIMIT

  /** A cell with its two deltas; the program groups four of them. */
  datatype Cell = Cell(hash: nat, value: nat, first: nat, next: nat)

  const EMPTY := Cell(NULL, NULL, 0, 0)

  datatype InsertResult = FoundCell | NewCell | NoCell

  /** The hashes and links of a sequence of cells. */
  ghost function Links(c: seq<Cell>): Table {
    Table(seq(|c|, i requires 0 <= i < |c| => c[i].hash),
          seq(|c|, i requires 0 <= i < |c| => c[i].first),
          seq(|c|, i requires 0 <= i < |c| => c[i].next))
  }

  /** A node without a link is the last of its bucket. */
  ghost predicate Complete(tb: Table)
    requires Shape(tb)
  {
    forall b, o, p :: 0 <= b < |tb.hashes| && 0 <= o < p < |tb.hashes| && Node(tb, b, o) && Link(tb, b, o) == 0 ==> !Member(tb, b, p)
  }

  ghost predicate Linked(tb: Table) {
    Shape(tb) && TableOk(tb) && Complete(tb)
  }

  ghost predicate Clean(c: seq<Cell>) {
    forall i :: 0 <= i < |c| && c[i].hash == NULL ==> c[i].value == NULL
  }

  ghost predicate CellsOk(c: seq<Cell>) {
    |c| > 0 && Linked(Links(c)) && Clean(c)
  }

  /** No cell belongs to an erased entry. */
  ghost predicate NoneErased(c: seq<Cell>) {
    forall i :: 0 <= i < |c| && c[i].hash != NULL ==> c[i].value != NULL
  }

  ghost predicate Unique(c: seq<Cell>) {
    forall i, j :: 0 <= i < j < |c| && c[i].hash != NULL ==> c[i].hash != c[j].hash
  }

  /** The finite map a table stands for: the cells that have a value. */
  ghost function Contents(c: seq<Cell>): map<nat, nat>
    requires Unique(c) && Clean(c)
  {
    map i | 0 <= i < |c| && c[i].value != NULL :: c[i].hash := c[i].value
  }

  lemma CellsUnique(c: seq<Cell>)
    requires CellsOk(c)
    ensures Unique(c) && Clean(c)
  {
    var tb := Links(c);
    assert forall i :: 0 <= i < |c| ==> tb.hashes[i] == c[i].hash;
  }

  /** Every entry and every cell that holds no entry, as the map sees them. */
  lemma Lookup(c: seq<Cell>, i: nat)
    requires Unique(c) && Clean(c) && i < |c| && c[i].hash != NULL
    ensures c[i].hash in Contents(c) <==> c[i].value != NULL
    ensures c[i].value != NULL ==> Contents(c)[c[i].hash] == c[i].value
  {
    if c[i].hash in Contents(c) {
      var j :| 0 <= j < |c| && c[j].value != NULL && c[j].hash == c[i].hash;
      SameCell(c, i, j);
    }
  }

  lemma SameCell(c: seq<Cell>, i: nat, j: nat)
    requires Unique(c) && i < |c| && j < |c| && c[i].hash == c[j].hash != NULL
    ensures i == j
  {
  }

  lemma AbsentLookup(c: seq<Cell>, h: nat)
    requires Unique(c) && Clean(c) && h != NULL && forall i :: 0 <= i < |c| ==> c[i].hash != h
    ensures h !in Contents(c)
  {
  }

  // ---------------------------------------------------------------- inserting into linked tables

  /** At the end of a chain without a match the hash is absent. */
  lemma EndOfChain(tb: Table, h: nat, o: nat)
    requires Linked(tb) && h != NULL && o < |tb.hashes| && Node(tb, Bucket(tb, h), o)
    requires Link(tb, Bucket(tb, h), o) == 0 && Passed(tb, h, o + 1)
    ensures Absent(tb, h)
  {
    var b := Bucket(tb, h);
    forall i | 0 <= i < |tb.hashes| ensures tb.hashes[i] != h {
      if tb.hashes[i] == h {
        var p := Off(|tb.hashes|, b, i);
        assert HashAt(tb, b, p) == h;
        assert Member(tb, b, p);
        assert false;
      }
    }
  }

  /** Beyond the last node the linear search meets other buckets only. */
  lemma SearchIsForeign(tb: Table, h: nat, prev: nat, cur: nat)
    requires Linked(tb) && h != NULL && prev < cur < |tb.hashes| && Node(tb, Bucket(tb, h), prev)
    requires Link(tb, Bucket(tb, h), prev) == 0 && Passed(tb, h, cur)
    ensures Foreign(tb, Bucket(tb, h), prev, cur)
  {
  }

  lemma ReserveHome(tb: Table, h: nat)
    requires Linked(tb) && h != NULL && tb.hashes[Bucket(tb, h)] == NULL
    ensures Linked(SetHash(tb, Bucket(tb, h), 0, h)) && Absent(tb, h)
  {
    var b := Bucket(tb, h);
    var tb' := SetHash(tb, b, 0, h);
    assert HashAt(tb, b, 0) == NULL && Passed(tb, h, 0);
    ReserveKeepsTable(tb, h, 0);
    NullMeansAbsent(tb, h, 0);
    forall b', o, p | 0 <= b' < |tb.hashes| && 0 <= o < p < |tb.hashes| && Node(tb', b', o) && Link(tb', b', o) == 0
      ensures !Member(tb', b', p)
    {
      OffPos(|tb.hashes|, b', o);
      OffPos(|tb.hashes|, b', p);
      assert Node(tb, b', o) && Link(tb, b', o) == 0;
      assert !Member(tb, b', p);
    }
  }

  lemma ReserveAndLink(tb: Table, h: nat, prev: nat, cur: nat)
    requires Linked(tb) && h != NULL && AtTail(tb, h, prev, cur) && Link(tb, Bucket(tb, h), prev) == 0
    requires Passed(tb, h, cur) && HashAt(tb, Bucket(tb, h), cur) == NULL
    ensures Linked(SetLink(SetHash(tb, Bucket(tb, h), cur, h), Bucket(tb, h), prev, cur - prev))
  {
    var b := Bucket(tb, h);
    var tb1 := SetHash(tb, b, cur, h);
    var tb2 := SetLink(tb1, b, prev, cur - prev);
    ReserveKeepsTable(tb, h, cur);
    TailStays(tb, tb1, h, prev, cur);
    PassedStays(tb, tb1, h, cur);
    assert HashAt(tb1, b, cur) == h && Member(tb1, b, cur);
    assert Passed(tb1, h, prev + 1);
    LinkKeepsTable(tb1, h, prev, cur);
    NewNodeIsLast(tb, h, prev, cur);
  }

  /** What a table with one more hash and one more link has beyond the old one. */
  lemma NewNode(tb: Table, h: nat, prev: nat, cur: nat, b': nat, o: nat)
    requires Linked(tb) && h != NULL && prev < cur < |tb.hashes| && Node(tb, Bucket(tb, h), prev)
    requires HashAt(tb, Bucket(tb, h), cur) == NULL && b' < |tb.hashes| && o < |tb.hashes|
    ensures var b := Bucket(tb, h);
            var tb2 := SetLink(SetHash(tb, b, cur, h), b, prev, cur - prev);
            && (Member(tb2, b', o) <==> Member(tb, b', o) || (b' == b && o == cur))
            && (Node(tb2, b', o) && Link(tb2, b', o) == 0 ==> Link(tb, b', o) == 0 && !(b' == b && o == prev))
  {
    var b, n := Bucket(tb, h), |tb.hashes|;
    var tb1 := SetHash(tb, b, cur, h);
    OffPos(n, b, cur);
    OffPos(n, b, prev);
    OffPos(n, b', o);
    assert Node(tb1, b, prev);
    hide Linked;
    if b' != b || o != prev {
      if Node(tb1, b', o) {
        LinksApart(tb1, b, prev, b', o, cur - prev);
      }
    }
  }

  lemma NewNodeIsLast(tb: Table, h: nat, prev: nat, cur: nat)
    requires Linked(tb) && h != NULL && prev < cur < |tb.hashes| && Node(tb, Bucket(tb, h), prev)
    requires Link(tb, Bucket(tb, h), prev) == 0 && HashAt(tb, Bucket(tb, h), cur) == NULL
    ensures Complete(SetLink(SetHash(tb, Bucket(tb, h), cur, h), Bucket(tb, h), prev, cur - prev))
  {
    var b, n := Bucket(tb, h), |tb.hashes|;
    var tb2 := SetLink(SetHash(tb, b, cur, h), b, prev, cur - prev);
    assert |tb2.hashes| == n && Shape(tb2);
    assert forall q :: prev < q < n ==> !Member(tb, b, q);
    assert forall q :: 0 <= q < prev && Node(tb, b, q) ==> Link(tb, b, q) != 0;
    hide SetLink, SetHash, Member, Link, HashAt, TableOk;
    forall b', o, p | 0 <= b' < n && 0 <= o < p < n && Node(tb2, b', o) && Link(tb2, b', o) == 0
      ensures !Member(tb2, b', p)
    {
      NewNode(tb, h, prev, cur, b', o);
      NewNode(tb, h, prev, cur, b', p);
      assert Node(tb, b', o) ==> !Member(tb, b', p);
    }
  }

  // ---------------------------------------------------------------- cells and tables

  lemma HashWritten(c: seq<Cell>, i: nat, h: nat)
    requires i < |c|
    ensures Links(c[i := c[i].(hash := h)]) == Links(c).(hashes := Links(c).hashes[i := h])
  {
  }

  lemma LinkWritten(c: seq<Cell>, b: nat, o: nat, i: nat, delta: nat)
    requires b < |c| && o < |c| && i == Pos(|c|, b, o)
    ensures var c' := c[i := if o == 0 then c[i].(first := delta) else c[i].(next := delta)];
            Links(c') == SetLink(Links(c), b, o, delta)
  {
    var c' := c[i := if o == 0 then c[i].(first := delta) else c[i].(next := delta)];
    var tb, tb' := Links(c), SetLink(Links(c), b, o, delta);
    assert Links(c').hashes == tb'.hashes;
    assert Links(c').first == tb'.first;
    assert Links(c').next == tb'.next;
  }

  lemma ValueWritten(c: seq<Cell>, i: nat, v: nat)
    requires i < |c|
    ensures Links(c[i := c[i].(value := v)]) == Links(c)
  {
  }

  /** The masked index of the program, o steps from the hash. */
  lemma IndexIsPos(n: nat, h: nat, o: nat)
    requires n > 0 && o < n
    ensures (h + o) % n == Pos(n, Home(n, h), o)
  {
    var b := h % n;
    var q := h / n;
    assert h == q * n + b;
    if b + o < n {
      Quotient(n, h + o, q, b + o);
    } else {
      Quotient(n, h + o, q + 1, b + o - n);
    }
  }

  /** An empty home cell: nothing of its bucket is stored. */
  lemma EmptyHome(tb: Table, h: nat)
    requires Linked(tb) && h != NULL && tb.hashes[Bucket(tb, h)] == NULL
    ensures Link(tb, Bucket(tb, h), 0) == 0 && Absent(tb, h)
  {
    var b := Bucket(tb, h);
    ReserveHome(tb, h);
    assert HashAt(tb, b, 0) == NULL && LinkOk(tb, b, 0);
    if Link(tb, b, 0) != 0 {
      var to := Link(tb, b, 0);
      PresentPassed(tb, HashAt(tb, b, to), to);
      assert false;
    }
  }

  /** The end of a chain that does not hold the hash. */
  ghost predicate AtEnd(c: seq<Cell>, hash: nat, prev: nat) {
    && CellsOk(c) && hash != NULL && prev < |c|
    && Node(Links(c), Bucket(Links(c), hash), prev)
    && Link(Links(c), Bucket(Links(c), hash), prev) == 0
    && Passed(Links(c), hash, prev + 1)
    && ChainTo(Links(c), Bucket(Links(c), hash), prev)
  }

  /** What reserving a cell for a new hash does to the entries. */
  ghost predicate Inserted(c: seq<Cell>, c': seq<Cell>, hash: nat, i: nat) {
    && |c'| == |c| && i < |c| && c[i].hash == NULL && c'[i].hash == hash
    && (forall j :: 0 <= j < |c| ==> c[j].hash != hash)
    && (forall j :: 0 <= j < |c| && j != i ==> c'[j].hash == c[j].hash)
    && (forall j :: 0 <= j < |c| ==> c'[j].value == c[j].value)
  }

  /** The j-th cell of the sample before overflowIdx. */
  function SampleIndex(n: nat, overflowIdx: nat, j: nat): (i: nat)
    requires n > 0
    ensures i < n
  {
    (overflowIdx - CELLS_IN_USE_SAMPLE + j) % n
  }

  /** Every cell of the sample before overflowIdx is occupied. */
  ghost predicate SampleFull(c: seq<Cell>, overflowIdx: nat)
    requires |c| > 0
  {
    forall j :: 0 <= j < CELLS_IN_USE_SAMPLE ==> c[SampleIndex(|c|, overflowIdx, j)].hash != NULL
  }

  /** Every cell that the linear search visits from offset prev on is occupied. */
  ghost predicate FullBeyond(c: seq<Cell>, hash: nat, prev: nat)
    requires prev < |c|
  {
    forall o :: prev < o <= SearchEnd(|c|, prev) ==> c[Pos(|c|, Home(|c|, hash), o)].hash != NULL
  }

  /** The chain of the hash ends at offset prev without it, and there is no room beyond. */
  ghost predicate OverflowsAt(c: seq<Cell>, hash: nat, prev: nat) {
    AtEnd(c, hash, prev) && FullBeyond(c, hash, prev)
  }

  /** An insert of the hash overflows and reports the index after the last cell it visited. */
  ghost predicate Overflows(c: seq<Cell>, hash: nat, overflowIdx: nat) {
    exists prev: nat :: OverflowsAt(c, hash, prev) && overflowIdx == hash + SearchEnd(|c|, prev) + 1
  }

  ghost predicate HasRoom(c: seq<Cell>, hash: nat) {
    forall prev: nat :: !OverflowsAt(c, hash, prev)
  }

  lemma OneEnd(c: seq<Cell>, hash: nat, prev: nat, other: nat)
    requires AtEnd(c, hash, prev) && AtEnd(c, hash, other)
    ensures prev == other
  {
    hide CellsOk, Passed;
  }

  /** At the end of the chain the next cells decide. */
  lemma OverflowDecided(c: seq<Cell>, hash: nat, prev: nat, overflowIdx: nat)
    requires AtEnd(c, hash, prev) && overflowIdx == hash + SearchEnd(|c|, prev) + 1
    ensures FullBeyond(c, hash, prev) ==> Overflows(c, hash, overflowIdx)
    ensures !FullBeyond(c, hash, prev) ==> HasRoom(c, hash)
  {
    if FullBeyond(c, hash, prev) {
      assert OverflowsAt(c, hash, prev);
    }
    forall other: nat ensures OverflowsAt(c, hash, other) ==> other == prev {
      if OverflowsAt(c, hash, other) {
        OneEnd(c, hash, prev, other);
      }
    }
    hide AtEnd, FullBeyond;
  }

  lemma AtEndHome(c: seq<Cell>, hash: nat, prev: nat, i: nat)
    requires AtEnd(c, hash, prev) && i < |c|
    ensures c[i].hash != hash && c[hash % |c|].hash != NULL
  {
    NotElsewhere(c, hash, prev, i);
    HashHere(c, hash, 0, hash % |c|);
    assert HashAt(Links(c), Bucket(Links(c), hash), 0) != NULL;
  }

  /** A hash that is present, or whose home cell is free, does not overflow. */
  lemma NoOverflow(c: seq<Cell>, hash: nat, i: nat)
    requires i < |c| && (c[i].hash == hash || c[hash % |c|].hash == NULL)
    ensures HasRoom(c, hash)
  {
    hide AtEnd;
    forall prev: nat ensures !OverflowsAt(c, hash, prev) {
      if AtEnd(c, hash, prev) {
        AtEndHome(c, hash, prev, i);
      }
    }
  }

  function NewCells(c: seq<Cell>, hash: nat, prev: nat, cur: nat, cell: nat, prevCell: nat): (r: seq<Cell>)
    requires cell < |c| && prevCell < |c| && prev < cur
  {
    var c1 := c[cell := c[cell].(hash := hash)];
    c1[prevCell := if prev == 0 then c1[prevCell].(first := cur - prev) else c1[prevCell].(next := cur - prev)]
  }

  lemma HashHere(c: seq<Cell>, h: nat, o: nat, i: nat)
    requires |c| > 0 && o < |c| && i == Pos(|c|, Home(|c|, h), o)
    ensures HashAt(Links(c), Bucket(Links(c), h), o) == c[i].hash && |Links(c).hashes| == |c|
  {
  }

  lemma NewCellsAre(c: seq<Cell>, hash: nat, prev: nat, cur: nat, cell: nat, prevCell: nat)
    requires cell < |c| && prevCell < |c| && prev < cur
    ensures var c1 := c[cell := c[cell].(hash := hash)];
            NewCells(c, hash, prev, cur, cell, prevCell)
              == c1[prevCell := if prev == 0 then c1[prevCell].(first := cur - prev) else c1[prevCell].(next := cur - prev)]
  {
  }

  lemma NewCellsLinks(c: seq<Cell>, hash: nat, prev: nat, cur: nat, cell: nat, prevCell: nat)
    requires |c| > 0 && prev < cur < |c| && cell == Pos(|c|, Home(|c|, hash), cur) && prevCell == Pos(|c|, Home(|c|, hash), prev)
    ensures var tb, b := Links(c), Home(|c|, hash);
            Links(NewCells(c, hash, prev, cur, cell, prevCell)) == SetLink(SetHash(tb, b, cur, hash), b, prev, cur - prev)
  {
    var c1 := c[cell := c[cell].(hash := hash)];
    HashWritten(c, cell, hash);
    LinkWritten(c1, Home(|c|, hash), prev, prevCell, cur - prev);
  }

  /** Reserving the cell where the search stops, and linking it. */
  lemma CellsKept(c: seq<Cell>, hash: nat, prev: nat, cur: nat, cell: nat, prevCell: nat)
    requires AtEnd(c, hash, prev) && prev < cur < |c| && cur <= SearchEnd(|c|, prev) && Passed(Links(c), hash, cur)
    requires cell == Pos(|c|, Home(|c|, hash), cur) && prevCell == Pos(|c|, Home(|c|, hash), prev) && c[cell].hash == NULL
    ensures var c' := NewCells(c, hash, prev, cur, cell, prevCell); CellsOk(c') && Inserted(c, c', hash, cell)
  {
    var tb := Links(c);
    assert HashAt(tb, Bucket(tb, hash), cur) == NULL;
    EndOfChain(tb, hash, prev);
    SearchIsForeign(tb, hash, prev, cur);
    assert forall j :: 0 <= j < |c| ==> tb.hashes[j] == c[j].hash;
    var c' := NewCells(c, hash, prev, cur, cell, prevCell);
    assert Clean(c');
    hide Linked, Passed, Foreign, ChainTo;
    ReserveAndLink(tb, hash, prev, cur);
    NewCellsLinks(c, hash, prev, cur, cell, prevCell);
  }

  lemma NotElsewhere(c: seq<Cell>, hash: nat, prev: nat, i: nat)
    requires AtEnd(c, hash, prev) && i < |c|
    ensures c[i].hash != hash
  {
    EndOfChain(Links(c), hash, prev);
    assert Links(c).hashes[i] == c[i].hash;
  }

  lemma PassOne(tb: Table, h: nat, o: nat)
    requires |tb.hashes| > 0 && o < |tb.hashes| && Passed(tb, h, o)
    requires HashAt(tb, Bucket(tb, h), o) != NULL && HashAt(tb, Bucket(tb, h), o) != h
    ensures Passed(tb, h, o + 1)
  {
  }

  lemma PassedIsFull(c: seq<Cell>, hash: nat, prev: nat, cur: nat)
    requires |c| > 0 && prev < |c| && cur == SearchEnd(|c|, prev) && Passed(Links(c), hash, cur + 1)
    ensures SampleFull(c, hash + cur + 1)
  {
    var overflowIdx := hash + cur + 1;
    forall j | 0 <= j < CELLS_IN_USE_SAMPLE ensures c[SampleIndex(|c|, overflowIdx, j)].hash != NULL {
      PassedSample(c, hash, prev, cur, j);
    }
  }

  lemma PassedSample(c: seq<Cell>, hash: nat, prev: nat, cur: nat, j: nat)
    requires |c| > 0 && prev < |c| && cur == SearchEnd(|c|, prev) && Passed(Links(c), hash, cur + 1)
    requires j < CELLS_IN_USE_SAMPLE
    ensures c[SampleIndex(|c|, hash + cur + 1, j)].hash != NULL
  {
    var n, tb := |c|, Links(c);
    var b := Bucket(tb, hash);
    var i := SampleIndex(n, hash + cur + 1, j);
    if cur == n - 1 {
      hide SampleIndex;
      assert HashAt(tb, b, Off(n, b, i)) == c[i].hash;
    } else {
      IndexIsPos(n, hash, prev + 1 + j);
      hide Home;
      assert HashAt(tb, b, prev + 1 + j) == c[i].hash;
    }
  }

  // ---------------------------------------------------------------- entries

  /** A reserved cell carries no value yet: the map is unchanged. */
  lemma InsertedContents(c: seq<Cell>, c': seq<Cell>, hash: nat, i: nat)
    requires CellsOk(c) && CellsOk(c') && Inserted(c, c', hash, i)
    ensures Unique(c) && Clean(c) && Unique(c') && Clean(c') && Contents(c') == Contents(c)
  {
    CellsUnique(c);
    CellsUnique(c');
    hide CellsOk, Unique;
    forall h ensures h in Contents(c') <==> h in Contents(c) {
      if h in Contents(c) {
        var j :| 0 <= j < |c| && c[j].value != NULL && c[j].hash == h;
        assert c'[j].value != NULL;
      }
    }
  }

  lemma ValueKeepsCells(c: seq<Cell>, i: nat, v: nat)
    requires CellsOk(c) && i < |c| && c[i].hash != NULL
    ensures CellsOk(c[i := c[i].(value := v)])
  {
    ValueWritten(c, i, v);
    hide Linked;
  }

  lemma ValueUnique(c: seq<Cell>, i: nat, v: nat)
    requires Unique(c) && Clean(c) && i < |c| && c[i].hash != NULL
    ensures Unique(c[i := c[i].(value := v)]) && Clean(c[i := c[i].(value := v)])
  {
  }

  lemma ValueContents(c: seq<Cell>, i: nat, v: nat)
    requires Unique(c) && Clean(c) && i < |c| && c[i].hash != NULL
    ensures var c' := c[i := c[i].(value := v)];
            && Unique(c') && Clean(c')
            && Contents(c') == if v == NULL then Contents(c) - {c[i].hash} else Contents(c)[c[i].hash := v]
  {
    var c', g := c[i := c[i].(value := v)], c[i].hash;
    var m := if v == NULL then Contents(c) - {g} else Contents(c)[g := v];
    ValueUnique(c, i, v);
    hide Contents, Unique, Clean;
    forall h: nat ensures (h in Contents(c') <==> h in m) && (h in m ==> Contents(c')[h] == m[h]) {
      ValueEntry(c, i, v, h);
    }
    SameMap(Contents(c'), m);
  }

  lemma SameMap(a: map<nat, nat>, b: map<nat, nat>)
    requires forall h: nat :: (h in a <==> h in b) && (h in b ==> a[h] == b[h])
    ensures a == b
  {
  }

  lemma ValueEntry(c: seq<Cell>, i: nat, v: nat, h: nat)
    requires Unique(c) && Clean(c) && i < |c| && c[i].hash != NULL
    requires Unique(c[i := c[i].(value := v)]) && Clean(c[i := c[i].(value := v)])
    ensures var c' := c[i := c[i].(value := v)];
            && (h in Contents(c') <==> if h == c[i].hash then v != NULL else h in Contents(c))
            && (h in Contents(c') ==> Contents(c')[h] == if h == c[i].hash then v else Contents(c)[h])
  {
    var c' := c[i := c[i].(value := v)];
    if h == c[i].hash {
      Lookup(c', i);
    } else {
      if h in Contents(c) {
        var j :| 0 <= j < |c| && c[j].value != NULL && c[j].hash == h;
        assert c'[j] == c[j];
      }
      if h in Contents(c') {
        var j :| 0 <= j < |c'| && c'[j].value != NULL && c'[j].hash == h;
        assert c'[j] == c[j];
      }
    }
  }

  lemma PrefixUnique(c: seq<Cell>, n: nat)
    requires Unique(c) && Clean(c) && n <= |c|
    ensures Unique(c[..n]) && Clean(c[..n])
  {
  }

  lemma PrefixEntry(c: seq<Cell>, n: nat, h: nat)
    requires Unique(c) && Clean(c) && n < |c|
    ensures Unique(c[..n]) && Clean(c[..n]) && Unique(c[..n + 1]) && Clean(c[..n + 1])
    ensures h in Contents(c[..n + 1]) <==> h in Contents(c[..n]) || (c[n].value != NULL && c[n].hash == h)
    ensures h in Contents(c[..n]) ==> h in Contents(c[..n + 1]) && Contents(c[..n + 1])[h] == Contents(c[..n])[h]
    ensures c[n].value != NULL && c[n].hash == h ==> h !in Contents(c[..n]) && Contents(c[..n + 1])[h] == c[n].value
  {
    PrefixUnique(c, n);
    PrefixUnique(c, n + 1);
    var p, q := c[..n], c[..n + 1];
    assert q[n] == c[n];
    if h in Contents(p) {
      var i :| 0 <= i < n && p[i].value != NULL && p[i].hash == h;
      assert q[i] == p[i];
    }
    if h in Contents(q) {
      var i :| 0 <= i <= n && q[i].value != NULL && q[i].hash == h;
      assert i < n ==> p[i].value != NULL;
    }
  }

  lemma PrefixContents(c: seq<Cell>, n: nat)
    requires Unique(c) && Clean(c) && n < |c|
    ensures Unique(c[..n]) && Clean(c[..n]) && Unique(c[..n + 1]) && Clean(c[..n + 1])
    ensures Contents(c[..n + 1]) == if c[n].value != NULL then Contents(c[..n])[c[n].hash := c[n].value] else Contents(c[..n])
    ensures c[n].value != NULL ==> c[n].hash !in Contents(c[..n])
  {
    PrefixEntry(c, n, c[n].hash);
    hide Contents, Unique, Clean;
    var m := if c[n].value != NULL then Contents(c[..n])[c[n].hash := c[n].value] else Contents(c[..n]);
    forall h: nat ensures (h in Contents(c[..n + 1]) <==> h in m) && (h in m ==> Contents(c[..n + 1])[h] == m[h]) {
      PrefixEntry(c, n, h);
    }
    SameMap(Contents(c[..n + 1]), m);
  }

  /** Every hash sits in its home cell. */
  ghost predicate Homed(c: seq<Cell>) {
    forall i :: 0 <= i < |c| && c[i].hash != NULL ==> c[i].hash == i
  }

  ghost predicate AllBelow(m: map<nat, nat>, n: nat) {
    forall h :: h in m ==> h < n
  }

  /** An empty table. */
  lemma EmptyOk(c: seq<Cell>)
    requires |c| > 0 && forall i :: 0 <= i < |c| ==> c[i] == EMPTY
    ensures CellsOk(c) && Unique(c) && Clean(c) && NoneErased(c) && Homed(c) && Contents(c) == map[]
  {
    var tb := Links(c);
    forall b, o | 0 <= b < |c| && 0 <= o < |c| ensures HashAt(tb, b, o) == NULL && Link(tb, b, o) == 0 {
    }
  }

  ghost function Entries(c: seq<Cell>): map<nat, nat>
    requires CellsOk(c)
  {
    CellsUnique(c);
    Contents(c)
  }

  /** The same entries in both tables. */
  ghost predicate Same(c: seq<Cell>, c': seq<Cell>) {
    CellsOk(c) && CellsOk(c') && Entries(c') == Entries(c)
  }

  lemma EmptyPrefix(c: seq<Cell>)
    requires Unique(c[..0]) && Clean(c[..0])
    ensures Contents(c[..0]) == map[]
  {
  }

  lemma ValueHasHash(c: seq<Cell>, i: nat)
    requires Unique(c) && Clean(c) && i < |c| && c[i].value != NULL
    ensures c[i].hash != NULL && c[i].hash in Contents(c)
  {
  }

  lemma NotStored(c: seq<Cell>, h: nat)
    requires CellsOk(c) && NoneErased(c) && h != NULL && h !in Entries(c)
    ensures forall i :: 0 <= i < |c| ==> c[i].hash != h
  {
    CellsUnique(c);
    forall i | 0 <= i < |c| ensures c[i].hash != h {
      if c[i].hash == h {
        Lookup(c, i);
      }
    }
  }

  /** In a table that is larger than every hash, each hash finds its home cell free. */
  lemma FreeHome(c: seq<Cell>, h: nat)
    requires CellsOk(c) && h != NULL && forall i :: 0 <= i < |c| ==> c[i].hash != h
    ensures Homed(c) && h < |c| ==> h % |c| == h && c[h % |c|].hash == NULL
  {
    if Homed(c) && h < |c| {
      assert h % |c| == h;
    }
  }

  /** A reserved cell that then receives its value. */
  lemma Placed(c: seq<Cell>, c1: seq<Cell>, h: nat, i: nat, v: nat)
    requires CellsOk(c) && CellsOk(c1) && Inserted(c, c1, h, i) && h != NULL && v != NULL && NoneErased(c)
    ensures var c2 := c1[i := c1[i].(value := v)];
            CellsOk(c2) && NoneErased(c2) && Entries(c2) == Entries(c)[h := v]
  {
    var c2 := c1[i := c1[i].(value := v)];
    InsertedContents(c, c1, h, i);
    ValueKeepsCells(c1, i, v);
    ValueContents(c1, i, v);
    assert NoneErased(c2);
  }

  lemma PlacedHome(c: seq<Cell>, c1: seq<Cell>, h: nat, i: nat, v: nat)
    requires Inserted(c, c1, h, i) && h != NULL
    ensures Homed(c) && h == i ==> Homed(c1[i := c1[i].(value := v)])
  {
  }

  // ---------------------------------------------------------------- growth

  /** roundUpPowerOf2; 0 stays 0. */
  function RoundUp(v: nat): nat {
    if v <= 1 then v else 2 * RoundUp((v + 1) / 2)
  }

  lemma {:induction false} RoundUpIsLeast(v: nat)
    requires v > 0
    ensures PowerOfTwo(RoundUp(v)) && v <= RoundUp(v) < 2 * v
    decreases v
  {
    if v > 1 {
      RoundUpIsLeast((v + 1) / 2);
    }
  }

  lemma {:induction false} RoundUpOfPower(n: nat)
    requires PowerOfTwo(n)
    ensures RoundUp(n) == n
    decreases n
  {
    if n > 1 {
      assert (n + 1) / 2 == n / 2;
      RoundUpOfPower(n / 2);
    }
  }

  /** How many of the first j cells of the sample hold a value. */
  function InUse(c: seq<Cell>, overflowIdx: nat, j: nat): (r: nat)
    requires |c| > 0
    ensures r <= j
  {
    if j == 0 then 0
    else InUse(c, overflowIdx, j - 1) + if c[SampleIndex(|c|, overflowIdx, j - 1)].value != NULL then 1 else 0
  }

  /** The cells of the sample that hold a value. */
  ghost function Valued(c: seq<Cell>, overflowIdx: nat, j: nat): set<nat>
    requires |c| > 0
  {
    set k: nat | k < j && c[SampleIndex(|c|, overflowIdx, k)].value != NULL
  }

  lemma {:induction false} InUseCounts(c: seq<Cell>, overflowIdx: nat, j: nat)
    requires |c| > 0
    ensures InUse(c, overflowIdx, j) == |Valued(c, overflowIdx, j)|
  {
    if j > 0 {
      InUseCounts(c, overflowIdx, j - 1);
      assert Valued(c, overflowIdx, j) ==
             Valued(c, overflowIdx, j - 1) + if c[SampleIndex(|c|, overflowIdx, j - 1)].value != NULL then {j - 1} else {};
    } else {
      assert Valued(c, overflowIdx, 0) == {};
    }
  }

  /** The table size that is tried first. */
  function NextTableSize(n: nat, inUse: nat): nat {
    var size := RoundUp(2 * n * inUse / CELLS_IN_USE_SAMPLE);
    if size < INITIAL_SIZE then INITIAL_SIZE else size
  }

  lemma {:induction false} FullSample(c: seq<Cell>, overflowIdx: nat, j: nat)
    requires |c| > 0 && SampleFull(c, overflowIdx) && NoneErased(c) && j <= CELLS_IN_USE_SAMPLE
    ensures InUse(c, overflowIdx, j) == j
  {
    if j > 0 {
      FullSample(c, overflowIdx, j - 1);
      assert c[SampleIndex(|c|, overflowIdx, j - 1)].hash != NULL;
    }
  }

  /** In a table without erased entries an overflow makes the next size tried exactly double. */
  lemma OverflowDoubles(c: seq<Cell>, overflowIdx: nat)
    requires |c| >= 4 && PowerOfTwo(|c|) && SampleFull(c, overflowIdx) && NoneErased(c)
    ensures NextTableSize(|c|, InUse(c, overflowIdx, CELLS_IN_USE_SAMPLE)) == 2 * |c|
  {
    var n := |c|;
    FullSample(c, overflowIdx, CELLS_IN_USE_SAMPLE);
    assert 2 * n * CELLS_IN_USE_SAMPLE / CELLS_IN_USE_SAMPLE == 2 * n;
    RoundUpOfPower(2 * n);
  }

  lemma NextTableSizeOk(n: nat, inUse: nat)
    ensures NextTableSize(n, inUse) >= INITIAL_SIZE && PowerOfTwo(NextTableSize(n, inUse))
  {
    var v := 2 * n * inUse / CELLS_IN_USE_SAMPLE;
    if v > 0 {
      RoundUpIsLeast(v);
    }
    assert PowerOfTwo(4) && PowerOfTwo(8);
  }

  lemma {:induction false} BoundOf(s: set<nat>) returns (bound: nat)
    ensures forall h :: h in s ==> h <= bound
    decreases |s|
  {
    if s == {} {
      bound := 0;
    } else {
      var x :| x in s;
      bound := BoundOf(s - {x});
      bound := if bound < x then x else bound;
      forall h | h in s ensures h <= bound {
        assert h == x || h in s - {x};
      }
    }
  }

  /** What is left to try: sizes up to the largest hash. */
  function Room(bound: nat, size: nat): nat {
    if size <= bound then bound + 1 - size else 0
  }

  lemma NotAllBelow(m: map<nat, nat>, bound: nat, size: nat)
    requires !AllBelow(m, size) && forall h :: h in m ==> h <= bound
    ensures size <= bound
  {
  }

  /** What a migration after an overflow makes of a table. */
  ghost predicate Migrated(c: seq<Cell>, c': seq<Cell>, overflowIdx: nat) {
    && Same(c, c') && NoneErased(c') && PowerOfTwo(|c'|) && |c'| >= INITIAL_SIZE
    && var size := NextTableSize(|c|, InUse(c, overflowIdx, CELLS_IN_USE_SAMPLE));
       && |c'| >= size
       && (AllBelow(Entries(c), size) ==> |c'| == size)
       && (AllBelow(Entries(c), |c'|) ==> Homed(c'))
  }

  ghost predicate Retried(c: seq<Cell>, c': seq<Cell>, hash: nat) {
    exists overflowIdx :: Overflows(c, hash, overflowIdx) && Migrated(c, c', overflowIdx)
  }

  /** The tables that the attempts to insert a hash meet: all but the last overflow and are migrated. */
  ghost predicate Attempts(tables: seq<seq<Cell>>, hash: nat) {
    && tables != []
    && (forall i :: 0 <= i < |tables| - 1 ==> Retried(tables[i], tables[i + 1], hash))
    && HasRoom(tables[|tables| - 1], hash)
  }

  // ---------------------------------------------------------------- the map object

  class SingleMap {
    var cells: array<Cell>
    var sizeMask: nat

    ghost predicate Sound()
      reads this, cells
    {
      cells.Length == sizeMask + 1 && CellsOk(cells[..])
    }

    /** The loop along the links, from the home cell that holds another hash. */
    method Follow(hash: nat) returns (found: bool, idx: nat, ghost prev: nat)
      requires Sound() && hash != NULL
      requires cells[hash % cells.Length].hash != NULL && cells[hash % cells.Length].hash != hash
      ensures found ==> cells[idx % cells.Length].hash == hash
      ensures !found ==> AtEnd(cells[..], hash, prev) && idx == hash + prev
    {
      hide TableOk, Complete, LinkOk, Clean;
      ghost var c := cells[..];
      ghost var tb := Links(c);
      ghost var b := Bucket(tb, hash);
      var n := sizeMask + 1;
      idx := hash;
      var delta := cells[idx % n].first;
      prev := 0;
      HashHere(c, hash, 0, hash % n);
      while delta != 0
        invariant prev < n && idx == hash + prev && cells[..] == c
        invariant Node(tb, b, prev) && Passed(tb, hash, prev + 1) && ChainTo(tb, b, prev) && delta == Link(tb, b, prev)
        decreases n - prev
      {
        FollowLink(tb, hash, prev);
        prev := prev + delta;
        idx := idx + delta;
        IndexIsPos(n, hash, prev);
        HashHere(c, hash, prev, idx % n);
        if cells[idx % n].hash == hash {
          return true, idx, prev;
        }
        delta := cells[idx % n].next;
      }
      return false, idx, prev;
    }

    /** The linear search from the end of the chain: the first empty cell is reserved and linked. */
    method Search(hash: nat, idx0: nat, prevCell: nat, prevIsFirst: bool, ghost prev: nat)
      returns (result: InsertResult, cell: nat, overflowIdx: nat)
      requires Sound() && AtEnd(cells[..], hash, prev) && idx0 == hash + prev
      requires prevCell == Pos(cells.Length, Home(cells.Length, hash), prev) && (prevIsFirst <==> prev == 0)
      modifies cells
      ensures Sound() && !result.FoundCell?
      ensures result.NewCell? ==> cell < cells.Length && Inserted(old(cells[..]), cells[..], hash, cell)
      ensures result.NoCell? ==> cells[..] == old(cells[..]) && SampleFull(cells[..], overflowIdx)
      ensures result.NoCell? <==> FullBeyond(old(cells[..]), hash, prev)
      ensures result.NoCell? ==> overflowIdx == hash + SearchEnd(cells.Length, prev) + 1
    {
      ghost var c := cells[..];
      assert Passed(Links(c), hash, prev + 1) && prev < |c| == |Links(c).hashes|;
      hide CellsOk, Linked, Passed, AtEnd, NewCells, Links, Inserted, SampleFull, Pos, Home;
      ghost var tb := Links(c);
      ghost var b := Bucket(tb, hash);
      var n := sizeMask + 1;
      cell := idx0 % n;
      var idx := idx0;
      var maxIdx := hash + sizeMask;
      var linearProbesRemaining: nat := if maxIdx - idx < LINEAR_SEARCH_LIMIT then maxIdx - idx else LINEAR_SEARCH_LIMIT;
      ghost var cur := prev;
      while linearProbesRemaining > 0
        invariant cells[..] == c && prev <= cur < n && idx == hash + cur && Passed(tb, hash, cur + 1)
        invariant linearProbesRemaining == SearchEnd(n, prev) - cur
        invariant forall o :: prev < o <= cur ==> c[Pos(n, Home(n, hash), o)].hash != NULL
        decreases linearProbesRemaining
      {
        linearProbesRemaining := linearProbesRemaining - 1;
        idx := idx + 1;
        cur := cur + 1;
        IndexIsPos(n, hash, cur);
        cell := idx % n;
        HashHere(c, hash, cur, cell);
        if cells[cell].hash == NULL {
          CellsKept(c, hash, prev, cur, cell, prevCell);
          cells[cell] := cells[cell].(hash := hash);
          ghost var c1 := c[cell := c[cell].(hash := hash)];
          assert cells[..] == c1;
          NewCellsAre(c, hash, prev, cur, cell, prevCell);
          if prevIsFirst {
            cells[prevCell] := cells[prevCell].(first := idx - idx0);
          } else {
            cells[prevCell] := cells[prevCell].(next := idx - idx0);
          }
          assert cells[..] == c1[prevCell := if prev == 0 then c1[prevCell].(first := cur - prev) else c1[prevCell].(next := cur - prev)];
          return NewCell, cell, 0;
        }
        NotElsewhere(c, hash, prev, cell);
        assert cells[cell].hash != hash;
        PassOne(tb, hash, cur);
      }
      overflowIdx := idx + 1;
      PassedIsFull(c, hash, prev, cur);
      return NoCell, cell, overflowIdx;
    }

    method InsertOrFind(hash: nat) returns (result: InsertResult, cell: nat, overflowIdx: nat)
      requires Sound() && hash != NULL
      modifies cells
      ensures Sound()
      ensures result.FoundCell? ==> cells[..] == old(cells[..]) && cell < cells.Length && cells[cell].hash == hash
      ensures result.NewCell? ==> cell < cells.Length && Inserted(old(cells[..]), cells[..], hash, cell)
      ensures result.NoCell? ==> cells[..] == old(cells[..]) && SampleFull(cells[..], overflowIdx)
      ensures result.NoCell? ==> forall i :: 0 <= i < cells.Length ==> cells[i].hash != hash
      ensures if result.NoCell? then Overflows(old(cells[..]), hash, overflowIdx) else HasRoom(old(cells[..]), hash)
      ensures old(cells[hash % cells.Length].hash) == NULL ==> result.NewCell? && cell == hash % cells.Length
      ensures old(cells[hash % cells.Length].hash) == NULL ==>
                cells[..] == old(cells[..])[hash % cells.Length := old(cells[hash % cells.Length]).(hash := hash)]
      ensures old(cells[hash % cells.Length].hash) == hash ==> result.FoundCell?
    {
      hide CellsOk, Inserted, SampleFull, AtEnd, Overflows, HasRoom;
      ghost var c := cells[..];
      var n := sizeMask + 1;
      cell := hash % n;
      overflowIdx := 0;
      if cells[cell].hash == hash {
        NoOverflow(c, hash, cell);
        return FoundCell, cell, 0;
      } else if cells[cell].hash == NULL {
        NoOverflow(c, hash, cell);
        HomeInserted(c, hash);
        cells[cell] := cells[cell].(hash := hash);
        assert cells[..] == c[cell := c[cell].(hash := hash)];
        return NewCell, cell, 0;
      }
      var found, idx;
      ghost var prev: nat;
      found, idx, prev := Follow(hash);
      if found {
        NoOverflow(c, hash, idx % n);
        return FoundCell, idx % n, 0;
      }
      AtEndAbsent(c, hash, prev);
      OverflowDecided(c, hash, prev, hash + SearchEnd(n, prev) + 1);
      IndexIsPos(n, hash, prev);
      hide FullBeyond;
      result, cell, overflowIdx := Search(hash, idx, idx % n, idx == hash, prev);
    }

    /** Mutator, find without insert. */
    method Find(hash: nat) returns (found: bool, cell: nat)
      requires Sound() && hash != NULL
      ensures found ==> cell < cells.Length && cells[cell].hash == hash
      ensures !found ==> forall i :: 0 <= i < cells.Length ==> cells[i].hash != hash
    {
      hide CellsOk, AtEnd;
      ghost var c := cells[..];
      var n := sizeMask + 1;
      if cells[hash % n].hash == hash {
        return true, hash % n;
      }
      if cells[hash % n].hash == NULL {
        HomeAbsent(c, hash);
        var delta := cells[hash % n].first;
        assert delta == 0;
        return false, 0;
      }
      var f, idx;
      ghost var prev: nat;
      f, idx, prev := Follow(hash);
      if f {
        return true, idx % n;
      }
      AtEndAbsent(c, hash, prev);
      return false, 0;
    }

    /** One attempt to move all entries to a table of the given size; an attempt that overflows is rolled back. */
    method TryMigrateToNewTableWithSize(desiredSize: nat) returns (ok: bool)
      requires Sound() && desiredSize > 0
      modifies this
      ensures Sound()
      ensures ok ==> fresh(cells) && cells.Length == desiredSize && Same(old(cells[..]), cells[..]) && NoneErased(cells[..])
      ensures !ok ==> cells == old(cells) && cells[..] == old(cells[..])
      ensures AllBelow(Entries(old(cells[..])), desiredSize) ==> ok && Homed(cells[..])
    {
      hide CellsOk, Unique, Clean, Contents, Homed, NoneErased;
      var srcCells := cells;
      var srcSize := sizeMask + 1;
      ghost var src := srcCells[..];
      CellsUnique(src);
      cells := new Cell[desiredSize](_ => EMPTY);
      sizeMask := desiredSize - 1;
      EmptyOk(cells[..]);
      PrefixUnique(src, 0);
      EmptyPrefix(src);
      for srcIdx := 0 to srcSize
        invariant fresh(cells) && cells.Length == desiredSize == sizeMask + 1 && CellsOk(cells[..])
        invariant srcCells[..] == src && Unique(src[..srcIdx]) && Clean(src[..srcIdx])
        invariant Entries(cells[..]) == Contents(src[..srcIdx]) && NoneErased(cells[..])
        invariant AllBelow(Contents(src), desiredSize) ==> Homed(cells[..])
      {
        PrefixContents(src, srcIdx);
        if srcCells[srcIdx].value != NULL {
          ValueHasHash(src, srcIdx);
          ghost var c := cells[..];
          ghost var g := src[srcIdx].hash;
          CellsUnique(c);
          NotStored(c, g);
          FreeHome(c, g);
          var result, dstCell, overflowIdx := InsertOrFind(srcCells[srcIdx].hash);
          assert result != FoundCell;
          if result == NoCell {
            cells := srcCells;
            sizeMask := srcSize - 1;
            return false;
          }
          ghost var c1 := cells[..];
          Placed(c, c1, g, dstCell, src[srcIdx].value);
          PlacedHome(c, c1, g, dstCell, src[srcIdx].value);
          cells[dstCell] := cells[dstCell].(value := srcCells[srcIdx].value);
          assert cells[..] == c1[dstCell := c1[dstCell].(value := src[srcIdx].value)];
        }
      }
      assert src[..srcSize] == src;
      return true;
    }


    /** A map object between calls. */
    ghost predicate Valid()
      reads this, cells
    {
      Sound() && cells.Length >= 4 && PowerOfTwo(cells.Length)
    }

    /** The finite map this object stands for. */
    ghost function Map(): map<nat, nat>
      reads this, cells
      requires Valid()
    {
      Entries(cells[..])
    }

    constructor (initialSize: nat)
      requires initialSize >= 4 && PowerOfTwo(initialSize)
      ensures Valid() && fresh(cells) && Map() == map[]
      ensures cells.Length == initialSize && forall i :: 0 <= i < cells.Length ==> cells[i] == EMPTY
    {
      cells := new Cell[initialSize](_ => EMPTY);
      sizeMask := initialSize - 1;
      new;
      EmptyOk(cells[..]);
    }

    /** Replaces the table by one that holds the same entries and no erased ones. */
    method MigrateToNewTable(overflowIdx: nat)
      requires Valid()
      modifies this
      ensures Valid() && fresh(cells) && Map() == old(Map()) && NoneErased(cells[..])
      ensures old(NoneErased(cells[..])) && old(SampleFull(cells[..], overflowIdx)) ==> cells.Length >= 2 * old(cells.Length)
      ensures Migrated(old(cells[..]), cells[..], overflowIdx)
    {
      hide CellsOk, NoneErased, SampleFull, Homed, AllBelow, PowerOfTwo, NextTableSize, Entries;
      ghost var c := cells[..];
      var inUseCells := 0;
      for j := 0 to CELLS_IN_USE_SAMPLE
        invariant cells[..] == c && inUseCells == InUse(c, overflowIdx, j)
      {
        if cells[SampleIndex(sizeMask + 1, overflowIdx, j)].value != NULL {
          inUseCells := inUseCells + 1;
        }
      }
      NextTableSizeOk(sizeMask + 1, inUseCells);
      if NoneErased(c) && SampleFull(c, overflowIdx) {
        OverflowDoubles(c, overflowIdx);
      }
      ghost var bound := BoundOf(Entries(c).Keys);
      var nextTableSize := NextTableSize(sizeMask + 1, inUseCells);
      ghost var target := nextTableSize;
      while true
        invariant Sound() && cells == old(cells) && cells[..] == c
        invariant nextTableSize >= target >= INITIAL_SIZE && PowerOfTwo(nextTableSize)
        invariant AllBelow(Entries(c), target) ==> nextTableSize == target
        decreases Room(bound, nextTableSize)
      {
        var ok := TryMigrateToNewTableWithSize(nextTableSize);
        if ok {
          return;
        }
        NotAllBelow(Entries(c), bound, nextTableSize);
        Doubled(nextTableSize);
        nextTableSize := nextTableSize * 2;
      }
    }

    /** Mutator, find with insert: migrates until the hash has a cell, which always succeeds in the end. */
    method InsertKey(hash: nat) returns (cell: nat, ghost tables: seq<seq<Cell>>)
      requires Valid() && hash != NULL
      modifies this, cells
      ensures Valid() && (cells == old(cells) || fresh(cells)) && Map() == old(Map())
      ensures cell < cells.Length && cells[cell].hash == hash
      ensures Attempts(tables, hash) && tables[0] == old(cells[..]) && |tables[|tables| - 1]| == cells.Length
      ensures old(cells[hash % cells.Length].hash) == NULL ==>
                && cells == old(cells) && cell == hash % cells.Length
                && cells[..] == old(cells[..])[cell := old(cells[hash % cells.Length]).(hash := hash)]
    {
      hide CellsOk, NoneErased, SampleFull, Homed, AllBelow, PowerOfTwo, Entries, Inserted, Overflows, HasRoom, Retried, NextTableSize, Same;
      ghost var bound := BoundOf(Map().Keys + {hash});
      ghost var migrated := false;
      tables := [cells[..]];
      while true
        invariant Valid() && (cells == old(cells) || fresh(cells)) && Map() == old(Map())
        invariant migrated ==> NoneErased(cells[..]) && (AllBelow(Map(), cells.Length) ==> Homed(cells[..]))
        invariant !migrated ==> cells == old(cells) && cells[..] == old(cells[..])
        invariant migrated ==> old(cells[hash % cells.Length].hash) != NULL
        invariant tables != [] && tables[0] == old(cells[..]) && tables[|tables| - 1] == cells[..]
        invariant forall i :: 0 <= i < |tables| - 1 ==> Retried(tables[i], tables[i + 1], hash)
        decreases !migrated, Room(bound, cells.Length)
      {
        ghost var c := cells[..];
        var result, overflowIdx;
        result, cell, overflowIdx := InsertOrFind(hash);
        if result != NoCell {
          if result == NewCell {
            SameEntries(c, cells[..], hash, cell);
          }
          return;
        }
        OverflowIsSmall(c, hash, Map(), bound);
        MigrateToNewTable(overflowIdx);
        RetriedNow(c, cells[..], hash, overflowIdx);
        hide Migrated;
        migrated := true;
        ghost var before := tables;
        tables := tables + [cells[..]];
        assert forall i :: 0 <= i < |before| ==> tables[i] == before[i];
      }
    }

    /** The value stored for a hash, NULL if there is none. */
    method Get(hash: nat) returns (value: nat)
      requires Valid() && hash != NULL
      ensures value == if hash in Map() then Map()[hash] else NULL
    {
      hide CellsOk, PowerOfTwo;
      var found, cell := Find(hash);
      CellsUnique(cells[..]);
      if !found {
        AbsentLookup(cells[..], hash);
        return NULL;
      }
      Lookup(cells[..], cell);
      value := cells[cell].value;
    }

    /** Stores a value and returns the one it replaces, NULL if there was none. */
    method Set(hash: nat, desired: nat) returns (oldValue: nat)
      requires Valid() && hash != NULL && desired != NULL
      modifies this, cells
      ensures Valid() && (cells == old(cells) || fresh(cells))
      ensures Map() == old(Map())[hash := desired]
      ensures oldValue == if hash in old(Map()) then old(Map())[hash] else NULL
      ensures old(cells[hash % cells.Length].hash) == NULL ==>
                && cells == old(cells)
                && cells[..] == old(cells[..])[hash % cells.Length := old(cells[hash % cells.Length]).(hash := hash, value := desired)]
    {
      hide CellsOk, PowerOfTwo, Contents, Attempts;
      var cell;
      ghost var tables;
      cell, tables := InsertKey(hash);
      ghost var c := cells[..];
      CellsUnique(c);
      Lookup(c, cell);
      ValueKeepsCells(c, cell, desired);
      ValueContents(c, cell, desired);
      oldValue := cells[cell].value;
      cells[cell] := cells[cell].(value := desired);
      assert cells[..] == c[cell := c[cell].(value := desired)];
    }

    /** Removes a hash: its cell stays, without a value. */
    method Erase(hash: nat) returns (oldValue: nat)
      requires Valid() && hash != NULL
      modifies cells
      ensures Valid() && Map() == old(Map()) - {hash}
      ensures oldValue == if hash in old(Map()) then old(Map())[hash] else NULL
    {
      hide CellsOk, PowerOfTwo, Contents;
      var found, cell := Find(hash);
      ghost var c := cells[..];
      CellsUnique(c);
      if !found {
        AbsentLookup(c, hash);
        assert Map() - {hash} == Map();
        return NULL;
      }
      Lookup(c, cell);
      ValueKeepsCells(c, cell, NULL);
      ValueContents(c, cell, NULL);
      oldValue := cells[cell].value;
      cells[cell] := cells[cell].(value := NULL);
      assert cells[..] == c[cell := c[cell].(value := NULL)];
    }
  }

  lemma RetriedNow(c: seq<Cell>, c': seq<Cell>, hash: nat, overflowIdx: nat)
    requires Overflows(c, hash, overflowIdx) && Migrated(c, c', overflowIdx)
    ensures Retried(c, c', hash) && NoneErased(c') && (AllBelow(Entries(c'), |c'|) ==> Homed(c'))
  {
  }

  lemma Doubled(n: nat)
    requires PowerOfTwo(n)
    ensures PowerOfTwo(2 * n)
  {
  }

  lemma SameEntries(c: seq<Cell>, c': seq<Cell>, hash: nat, i: nat)
    requires CellsOk(c) && CellsOk(c') && Inserted(c, c', hash, i)
    ensures Entries(c') == Entries(c) && i < |c'| && c'[i].hash == hash
  {
    InsertedContents(c, c', hash, i);
  }

  /** A migrated table that is larger than every hash cannot overflow. */
  lemma OverflowIsSmall(c: seq<Cell>, hash: nat, m: map<nat, nat>, bound: nat)
    requires |c| > 0 && hash <= bound && forall h :: h in m ==> h <= bound
    requires c[hash % |c|].hash != NULL && c[hash % |c|].hash != hash
    ensures (AllBelow(m, |c|) ==> Homed(c)) ==> |c| <= bound
  {
    assert |c| > hash ==> hash % |c| == hash;
    assert |c| > bound ==> AllBelow(m, |c|);
  }

  lemma HomeInserted(c: seq<Cell>, hash: nat)
    requires CellsOk(c) && hash != NULL && c[hash % |c|].hash == NULL
    ensures var i := hash % |c|; var c' := c[i := c[i].(hash := hash)];
            CellsOk(c') && Inserted(c, c', hash, i)
  {
    var i := hash % |c|;
    HashWritten(c, i, hash);
    assert forall j :: 0 <= j < |c| ==> Links(c).hashes[j] == c[j].hash;
    ReserveHome(Links(c), hash);
    hide Linked;
  }

  lemma HomeAbsent(c: seq<Cell>, hash: nat)
    requires CellsOk(c) && hash != NULL && c[hash % |c|].hash == NULL
    ensures c[hash % |c|].first == 0 && forall i :: 0 <= i < |c| ==> c[i].hash != hash
  {
    EmptyHome(Links(c), hash);
    assert forall j :: 0 <= j < |c| ==> Links(c).hashes[j] == c[j].hash;
  }

  lemma AtEndAbsent(c: seq<Cell>, hash: nat, prev: nat)
    requires AtEnd(c, hash, prev)
    ensures prev < |c| && forall i :: 0 <= i < |c| ==> c[i].hash != hash
  {
    forall i | 0 <= i < |c| ensures c[i].hash != hash {
      NotElsewhere(c, hash, prev, i);
    }
  }

  // ---------------------------------------------------------------- the attempts of one insert

  lemma OverflowIsFull(c: seq<Cell>, hash: nat, overflowIdx: nat)
    requires Overflows(c, hash, overflowIdx)
    ensures |c| > 0 && SampleFull(c, overflowIdx)
  {
    var prev: nat :| OverflowsAt(c, hash, prev) && overflowIdx == hash + SearchEnd(|c|, prev) + 1;
    var n, tb, end := |c|, Links(c), SearchEnd(|c|, prev);
    forall o | prev < o <= end ensures HashAt(tb, Bucket(tb, hash), o) != NULL && HashAt(tb, Bucket(tb, hash), o) != hash {
      HashHere(c, hash, o, Pos(n, Home(n, hash), o));
      NotElsewhere(c, hash, prev, Pos(n, Home(n, hash), o));
    }
    assert Passed(tb, hash, end + 1);
    PassedIsFull(c, hash, prev, end);
  }

  /** From the second attempt on, every overflow at least doubles the table. */
  lemma LaterAttemptsDouble(tables: seq<seq<Cell>>, hash: nat, i: nat)
    requires Attempts(tables, hash) && 0 < i < |tables| - 1
    ensures |tables[i + 1]| >= 2 * |tables[i]|
  {
    assert Retried(tables[i - 1], tables[i], hash) && Retried(tables[i], tables[i + 1], hash);
    var idx :| Overflows(tables[i], hash, idx) && Migrated(tables[i], tables[i + 1], idx);
    OverflowIsFull(tables[i], hash, idx);
    hide Overflows, SampleFull, NextTableSize, InUse, Same, Homed, AllBelow, Entries;
    OverflowDoubles(tables[i], idx);
  }

  // ---------------------------------------------------------------- the third attempt

  function Pow2(k: nat): (n: nat)
    ensures n > 0
  {
    if k == 0 then 1 else 2 * Pow2(k - 1)
  }

  /** 10 + 2^20. */
  const LATE: nat := 1048586

  lemma {:induction false} PowerTimes(k: nat, j: nat)
    ensures PowerOfTwo(Pow2(k)) && Pow2(k + j) == Pow2(k) * Pow2(j)
    decreases k
  {
    if k > 0 {
      PowerTimes(k - 1, j);
    }
  }

  lemma Powers()
    ensures Pow2(8) == 256 && Pow2(20) == 1048576
  {
    assert Pow2(4) == 16;
    PowerTimes(4, 4);
    PowerTimes(8, 8);
    PowerTimes(16, 4);
  }

  lemma {:induction false} AtLeast256(k: nat)
    requires k >= 8
    ensures Pow2(k) >= 256
    decreases k
  {
    Powers();
    if k > 8 {
      AtLeast256(k - 1);
    }
  }

  /** In the tables of 2^8 to 2^20 cells the home of LATE is cell 10. */
  lemma HomeOfLate(k: nat)
    requires 8 <= k <= 20
    ensures LATE % Pow2(k) == 10
  {
    Powers();
    AtLeast256(k);
    PowerTimes(k, 20 - k);
    var n, q := Pow2(k), Pow2(20 - k);
    assert Pow2(20) == n * q;
    hide Pow2;
    assert LATE == q * n + 10;
    Quotient(n, LATE, q, 10);
  }

  /** A table of 2^k cells that holds the hashes 10 to 138, each at home and with a value. */
  ghost predicate Row(c: seq<Cell>, k: nat) {
    && k >= 8 && |c| == Pow2(k) && CellsOk(c) && Homed(c) && NoneErased(c)
    && forall i :: 0 <= i < |c| ==> (c[i].hash != NULL <==> 10 <= i <= 138)
  }

  lemma AtHome(c: seq<Cell>, i: nat)
    requires CellsOk(c) && Homed(c) && NoneErased(c)
    ensures i in Entries(c) <==> i < |c| && c[i].hash != NULL
  {
    CellsUnique(c);
    hide CellsOk, Unique, Clean;
    if i < |c| && c[i].hash != NULL {
      Lookup(c, i);
    }
    if i in Contents(c) {
      var j :| 0 <= j < |c| && c[j].value != NULL && c[j].hash == i;
    }
  }

  lemma RowEntries(c: seq<Cell>, k: nat, h: nat)
    requires Row(c, k)
    ensures h in Entries(c) <==> 10 <= h <= 138
  {
    AtHome(c, h);
    AtLeast256(k);
    hide CellsOk, Entries, Homed, NoneErased;
  }

  lemma EntriesRow(c: seq<Cell>, k: nat)
    requires k >= 8 && |c| == Pow2(k) && CellsOk(c) && Homed(c) && NoneErased(c)
    requires forall h: nat :: h in Entries(c) <==> 10 <= h <= 138
    ensures Row(c, k)
  {
    hide CellsOk, Entries;
    forall i: nat | i < |c| ensures c[i].hash != NULL <==> 10 <= i <= 138 {
      AtHome(c, i);
    }
  }

  /** While every hash is at home, a bucket has no further members. */
  lemma HomedAlone(c: seq<Cell>, b: nat, o: nat)
    requires Homed(c) && b < |c| && o < |c| && Member(Links(c), b, o)
    ensures o == 0
  {
    var p := Pos(|c|, b, o);
    assert HashAt(Links(c), b, o) == c[p].hash == p;
    assert p % |c| == p;
  }

  lemma HomedEnd(c: seq<Cell>, b: nat)
    requires CellsOk(c) && Homed(c) && b < |c|
    ensures Link(Links(c), b, 0) == 0
  {
    var tb := Links(c);
    assert LinkOk(tb, b, 0);
    var to := Link(tb, b, 0);
    if to < |c| && Member(tb, b, to) {
      HomedAlone(c, b, to);
    }
  }

  /** Nothing but the home cell belongs to the bucket of cell 10, and the next 128 cells are occupied. */
  lemma RowOverflows(c: seq<Cell>, k: nat)
    requires Row(c, k) && k <= 20
    ensures OverflowsAt(c, LATE, 0) && SampleFull(c, LATE + 129)
  {
    var tb, n := Links(c), |c|;
    HomeOfLate(k);
    AtLeast256(k);
    HomedEnd(c, 10);
    hide Pow2, CellsOk;
    forall o | 0 <= o <= 128 ensures HashAt(tb, 10, o) == c[Pos(n, 10, o)].hash == 10 + o {
    }
    assert Passed(tb, LATE, 129);
    assert Passed(tb, LATE, 1);
    assert FullBeyond(c, LATE, 0);
    PassedIsFull(c, LATE, 0, 128);
  }

  /** From 2^21 cells on the home of LATE is free. */
  lemma RowHasRoom(c: seq<Cell>)
    requires Row(c, 21)
    ensures HasRoom(c, LATE)
  {
    Powers();
    NoOverflow(c, LATE, 0);
  }

  lemma RowDoubles(c: seq<Cell>, k: nat, overflowIdx: nat)
    requires Row(c, k) && k <= 20 && Overflows(c, LATE, overflowIdx)
    ensures NextTableSize(|c|, InUse(c, overflowIdx, CELLS_IN_USE_SAMPLE)) == Pow2(k + 1) && AllBelow(Entries(c), Pow2(k + 1))
  {
    AtLeast256(k);
    PowerTimes(k, 0);
    hide CellsOk, Homed, NoneErased, SampleFull, Entries, NextTableSize, InUse, Overflows;
    OverflowIsFull(c, LATE, overflowIdx);
    OverflowDoubles(c, overflowIdx);
    forall h: nat ensures h in Entries(c) <==> 10 <= h <= 138 {
      RowEntries(c, k, h);
    }
  }

  lemma RowRetried(c: seq<Cell>, k: nat, c': seq<Cell>)
    requires Row(c, k) && k <= 20 && Retried(c, c', LATE)
    ensures Row(c', k + 1)
  {
    var idx :| Overflows(c, LATE, idx) && Migrated(c, c', idx);
    RowDoubles(c, k, idx);
    MigratedTo(c, c', idx, Pow2(k + 1));
    hide CellsOk, Homed, NoneErased, Overflows, Migrated, Entries, NextTableSize, InUse, AllBelow, Pow2;
    forall h: nat ensures h in Entries(c) <==> 10 <= h <= 138 {
      RowEntries(c, k, h);
    }
    hide Row;
    EntriesRow(c', k + 1);
  }

  lemma MigratedTo(c: seq<Cell>, c': seq<Cell>, overflowIdx: nat, size: nat)
    requires |c| > 0 && CellsOk(c) && Migrated(c, c', overflowIdx)
    requires size == NextTableSize(|c|, InUse(c, overflowIdx, CELLS_IN_USE_SAMPLE)) && AllBelow(Entries(c), size)
    ensures |c'| == size && CellsOk(c') && Homed(c') && NoneErased(c') && Entries(c') == Entries(c)
  {
    hide CellsOk, Homed, NoneErased, Entries, NextTableSize, InUse, AllBelow, PowerOfTwo;
  }

  lemma NoRetry(c: seq<Cell>, c': seq<Cell>, hash: nat)
    requires Retried(c, c', hash)
    ensures !HasRoom(c, hash)
  {
    hide OverflowsAt, Migrated;
  }

  lemma Earlier(tables: seq<seq<Cell>>, hash: nat, i: nat)
    requires Attempts(tables, hash) && 0 < i < |tables|
    ensures Retried(tables[i - 1], tables[i], hash) && !HasRoom(tables[i - 1], hash)
  {
    var j := i - 1;
    assert Retried(tables[j], tables[j + 1], hash);
    NoRetry(tables[j], tables[j + 1], hash);
  }

  lemma {:induction false} RowAttempt(tables: seq<seq<Cell>>, i: nat)
    requires Attempts(tables, LATE) && Row(tables[0], 8) && i < |tables|
    ensures i <= 13 && Row(tables[i], i + 8)
    decreases i
  {
    hide Attempts, Row, Retried, HasRoom;
    if i > 0 {
      RowAttempt(tables, i - 1);
      Earlier(tables, LATE, i);
      if i - 1 == 13 {
        RowHasRoom(tables[13]);
      }
      RowRetried(tables[i - 1], i + 7, tables[i]);
    }
  }

  /** The third attempt can fail, and so can the thirteenth: hashes that agree in their low bits stay in one bucket. */
  lemma ThirdAttemptCanFail(tables: seq<seq<Cell>>)
    requires Attempts(tables, LATE) && Row(tables[0], 8)
    ensures |tables| == 14
  {
    var last := |tables| - 1;
    RowAttempt(tables, last);
    if last < 13 {
      RowOverflows(tables[last], last + 8);
    }
  }

  /** The calls that do it: 129 hashes in a table of 256 cells, then one that differs from the first in bit 20 only. */
  method InsertLate() returns (table: SingleMap, ghost tables: seq<seq<Cell>>)
    ensures fresh(table) && table.Valid() && |tables| == 14
  {
    Powers();
    PowerTimes(8, 0);
    table := new SingleMap(256);
    for h := 10 to 139
      invariant table.Valid() && fresh(table) && fresh(table.cells) && RowTo(table.cells[..], h)
    {
      RowNext(table.cells[..], h);
      var oldValue := table.Set(h, 1);
    }
    FullRow(table.cells[..]);
    hide Row, RowTo;
    var cell;
    cell, tables := table.InsertKey(LATE);
    ThirdAttemptCanFail(tables);
  }

  /** The hashes 10 to h - 1, at home in 256 cells. */
  ghost predicate RowTo(c: seq<Cell>, h: nat) {
    && |c| == 256 && Homed(c) && NoneErased(c)
    && forall i :: 0 <= i < |c| ==> (c[i].hash != NULL <==> 10 <= i < h)
  }

  lemma RowNext(c: seq<Cell>, h: nat)
    requires RowTo(c, h) && 10 <= h < 139
    ensures h % |c| == h && c[h].hash == NULL && RowTo(c[h := c[h].(hash := h, value := 1)], h + 1)
  {
  }

  lemma FullRow(c: seq<Cell>)
    requires RowTo(c, 139) && CellsOk(c)
    ensures Row(c, 8)
  {
    Powers();
  }
}
