/**
 `SingleMap_Linear`: linear probing in a circular array, with deletion that shifts cells back
 instead of leaving tombstones.  Keys are identified with their hashes; `Avalanche` proves
 the hash function one-to-one.
 */
module SingleMapLinear {
  import opened Counting
  import opened Ring

  const NULL: nat := 0  // KeyTraits::NullHash and ValueTraits::NullValue

  datatype Cell = Cell(hash: nat, value: nat)

  const EMPTY := Cell(NULL, NULL)

  // ---------------------------------------------------------------- tables as sequences of cells

  predicate Used(c: seq<Cell>, i: nat)
    requires i < |c|
  {
    c[i].hash != NULL
  }

  ghost predicate Unique(c: seq<Cell>) {
    forall i, j :: 0 <= i < j < |c| && Used(c, i) ==> c[i].hash != c[j].hash
  }

  /** Cell k lies on the probe path of the hash stored in cell i, before i. */
  ghost predicate OnPath(c: seq<Cell>, i: nat, k: nat)
    requires i < |c| && k < |c|
  {
    Off(|c|, Home(|c|, c[i].hash), k) < Off(|c|, Home(|c|, c[i].hash), i)
  }

  /** No probe path crosses an empty cell. */
  ghost predicate NoGaps(c: seq<Cell>) {
    forall i, k :: 0 <= i < |c| && 0 <= k < |c| && Used(c, i) && OnPath(c, i, k) ==> Used(c, k)
  }

  /** Empty cells carry no value. */
  ghost predicate Clean(c: seq<Cell>) {
    forall i :: 0 <= i < |c| && !Used(c, i) ==> c[i].value == NULL
  }

  ghost predicate TableOk(c: seq<Cell>) {
    |c| > 0 && Unique(c) && NoGaps(c) && Clean(c)
  }

  /** The finite map a table stands for. */
  ghost function Contents(c: seq<Cell>): map<nat, nat>
    requires Unique(c)
  {
    map i | 0 <= i < |c| && Used(c, i) :: c[i].hash := c[i].value
  }

  ghost predicate HasRoom(c: seq<Cell>) {
    exists e :: 0 <= e < |c| && !Used(c, e)
  }

  lemma PrefixUnique(c: seq<Cell>, n: nat)
    requires Unique(c) && n <= |c|
    ensures Unique(c[..n])
  {
    assert forall i :: 0 <= i < n ==> Used(c[..n], i) == Used(c, i);
  }

  lemma PrefixEntry(c: seq<Cell>, n: nat, h: nat)
    requires Unique(c) && n < |c|
    ensures Unique(c[..n]) && Unique(c[..n + 1])
    ensures h in Contents(c[..n + 1]) <==> h in Contents(c[..n]) || (Used(c, n) && c[n].hash == h)
    ensures h in Contents(c[..n]) ==> h in Contents(c[..n + 1]) && Contents(c[..n + 1])[h] == Contents(c[..n])[h]
    ensures Used(c, n) && c[n].hash == h ==> h !in Contents(c[..n])
  {
    PrefixUnique(c, n);
    PrefixUnique(c, n + 1);
    var p, q := c[..n], c[..n + 1];
    assert q[n] == c[n] && Used(q, n) == Used(c, n);
    if h in Contents(p) {
      var i :| 0 <= i < n && Used(p, i) && p[i].hash == h;
      assert Used(q, i) && q[i] == p[i];
    }
    if h in Contents(q) {
      var i :| 0 <= i <= n && Used(q, i) && q[i].hash == h;
      assert i < n ==> Used(p, i) && p[i].hash == h;
    }
  }

  /** Extending a prefix of a table by one cell. */
  lemma PrefixContents(c: seq<Cell>, n: nat)
    requires Unique(c) && n < |c|
    ensures Unique(c[..n]) && Unique(c[..n + 1])
    ensures Contents(c[..n + 1]) == if Used(c, n) then Contents(c[..n])[c[n].hash := c[n].value] else Contents(c[..n])
    ensures Used(c, n) ==> c[n].hash !in Contents(c[..n])
  {
    PrefixUnique(c, n);
    PrefixUnique(c, n + 1);
    if Used(c, n) {
      assert Used(c[..n + 1], n) && c[..n + 1][n] == c[n];
      Lookup(c[..n + 1], n);
      PrefixEntry(c, n, c[n].hash);
    }
    hide Contents, Unique;
    forall h: nat {
      PrefixEntry(c, n, h);
    }
  }

  lemma PrefixRoom(c: seq<Cell>, n: nat)
    requires |c| == n + 1
    ensures HasRoom(c) <==> HasRoom(c[..n]) || !Used(c, n)
  {
    if HasRoom(c) && Used(c, n) {
      var e :| 0 <= e < |c| && !Used(c, e);
      assert !Used(c[..n], e);
    }
    if HasRoom(c[..n]) {
      var e :| 0 <= e < n && !Used(c[..n], e);
      assert !Used(c, e);
    }
  }

  /** A table has at most as many entries as cells, and fewer when it has room. */
  lemma {:induction false} SizeAndRoom(c: seq<Cell>)
    requires Unique(c)
    ensures |Contents(c)| <= |c|
    ensures |Contents(c)| < |c| <==> HasRoom(c)
    decreases |c|
  {
    if c != [] {
      var n := |c| - 1;
      PrefixContents(c, n);
      assert c[..n + 1] == c;
      hide Contents, Unique;
      SizeAndRoom(c[..n]);
      PrefixRoom(c, n);
    }
  }

  /** Writing an entry to an empty cell, or changing the value of an entry. */
  lemma WriteContents(c: seq<Cell>, i: nat, h: nat, v: nat)
    requires Unique(c) && i < |c| && h != NULL
    requires c[i].hash == h || (!Used(c, i) && h !in Contents(c))
    ensures Unique(c[i := Cell(h, v)]) && Contents(c[i := Cell(h, v)]) == Contents(c)[h := v]
  {
    var c' := c[i := Cell(h, v)];
    forall j | 0 <= j < |c| && j != i && Used(c, j) ensures c[j].hash != h {
      assert c[j].hash in Contents(c);
    }
    assert forall j :: 0 <= j < |c| && j != i ==> Used(c', j) == Used(c, j);
    assert Unique(c');
    forall k ensures k in Contents(c') <==> k in Contents(c)[h := v] {
      if k in Contents(c) {
        var j :| 0 <= j < |c| && Used(c, j) && c[j].hash == k;
        assert j != i ==> Used(c', j) && c'[j].hash == k;
      }
      if k in Contents(c') {
        var j :| 0 <= j < |c'| && Used(c', j) && c'[j].hash == k;
        assert j != i ==> Used(c, j) && c[j].hash == k;
      }
      assert Used(c', i) && c'[i].hash == h;
    }
  }

  /** Clearing a cell. */
  lemma ClearContents(c: seq<Cell>, i: nat)
    requires Unique(c) && i < |c| && Used(c, i)
    ensures Unique(c[i := EMPTY]) && Contents(c[i := EMPTY]) == Contents(c) - {c[i].hash}
  {
    var c' := c[i := EMPTY];
    var h := c[i].hash;
    Cleared(c, i);
    assert !Used(c', i);
    PutInto(Contents(c'), h, c[i].value);
    hide Contents, Unique;
    WriteContents(c', i, h, c[i].value);
    assert c'[i := c[i]] == c;
  }

  lemma PutInto(m: map<nat, nat>, h: nat, v: nat)
    requires h !in m
    ensures m[h := v] - {h} == m
  {
  }

  lemma Cleared(c: seq<Cell>, i: nat)
    requires Unique(c) && i < |c| && Used(c, i)
    ensures Unique(c[i := EMPTY]) && c[i].hash !in Contents(c[i := EMPTY])
  {
    var c' := c[i := EMPTY];
    forall j | 0 <= j < |c| && Used(c', j) ensures j != i && Used(c, j) && c'[j].hash != c[i].hash {
      assert j < i ==> c[j].hash != c[i].hash;
      assert i < j ==> c[i].hash != c[j].hash;
    }
  }

  lemma EmptyTable(c: seq<Cell>, src: seq<Cell>)
    requires |c| > 0 && forall i :: 0 <= i < |c| ==> c[i] == EMPTY
    ensures TableOk(c) && Unique(c) && Unique(src[..0]) && Contents(c) == Contents(src[..0])
  {
    assert forall i :: 0 <= i < |c| ==> !Used(c, i);
  }

  lemma UniqueTable(c: seq<Cell>)
    requires TableOk(c)
    ensures Unique(c)
  {
  }

  lemma Lookup(c: seq<Cell>, i: nat)
    requires Unique(c) && i < |c| && Used(c, i)
    ensures c[i].hash in Contents(c) && Contents(c)[c[i].hash] == c[i].value
  {
  }

  /** The first o cells from the home of h are used, by other hashes. */
  ghost predicate Passed(c: seq<Cell>, h: nat, o: nat)
    requires |c| > 0 && o <= |c|
  {
    forall j :: 0 <= j < o ==> Used(c, Pos(|c|, Home(|c|, h), j)) && c[Pos(|c|, Home(|c|, h), j)].hash != h
  }

  /** Probing from its home, a stored hash is met before any empty cell. */
  lemma MissMeansAbsent(c: seq<Cell>, h: nat, o: nat)
    requires TableOk(c) && h != NULL && o < |c| && Passed(c, h, o) && !Used(c, Pos(|c|, Home(|c|, h), o))
    ensures h !in Contents(c)
  {
    var b := Home(|c|, h);
    forall i | 0 <= i < |c| ensures c[i].hash != h {
      assert Pos(|c|, b, Off(|c|, b, i)) == i;
      OffPos(|c|, b, o);
      var d, crossed := Off(|c|, b, i), OnPath(c, i, Pos(|c|, b, o));
      assert c[i].hash == h ==> (crossed <==> o < d);
    }
  }

  /** The cell where the probe stops can take the hash. */
  lemma InsertKeepsTable(c: seq<Cell>, h: nat, v: nat, o: nat)
    requires TableOk(c) && h != NULL && o < |c| && Passed(c, h, o) && !Used(c, Pos(|c|, Home(|c|, h), o))
    ensures var c' := c[Pos(|c|, Home(|c|, h), o) := Cell(h, v)];
            TableOk(c') && h !in Contents(c) && Contents(c') == Contents(c)[h := v]
  {
    var b := Home(|c|, h);
    var p := Pos(|c|, b, o);
    var c' := c[p := Cell(h, v)];
    MissMeansAbsent(c, h, o);
    WriteContents(c, p, h, v);
    OffPos(|c|, b, o);
    forall i, k | 0 <= i < |c'| && 0 <= k < |c'| && Used(c', i) && OnPath(c', i, k) ensures Used(c', k) {
      if i == p {
        assert Pos(|c|, b, Off(|c|, b, k)) == k;
        assert k == p || Used(c, k);
      } else {
        assert Used(c, i) && OnPath(c, i, k);
      }
    }
  }

  /** Changing a value. */
  lemma UpdateKeepsTable(c: seq<Cell>, i: nat, v: nat)
    requires TableOk(c) && i < |c| && Used(c, i)
    ensures TableOk(c[i := c[i].(value := v)]) && Contents(c[i := c[i].(value := v)]) == Contents(c)[c[i].hash := v]
  {
    var c' := c[i := c[i].(value := v)];
    WriteContents(c, i, c[i].hash, v);
    assert forall j :: 0 <= j < |c| ==> Used(c', j) == Used(c, j);
    assert forall j, k :: 0 <= j < |c| && 0 <= k < |c| ==> OnPath(c', j, k) == OnPath(c, j, k);
  }

  // ---------------------------------------------------------------- deletion

  /**
   A table with a hole that is being shifted along: `hole` counts as empty, the cells after it
   up to `scan` are used, and only paths to cells from `scan` on may cross the hole.
   */
  ghost predicate Shifting(c: seq<Cell>, hole: nat, scan: nat)
    requires hole < |c| && scan < |c|
  {
    && hole != scan
    && !Used(c, hole)
    && (forall k :: 0 <= k < |c| && 0 < Off(|c|, hole, k) < Off(|c|, hole, scan) ==> Used(c, k))
    && (forall i, k :: 0 <= i < |c| && 0 <= k < |c| && Used(c, i) && OnPath(c, i, k) ==>
          Used(c, k) || (k == hole && Off(|c|, hole, scan) <= Off(|c|, hole, i)))
  }

  function Next(n: nat, i: nat): (j: nat)
    requires i < n
    ensures j < n
  {
    if i + 1 < n then i + 1 else 0
  }

  lemma StartShifting(c: seq<Cell>, i: nat)
    requires |c| > 1 && NoGaps(c) && i < |c| && Used(c, i)
    ensures Shifting(c[i := EMPTY], i, Next(|c|, i))
  {
    var c' := c[i := EMPTY];
    forall j, k | 0 <= j < |c| && 0 <= k < |c| && Used(c', j) && OnPath(c', j, k)
      ensures Used(c', k) || (k == i && Off(|c|, i, Next(|c|, i)) <= Off(|c|, i, j))
    {
      assert Used(c, j) && OnPath(c, j, k) && Used(c, k);
      assert k != i ==> Used(c', k);
    }
  }

  /** The scanned cell does not need the hole: it stays. */
  lemma ScanOn(c: seq<Cell>, hole: nat, scan: nat)
    requires hole < |c| && scan < |c| && Shifting(c, hole, scan) && Used(c, scan) && !OnPath(c, scan, hole)
    requires Next(|c|, scan) != hole
    ensures Shifting(c, hole, Next(|c|, scan))
  {
    var n := |c|;
    var next := Next(n, scan);
    assert Off(n, hole, next) == Off(n, hole, scan) + 1;
    forall k | 0 <= k < n && 0 < Off(n, hole, k) < Off(n, hole, next) ensures Used(c, k) {
      assert Off(n, hole, k) == Off(n, hole, scan) ==> k == scan;
    }
    forall i, k | 0 <= i < n && 0 <= k < n && Used(c, i) && OnPath(c, i, k)
      ensures Used(c, k) || (k == hole && Off(n, hole, next) <= Off(n, hole, i))
    {
      assert Off(n, hole, i) == Off(n, hole, scan) ==> i == scan;
    }
  }

  /** The scanned cell's path crosses the hole: it moves into the hole and becomes the new hole. */
  lemma MoveBack(c: seq<Cell>, hole: nat, scan: nat)
    requires hole < |c| && scan < |c| && Shifting(c, hole, scan) && Used(c, scan) && OnPath(c, scan, hole)
    ensures Shifting(c[hole := c[scan]][scan := EMPTY], scan, Next(|c|, scan))
  {
    var n := |c|;
    var c' := c[hole := c[scan]][scan := EMPTY];
    var next := Next(n, scan);
    forall i, k | 0 <= i < n && 0 <= k < n && Used(c', i) && OnPath(c', i, k)
      ensures Used(c', k) || (k == scan && Off(n, scan, next) <= Off(n, scan, i))
    {
      if k != scan && k != hole {
        assert Used(c', k) == Used(c, k);
        if i == hole {
          assert OnPath(c, scan, k);
        } else {
          assert Used(c, i) && OnPath(c, i, k);
        }
      }
    }
  }

  /** Past an empty cell no path can cross the hole. */
  lemma StopShifting(c: seq<Cell>, hole: nat, scan: nat)
    requires hole < |c| && scan < |c| && Shifting(c, hole, scan) && !Used(c, scan)
    ensures NoGaps(c)
  {
    var n := |c|;
    forall i, k | 0 <= i < n && 0 <= k < n && Used(c, i) && OnPath(c, i, k) ensures Used(c, k) {
      assert !OnPath(c, i, scan);
      if k == hole && Off(n, hole, scan) <= Off(n, hole, i) {
        Crossing(n, Home(n, c[i].hash), hole, scan, i);
        assert false;
      }
    }
  }

  /** On the way from b to i past hole, whatever lies between hole and i is passed too. */
  lemma Crossing(n: nat, b: nat, hole: nat, scan: nat, i: nat)
    requires b < n && hole < n && scan < n && i < n && scan != i
    requires Off(n, b, hole) < Off(n, b, i) && Off(n, hole, scan) <= Off(n, hole, i)
    ensures Off(n, b, scan) < Off(n, b, i)
  {
  }

  /** Moving an entry to an empty cell leaves the map alone. */
  lemma MoveContents(c: seq<Cell>, hole: nat, scan: nat)
    requires Unique(c) && hole < |c| && scan < |c| && hole != scan && !Used(c, hole) && Used(c, scan)
    ensures Unique(c[hole := c[scan]][scan := EMPTY]) && Contents(c[hole := c[scan]][scan := EMPTY]) == Contents(c)
  {
    var h, v := c[scan].hash, c[scan].value;
    ClearContents(c, scan);
    Lookup(c, scan);
    var d := c[scan := EMPTY];
    assert !Used(d, hole) && Used(c, scan);
    hide Contents, Unique;
    WriteContents(d, hole, h, v);
    assert c[hole := c[scan]][scan := EMPTY] == d[hole := Cell(h, v)];
    PutBack(Contents(c), h);
  }

  /**
   The state of a removal: the table with the hole counted as empty stands for m, and the scan
   has not yet passed the empty cell e.
   */
  ghost predicate Removing(c: seq<Cell>, hole: nat, scan: nat, m: map<nat, nat>, e: nat) {
    && hole < |c| && scan < |c| && e < |c|
    && Shifting(c, hole, scan)
    && Unique(c) && Clean(c) && Contents(c) == m
    && !Used(c, e) && hole != e && Off(|c|, hole, scan) <= Off(|c|, hole, e)
  }

  lemma StartRemoving(c: seq<Cell>, i: nat, e: nat)
    requires TableOk(c) && i < |c| && Used(c, i) && e < |c| && !Used(c, e)
    ensures Removing(c[i := EMPTY], i, Next(|c|, i), Contents(c) - {c[i].hash}, e)
  {
    StartShifting(c, i);
    ClearContents(c, i);
    hide Contents, Unique, Shifting;
    assert Off(|c|, i, Next(|c|, i)) == 1;
  }

  lemma KeepScanning(c: seq<Cell>, hole: nat, scan: nat, m: map<nat, nat>, e: nat)
    requires Removing(c, hole, scan, m, e) && Used(c, scan) && !OnPath(c, scan, hole)
    ensures Removing(c, hole, Next(|c|, scan), m, e)
    ensures Off(|c|, Next(|c|, scan), e) < Off(|c|, scan, e)
  {
    assert scan != e && scan != hole;
    hide Contents, Unique, Clean, OnPath;
    ScanOn(c, hole, scan);
    hide Shifting;
  }

  lemma ShiftBack(c: seq<Cell>, hole: nat, scan: nat, m: map<nat, nat>, e: nat)
    requires Removing(c, hole, scan, m, e) && Used(c, scan) && OnPath(c, scan, hole)
    ensures Removing(c[hole := c[scan]][scan := EMPTY], scan, Next(|c|, scan), m, e)
    ensures Off(|c|, Next(|c|, scan), e) < Off(|c|, scan, e)
  {
    assert scan != e && scan != hole;
    assert !Used(c, hole);
    var c' := c[hole := c[scan]][scan := EMPTY];
    assert Clean(c');
    hide Contents, Unique, Clean, OnPath;
    MoveBack(c, hole, scan);
    MoveContents(c, hole, scan);
    hide Shifting;
    assert !Used(c', e);
  }

  lemma FinishRemoving(c: seq<Cell>, hole: nat, scan: nat, m: map<nat, nat>, e: nat)
    requires Removing(c, hole, scan, m, e) && !Used(c, scan)
    ensures TableOk(c) && Contents(c) == m
  {
    hide Contents, Unique, Clean;
    StopShifting(c, hole, scan);
  }

  /** The masked subtraction of the program is the probe distance. */
  lemma Distance(n: nat, b: nat, p: nat)
    requires b < n && p < n
    ensures (p + n - b) % n == Off(n, b, p)
  {
    if b <= p {
      assert p + n - b == n + (p - b);
    }
  }

  /** The comparison of the program asks whether the path of a neighbour crosses the hole. */
  lemma CrossesHole(c: seq<Cell>, hole: nat, i: nat)
    requires hole < |c| && i < |c|
    ensures var n, ideal := |c|, c[i].hash % |c|;
            (hole + n - ideal) % n < (i + n - ideal) % n <==> OnPath(c, i, hole)
  {
    Distance(|c|, c[i].hash % |c|, hole);
    Distance(|c|, c[i].hash % |c|, i);
  }

  lemma NextIndex(n: nat, i: nat)
    requires i < n
    ensures (i + 1) % n == Next(n, i)
  {
  }

  ghost function EmptyCell(c: seq<Cell>): (e: nat)
    requires HasRoom(c)
    ensures e < |c| && !Used(c, e)
  {
    var e: nat :| e < |c| && !Used(c, e);
    e
  }

  lemma ScanIsNotHole(c: seq<Cell>, hole: nat, scan: nat, m: map<nat, nat>, e: nat)
    requires Removing(c, hole, scan, m, e)
    ensures hole != scan && scan < |c|
  {
  }

  // ---------------------------------------------------------------- the map object

  /** isOverpopulated. */
  predicate Overpopulated(population: nat, sizeMask: nat) {
    population * 4 >= sizeMask * 3
  }

  class SingleMap {
    var cells: array<Cell>
    var sizeMask: nat
    var population: nat

    ghost predicate Valid()
      reads this, cells
    {
      && cells.Length == sizeMask + 1
      && PowerOfTwo(cells.Length)
      && TableOk(cells[..])
      && population == |Contents(cells[..])|
      && 4 * population <= 3 * cells.Length
      && NULL !in Contents(cells[..]).Values
    }

    /** The finite map this object stands for. */
    ghost function Map(): map<nat, nat>
      reads this, cells
      requires Valid()
    {
      Contents(cells[..])
    }

    constructor (initialSize: nat)
      requires PowerOfTwo(initialSize)
      ensures Valid() && fresh(cells) && Map() == map[]
    {
      cells := new Cell[initialSize](_ => EMPTY);
      sizeMask := initialSize - 1;
      population := 0;
      new;
      assert forall i :: 0 <= i < |cells[..]| ==> !Used(cells[..], i);
    }

    /** Mutator, find without insert: the cell of the hash, or the empty cell that ends its probe path. */
    method Find(hash: nat) returns (found: bool, idx: nat, ghost o: nat)
      requires hash != NULL && cells.Length == sizeMask + 1 && TableOk(cells[..]) && HasRoom(cells[..])
      ensures found <==> hash in Contents(cells[..])
      ensures idx < cells.Length && if found then cells[idx].hash == hash else cells[idx] == EMPTY
      ensures o < cells.Length && idx == Pos(cells.Length, Home(cells.Length, hash), o) && Passed(cells[..], hash, o)
    {
      ghost var c := cells[..];
      ghost var b := Home(|c|, hash);
      ghost var e :| 0 <= e < |c| && !Used(c, e);
      o := 0;
      idx := hash;
      while true
        invariant o < |c| && idx % (sizeMask + 1) == Pos(|c|, b, o)
        invariant Passed(c, hash, o) && o <= Off(|c|, b, e)
        decreases Off(|c|, b, e) - o
      {
        idx := idx % (sizeMask + 1);
        if cells[idx].hash == hash {
          assert Used(c, idx);
          Lookup(c, idx);
          return true, idx, o;
        }
        if cells[idx].hash == NULL {
          MissMeansAbsent(c, hash, o);
          assert !Used(c, idx);
          return false, idx, o;
        }
        assert idx == Pos(|c|, b, o) && Used(c, idx);
        assert o != Off(|c|, b, e);
        NextProbe(|c|, b, o);
        o := o + 1;
        idx := idx + 1;
      }
    }

    /** The inner loop of migrateToNewTable: an entry goes to the first empty cell from its home. */
    static method Place(dst: array<Cell>, mask: nat, cell: Cell)
      requires dst.Length == mask + 1 && TableOk(dst[..]) && HasRoom(dst[..])
      requires cell.hash != NULL && cell.hash !in Contents(dst[..])
      modifies dst
      ensures TableOk(dst[..]) && Contents(dst[..]) == old(Contents(dst[..]))[cell.hash := cell.value]
    {
      ghost var c := dst[..];
      ghost var b := Home(|c|, cell.hash);
      ghost var e := EmptyCell(c);
      hide TableOk, HasRoom, Contents, Passed;
      NothingPassed(c, cell.hash);
      ghost var o := 0;
      var dstIdx := cell.hash;
      while true
        invariant dst[..] == c && o < |c| && dstIdx % (mask + 1) == Pos(|c|, b, o)
        invariant Passed(c, cell.hash, o) && o <= Off(|c|, b, e)
        decreases Off(|c|, b, e) - o
      {
        dstIdx := dstIdx % (mask + 1);
        if dst[dstIdx].hash == NULL {
          dst[dstIdx] := cell;
          InsertKeepsTable(c, cell.hash, cell.value, o);
          assert dst[..] == c[dstIdx := cell];
          return;
        }
        assert dstIdx == Pos(|c|, b, o) && Used(c, dstIdx);
        Lookup(c, dstIdx);
        assert o != Off(|c|, b, e);
        PassOne(c, cell.hash, o);
        NextProbe(|c|, b, o);
        o := o + 1;
        dstIdx := dstIdx + 1;
      }
    }

    method MigrateToNewTable(desiredSize: nat)
      requires cells.Length == sizeMask + 1 && TableOk(cells[..]) && |Contents(cells[..])| < desiredSize
      modifies this
      ensures fresh(cells) && cells.Length == desiredSize == sizeMask + 1 && population == old(population)
      ensures TableOk(cells[..]) && Contents(cells[..]) == old(Contents(cells[..]))
    {
      hide TableOk, Unique, Contents, HasRoom;
      var srcCells := cells;
      ghost var src := srcCells[..];
      var srcSize := sizeMask + 1;
      UniqueTable(src);
      cells := new Cell[desiredSize](_ => EMPTY);
      sizeMask := desiredSize - 1;
      EmptyTable(cells[..], src);
      for srcIdx := 0 to srcSize
        invariant fresh(cells) && cells.Length == desiredSize == sizeMask + 1 && srcCells[..] == src && srcSize == |src|
        invariant population == old(population) && srcCells != cells
        invariant Unique(src[..srcIdx]) && TableOk(cells[..]) && Unique(cells[..])
        invariant Contents(cells[..]) == Contents(src[..srcIdx])
      {
        PrefixContents(src, srcIdx);
        var srcCell := srcCells[srcIdx];
        if srcCell.hash != NULL {
          PrefixSize(src, srcIdx);
          SizeAndRoom(cells[..]);
          Place(cells, sizeMask, srcCell);
          UniqueTable(cells[..]);
        }
      }
      assert src[..srcSize] == src;
    }

    /**
     Mutator, find with insert: the cell of the hash, reserved for it if it is new.  A full table
     is doubled first, at most once.
     */
    method InsertOrFind(hash: nat) returns (idx: nat)
      requires Valid() && hash != NULL
      modifies this, cells
      ensures cells == old(cells) || fresh(cells)
      ensures cells.Length == old(cells.Length) || cells.Length == 2 * old(cells.Length)
      ensures cells.Length == sizeMask + 1 && PowerOfTwo(cells.Length) && TableOk(cells[..])
      ensures population == |Contents(cells[..])| && 4 * population <= 3 * cells.Length
      ensures idx < cells.Length && cells[idx].hash == hash
      ensures Contents(cells[..]) == if hash in old(Map()) then old(Map()) else old(Map())[hash := NULL]
    {
      hide TableOk, Passed, Unique, Contents, HasRoom, Home, Pos, PowerOfTwo;
      UniqueTable(cells[..]);
      DoublePower(cells.Length);
      var grown := false;
      while true
        invariant cells == old(cells) || fresh(cells)
        invariant cells.Length == if grown then 2 * old(cells.Length) else old(cells.Length)
        invariant cells.Length == sizeMask + 1 && PowerOfTwo(cells.Length) && TableOk(cells[..])
        invariant Unique(cells[..]) && Contents(cells[..]) == old(Map()) && population == old(population)
        invariant grown ==> !Overpopulated(population, sizeMask)
        decreases !grown
      {
        ghost var c := cells[..];
        SizeAndRoom(c);
        var found: bool;
        ghost var o: nat;
        found, idx, o := Find(hash);
        if found {
          return;
        }
        if Overpopulated(population, sizeMask) {
          MigrateToNewTable((sizeMask + 1) * 2);
          UniqueTable(cells[..]);
          grown := true;
        } else {
          InsertKeepsTable(c, hash, NULL, o);
          population := population + 1;
          cells[idx] := cells[idx].(hash := hash);
          assert cells[..] == c[idx := Cell(hash, NULL)];
          return;
        }
      }
    }

    /** The value stored for a hash, NULL if there is none. */
    method Get(hash: nat) returns (value: nat)
      requires Valid() && hash != NULL
      ensures value == if hash in Map() then Map()[hash] else NULL
    {
      SizeAndRoom(cells[..]);
      var found, idx, o := Find(hash);
      if !found {
        return NULL;
      }
      assert Used(cells[..], idx);
      Lookup(cells[..], idx);
      value := cells[idx].value;
    }

    /** Stores a value and returns the one it replaces, NULL if there was none. */
    method Assign(hash: nat, desired: nat) returns (oldValue: nat)
      requires Valid() && hash != NULL && desired != NULL
      modifies this, cells
      ensures Valid() && (cells == old(cells) || fresh(cells))
      ensures Map() == old(Map())[hash := desired]
      ensures oldValue == if hash in old(Map()) then old(Map())[hash] else NULL
      ensures cells.Length == old(cells.Length) || cells.Length == 2 * old(cells.Length)
    {
      hide TableOk, Contents, HasRoom, PowerOfTwo;
      var idx := InsertOrFind(hash);
      ghost var c := cells[..];
      UniqueTable(c);
      Lookup(c, idx);
      UpdateKeepsTable(c, idx, desired);
      oldValue := cells[idx].value;
      cells[idx] := cells[idx].(value := desired);
      assert cells[..] == c[idx := c[idx].(value := desired)];
      UpdateSize(Contents(c), hash, desired);
      ValuesOfUpdate(old(Map()), hash, NULL, desired);
    }

    /** Removes a hash, shifting later cells back so that no probe path is broken. */
    method Erase(hash: nat) returns (oldValue: nat)
      requires Valid() && hash != NULL
      modifies this, cells
      ensures Valid() && cells == old(cells)
      ensures Map() == old(Map()) - {hash}
      ensures oldValue == if hash in old(Map()) then old(Map())[hash] else NULL
    {
      hide TableOk, Contents, HasRoom, PowerOfTwo, Passed, Home, Pos, Unique, Used;
      UniqueTable(cells[..]);
      SizeAndRoom(cells[..]);
      var found, cellIdx, o := Find(hash);
      if !found {
        RemoveAbsent(Map(), hash);
        return NULL;
      }
      LookupEntry(cells[..], cellIdx);
      oldValue := cells[cellIdx].value;
      RemoveAt(cellIdx);
      RemoveSize(old(Map()), hash);
    }

    /** Mutator::erase, from the cell to be removed. */
    method RemoveAt(start: nat)
      requires cells.Length == sizeMask + 1 && TableOk(cells[..]) && HasRoom(cells[..]) && population > 0
      requires start < cells.Length && cells[start].hash != NULL
      modifies this`population, cells
      ensures TableOk(cells[..]) && population == old(population) - 1
      ensures Contents(cells[..]) == old(Contents(cells[..])) - {old(cells[start].hash)}
    {
      hide TableOk, Removing, Contents, HasRoom, OnPath;
      var cellIdx: nat := start;
      ghost var c := cells[..];
      UniqueTable(c);
      ghost var n := |c|;
      ghost var e := EmptyCell(c);
      ghost var m := Contents(c) - {c[start].hash};
      var neighborIdx: nat := cellIdx + 1;
      assert Used(c, start);
      StartRemoving(c, start, e);
      NextIndex(n, start);
      c := c[start := EMPTY];
      while true
        invariant |c| == n == cells.Length && e < n && cellIdx < n && cells[..][cellIdx := EMPTY] == c
        invariant population == old(population) && Removing(c, cellIdx, neighborIdx % n, m, e)
        decreases Off(n, neighborIdx % n, e)
      {
        neighborIdx := neighborIdx % (sizeMask + 1);
        ScanIsNotHole(c, cellIdx, neighborIdx, m, e);
        assert c[neighborIdx] == cells[neighborIdx];
        if cells[neighborIdx].hash == NULL {
          FinishRemoving(c, cellIdx, neighborIdx, m, e);
          cells[cellIdx] := EMPTY;
          assert cells[..] == c;
          population := population - 1;
          return;
        }
        var idealIdx := cells[neighborIdx].hash % (sizeMask + 1);
        CrossesHole(c, cellIdx, neighborIdx);
        NextIndex(n, neighborIdx);
        if (cellIdx + (sizeMask + 1) - idealIdx) % (sizeMask + 1) < (neighborIdx + (sizeMask + 1) - idealIdx) % (sizeMask + 1) {
          ShiftBack(c, cellIdx, neighborIdx, m, e);
          c := c[cellIdx := c[neighborIdx]][neighborIdx := EMPTY];
          cells[cellIdx] := cells[neighborIdx];
          cellIdx := neighborIdx;
          assert cells[..][cellIdx := EMPTY] == c;
        } else {
          KeepScanning(c, cellIdx, neighborIdx, m, e);
        }
        neighborIdx := neighborIdx + 1;
      }
    }
  }

  lemma UpdateSize(m: map<nat, nat>, h: nat, v: nat)
    requires h in m
    ensures |m[h := v]| == |m| && m[h := v].Values <= m.Values + {v}
  {
    assert m[h := v].Keys == m.Keys;
  }

  lemma ValuesOfUpdate(m: map<nat, nat>, h: nat, v: nat, w: nat)
    ensures m[h := v][h := w] == m[h := w] && m[h := w].Values <= m.Values + {w}
  {
  }

  lemma LookupEntry(c: seq<Cell>, i: nat)
    requires TableOk(c) && Unique(c) && i < |c| && c[i].hash != NULL
    ensures c[i].hash in Contents(c) && Contents(c)[c[i].hash] == c[i].value
  {
    Lookup(c, i);
  }

  lemma PutBack(m: map<nat, nat>, h: nat)
    requires h in m
    ensures (m - {h})[h := m[h]] == m
  {
  }

  lemma RemoveAbsent(m: map<nat, nat>, h: nat)
    requires h !in m
    ensures m - {h} == m
  {
  }

  lemma RemoveSize(m: map<nat, nat>, h: nat)
    requires h in m
    ensures |m - {h}| == |m| - 1 && (m - {h}).Values <= m.Values
  {
    assert (m - {h}).Keys == m.Keys - {h};
  }

  lemma PrefixSize(c: seq<Cell>, n: nat)
    requires Unique(c) && n <= |c|
    ensures Unique(c[..n]) && |Contents(c[..n])| <= |Contents(c)|
  {
    PrefixUnique(c, n);
    assert Contents(c[..n]).Keys <= Contents(c).Keys by {
      forall h | h in Contents(c[..n]) ensures h in Contents(c) {
        var i :| 0 <= i < n && Used(c[..n], i) && c[..n][i].hash == h;
        assert Used(c, i);
      }
    }
    SubsetSize(Contents(c[..n]).Keys, Contents(c).Keys);
  }

  lemma DoublePower(n: nat)
    requires PowerOfTwo(n)
    ensures PowerOfTwo(2 * n)
  {
  }

  lemma NothingPassed(c: seq<Cell>, h: nat)
    requires |c| > 0
    ensures Passed(c, h, 0)
  {
  }

  lemma PassOne(c: seq<Cell>, h: nat, o: nat)
    requires o < |c| && Passed(c, h, o)
    requires Used(c, Pos(|c|, Home(|c|, h), o)) && c[Pos(|c|, Home(|c|, h), o)].hash != h
    ensures Passed(c, h, o + 1)
  {
  }

  lemma NextProbe(n: nat, b: nat, o: nat)
    requires b < n && o + 1 < n
    ensures (Pos(n, b, o) + 1) % n == Pos(n, b, o + 1)
  {
    var p := Pos(n, b, o);
    assert p + 1 < n || p + 1 == n;
  }
}
