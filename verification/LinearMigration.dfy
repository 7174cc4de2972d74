/**
 The life of one `ConcurrentMap_Linear`: writers that compare-and-swap cell values, and
 workers that jointly copy overflowed tables into a larger one.  Every atomic load,
 compare-exchange, fetchAdd, fetchSub and fetchOr of the program is one step of the
 transition system below; any number of threads take steps in any order.

 `insertOrFind` and `find` appear here as one step each: `LinearTable` proves, atomic step
 by atomic step, that they behave so.
 */
module LinearMigration {
  import opened Options

  const NULL: nat := 0        // ValueTraits::NullValue and KeyTraits::NullHash
  const REDIRECT: nat := 1    // ValueTraits::Redirect
  const UNIT_SIZE: nat := 32  // TableMigrationUnitSize

  datatype Cell = Cell(hash: nat, value: nat)

  type Table = seq<Cell>

  /** One migration unit: the `u`-th block of UNIT_SIZE cells of source number `s`. */
  datatype Unit = Unit(s: nat, u: nat)

  /**
   A `TableMigration`.  `status` is the packed word: twice the number of workers plus the
   end flag.  `done` and `failed` record, for the proofs, the units whose fetchSub has
   happened and the units given up on overflow.
   */
  datatype Migration = Migration(
    sources: seq<nat>,
    dest: nat,
    index: seq<nat>,
    status: nat,
    overflowed: bool,
    remaining: int,
    done: set<Unit>,
    failed: set<Unit>)

  /** Where a worker stands inside `migrateRange`, at one source cell. */
  datatype Stage =
    | ReadHash
    | EmptyCas
    | ReadValue(h: nat)
    | NullCas(h: nat)
    | Inserting(h: nat, v: nat)
    | Storing(h: nat, v: nat, d: nat)
    | Redirecting(h: nat, v: nat, d: nat)

  /** A thread's program counter together with the locals that matter at that point. */
  datatype PC =
    | Idle
    // Mutator: root loaded, cell found, value loaded
    | Located(table: nat, hash: nat)
    | Found(table: nat, cell: nat, hash: nat)
    | Holding(table: nat, cell: nat, hash: nat, seen: nat)
    // TableMigration::run
    | Probed(gen: nat, probe: nat)
    | Checking(s: nat)
    | Claiming(s: nat)
    | AtCell(s: nat, i: nat, stage: Stage)
    | UnitDone(s: nat, u: nat)
    | GivingUp(s: nat, u: nat)
    | Ending
    | Leaving
    | Last

  /**
   The shared memory: all tables ever created, the published root, and the migration in
   progress, if any.  `gen` counts migration objects, so that a thread that arrives late at
   a finished one is told apart.
   */
  datatype Memory = Memory(tables: seq<Table>, root: nat, mig: Option<Migration>, gen: nat)

  datatype State = State(mem: Memory, threads: seq<PC>)

  datatype Action =
    | Begin(size: nat)          // beginTableMigrationToSize
    | LoadRoot(hash: nat)
    | FindCell(i: nat)          // find, or insertOrFind returning AlreadyFound
    | Miss                      // find returning NULL
    | Abandon                   // insertOrFind overflowing, or a mutator going out of scope
    | Reserve(i: nat)           // insertOrFind returning InsertedNew
    | LoadValue
    | Cas(desired: nat)         // exchangeValue, or eraseValue when desired is NULL
    | Probe
    | Enter
    | Check
    | Claim
    | CellStep                  // any step at a source cell except the insert
    | InsertNew(d: nat)
    | InsertExisting(d: nat)
    | InsertOverflow
    | FinishUnit
    | MarkOverflow
    | SetEnd
    | Leave
    | Conclude(size: nat)       // the last worker's final step

  // ---------------------------------------------------------------- helpers

  function Sources(m: Memory): seq<nat> {
    if m.mig.Some? then m.mig.value.sources else [m.root]
  }

  /** getNumMigrationUnits, from the table size. */
  function NumUnits(size: nat): nat {
    if size == 0 then 0 else (size - 1) / UNIT_SIZE + 1
  }

  function UnitEnd(size: nat, u: nat): nat {
    if UNIT_SIZE * u + UNIT_SIZE <= size then UNIT_SIZE * u + UNIT_SIZE else size
  }

  function SumUnits(tables: seq<Table>, sources: seq<nat>): nat
    requires forall s :: 0 <= s < |sources| ==> sources[s] < |tables|
  {
    if sources == [] then 0
    else SumUnits(tables, sources[..|sources| - 1]) + NumUnits(|tables[sources[|sources| - 1]]|)
  }

  ghost function AllUnits(tables: seq<Table>, sources: seq<nat>): set<Unit>
    requires forall s :: 0 <= s < |sources| ==> sources[s] < |tables|
  {
    set s: nat, u: nat | s < |sources| && u < NumUnits(|tables[sources[s]]|) :: Unit(s, u)
  }

  function SetCell(m: Memory, k: nat, i: nat, c: Cell): Memory
    requires k < |m.tables| && i < |m.tables[k]|
  {
    m.(tables := m.tables[k := m.tables[k][i := c]])
  }

  predicate Inside(pc: PC) {
    pc.Checking? || pc.Claiming? || pc.AtCell? || pc.UnitDone? || pc.GivingUp? || pc.Ending? || pc.Leaving?
  }

  function UnitOf(pc: PC): Option<Unit> {
    match pc
    case AtCell(s, i, _) => Some(Unit(s, i / UNIT_SIZE))
    case UnitDone(s, u) => Some(Unit(s, u))
    case GivingUp(s, u) => Some(Unit(s, u))
    case _ => None
  }

  ghost function InsideSet(threads: seq<PC>): set<nat> {
    set t: nat | t < |threads| && Inside(threads[t])
  }

  function EmptyTable(size: nat): Table {
    seq(size, _ => Cell(NULL, NULL))
  }

  ghost predicate Absent(tb: Table, h: nat) {
    forall i :: 0 <= i < |tb| ==> tb[i].hash != h
  }

  // ---------------------------------------------------------------- steps

  /** A worker moves on from source cell i: to the next cell of its unit, or to the unit's end. */
  function Advance(size: nat, s: nat, i: nat): PC {
    if i + 1 < UnitEnd(size, i / UNIT_SIZE) then AtCell(s, i + 1, ReadHash) else UnitDone(s, i / UNIT_SIZE)
  }

  function NextSource(g: Migration, s: nat): PC {
    if s + 1 < |g.sources| then Checking(s + 1) else Leaving
  }

  /** Whether thread program counter pc may take action a. */
  ghost predicate Enabled(m: Memory, pc: PC, a: Action)
    requires Shape(m) && PcShape(m, pc)
  {
    match a
    case Begin(size) => pc.Located? && pc.table == m.root && m.mig.None? && size >= 1
    case LoadRoot(h) => pc.Idle? && h != NULL
    case FindCell(i) => pc.Located? && i < |m.tables[pc.table]| && m.tables[pc.table][i].hash == pc.hash
    case Miss => pc.Located? && Absent(m.tables[pc.table], pc.hash)
    case Abandon => pc.Located? || pc.Holding?
    case Reserve(i) =>
      pc.Located? && i < |m.tables[pc.table]| && m.tables[pc.table][i].hash == NULL && Absent(m.tables[pc.table], pc.hash)
    case LoadValue => pc.Found?
    case Cas(desired) => pc.Holding? && desired != REDIRECT
    case Probe => pc.Idle? && m.mig.Some?
    case Enter => pc.Probed?
    case Check => pc.Checking?
    case Claim => pc.Claiming?
    case CellStep => pc.AtCell? && !pc.stage.Inserting?
    case InsertNew(d) =>
      && pc.AtCell? && pc.stage.Inserting?
      && var dest := m.tables[m.mig.value.dest];
      && d < |dest| && dest[d].hash == NULL && Absent(dest, pc.stage.h)
    case InsertExisting(d) =>
      && pc.AtCell? && pc.stage.Inserting?
      && var dest := m.tables[m.mig.value.dest];
      && d < |dest| && dest[d].hash == pc.stage.h
    case InsertOverflow => pc.AtCell? && pc.stage.Inserting?
    case FinishUnit => pc.UnitDone?
    case MarkOverflow => pc.GivingUp?
    case SetEnd => pc.Ending?
    case Leave => pc.Leaving?
    case Conclude(size) => pc.Last? && size == 2 * |m.tables[m.mig.value.dest]|
  }

  /** The effect of action a of a thread at pc: the new memory and the thread's new program counter. */
  ghost function Effect(m: Memory, pc: PC, a: Action): (Memory, PC)
    requires Shape(m) && PcShape(m, pc) && Enabled(m, pc, a)
  {
    match a
    case Begin(size) => (BeginMigration(m, size), Idle)
    case LoadRoot(h) => (m, Located(m.root, h))
    case FindCell(i) => (m, Found(pc.table, i, pc.hash))
    case Miss => (m, Idle)
    case Abandon => (m, Idle)
    case Reserve(i) =>
      (SetCell(m, pc.table, i, m.tables[pc.table][i].(hash := pc.hash)), Holding(pc.table, i, pc.hash, NULL))
    case LoadValue =>
      var v := m.tables[pc.table][pc.cell].value;
      (m, if v == REDIRECT then Idle else Holding(pc.table, pc.cell, pc.hash, v))
    case Cas(desired) =>
      var c := m.tables[pc.table][pc.cell];
      if c.value == pc.seen then
        (SetCell(m, pc.table, pc.cell, c.(value := desired)), pc.(seen := desired))
      else
        (m, if c.value == REDIRECT then Idle else pc.(seen := c.value))
    case Probe => (m, if m.mig.value.status % 2 == 1 then Idle else Probed(m.gen, m.mig.value.status))
    case Enter =>
      if m.mig.Some? && pc.gen == m.gen && m.mig.value.status == pc.probe then
        (m.(mig := Some(m.mig.value.(status := pc.probe + 2))), Checking(0))
      else
        (m, Idle)
    case Check => (m, if m.mig.value.status % 2 == 1 then Leaving else Claiming(pc.s))
    case Claim =>
      var g := m.mig.value;
      var start := g.index[pc.s];
      (m.(mig := Some(g.(index := g.index[pc.s := start + UNIT_SIZE]))),
       if start >= |m.tables[g.sources[pc.s]]| then NextSource(g, pc.s) else AtCell(pc.s, start, ReadHash))
    case CellStep => CellEffect(m, pc.s, pc.i, pc.stage)
    case InsertNew(d) =>
      var dest := m.mig.value.dest;
      (SetCell(m, dest, d, m.tables[dest][d].(hash := pc.stage.h)), pc.(stage := Storing(pc.stage.h, pc.stage.v, d)))
    case InsertExisting(d) => (m, pc.(stage := Storing(pc.stage.h, pc.stage.v, d)))
    case InsertOverflow => (m, GivingUp(pc.s, pc.i / UNIT_SIZE))
    case FinishUnit =>
      var g := m.mig.value;
      (m.(mig := Some(g.(remaining := g.remaining - 1, done := g.done + {Unit(pc.s, pc.u)}))),
       if g.remaining == 1 then Ending else Checking(pc.s))
    case MarkOverflow =>
      var g := m.mig.value;
      (m.(mig := Some(g.(overflowed := true, failed := g.failed + {Unit(pc.s, pc.u)}))), Ending)
    case SetEnd =>
      var g := m.mig.value;
      (m.(mig := Some(g.(status := if g.status % 2 == 1 then g.status else g.status + 1))), Leaving)
    case Leave =>
      var g := m.mig.value;
      (m.(mig := Some(g.(status := if g.status >= 2 then g.status - 2 else 0))), if g.status >= 4 then Idle else Last)
    case Conclude(size) => (if m.mig.value.overflowed then HandOff(m, size) else Publish(m), Idle)
  }

  /** A new migration of the root alone, with a fresh destination. */
  function BeginMigration(m: Memory, size: nat): Memory
    requires Shape(m)
  {
    m.(tables := m.tables + [EmptyTable(size)],
       mig := Some(Migration([m.root], |m.tables|, [0], 0, false, NumUnits(|m.tables[m.root]|), {}, {})),
       gen := m.gen + 1)
  }

  /** publishTableMigration: the destination becomes the root. */
  function Publish(m: Memory): Memory
    requires Shape(m) && m.mig.Some?
  {
    m.(root := m.mig.value.dest, mig := None)
  }

  /** The overflowed destination becomes one more source of a new migration into a table twice its size. */
  function HandOff(m: Memory, size: nat): Memory
    requires Shape(m) && m.mig.Some?
  {
    var g := m.mig.value;
    var sources := g.sources + [g.dest];
    m.(tables := m.tables + [EmptyTable(size)],
       mig := Some(Migration(sources, |m.tables|, seq(|sources|, _ => 0), 0, false, SumUnits(m.tables, sources), {}, {})),
       gen := m.gen + 1)
  }

  /** Every step of `migrateRange` at source cell i but the insert into the destination. */
  ghost function CellEffect(m: Memory, s: nat, i: nat, stage: Stage): (Memory, PC)
    requires Shape(m) && PcShape(m, AtCell(s, i, stage)) && !stage.Inserting?
  {
    var g := m.mig.value;
    var k := g.sources[s];
    var c := m.tables[k][i];
    var next := Advance(|m.tables[k]|, s, i);
    var redirected := (SetCell(m, k, i, c.(value := REDIRECT)), next);
    match stage
    case ReadHash => (m, AtCell(s, i, if c.hash == NULL then EmptyCas else ReadValue(c.hash)))
    case EmptyCas =>
      if c.value == NULL then redirected
      else (m, if c.value == REDIRECT then next else AtCell(s, i, ReadHash))
    case ReadValue(h) =>
      (m, if c.value == NULL then AtCell(s, i, NullCas(h))
          else if c.value == REDIRECT then next
          else AtCell(s, i, Inserting(h, c.value)))
    case NullCas(h) =>
      if c.value == NULL then redirected
      else (m, if c.value == REDIRECT then next else AtCell(s, i, Inserting(h, c.value)))
    case Storing(h, v, d) =>
      (SetCell(m, g.dest, d, m.tables[g.dest][d].(value := v)), AtCell(s, i, Redirecting(h, v, d)))
    case Redirecting(h, v, d) =>
      if c.value == v then redirected else (m, AtCell(s, i, Storing(h, c.value, d)))
  }

  ghost predicate CanStep(st: State, t: nat, a: Action) {
    t < |st.threads| && Shape(st.mem) && PcShape(st.mem, st.threads[t]) && Enabled(st.mem, st.threads[t], a)
  }

  ghost function Step(st: State, t: nat, a: Action): State
    requires CanStep(st, t, a)
  {
    var (m, pc) := Effect(st.mem, st.threads[t], a);
    State(m, st.threads[t := pc])
  }

  // ---------------------------------------------------------------- invariant

  ghost predicate Shape(m: Memory) {
    && m.root < |m.tables|
    && (forall k :: 0 <= k < |m.tables| ==> |m.tables[k]| >= 1)
    && (m.mig.Some? ==> MigShape(m.tables, m.root, m.mig.value))
  }

  ghost predicate MigShape(tables: seq<Table>, root: nat, g: Migration) {
    && |g.sources| >= 1
    && g.sources[0] == root
    && g.dest < |tables|
    && |g.index| == |g.sources|
    && (forall s :: 0 <= s < |g.sources| ==> g.sources[s] < |tables| && g.sources[s] != g.dest)
    && (forall s, s' :: 0 <= s < s' < |g.sources| ==> g.sources[s] != g.sources[s'])
  }

  /** Every location a thread is about to access exists, and is as it remembers it. */
  ghost predicate PcShape(m: Memory, pc: PC)
    requires Shape(m)
  {
    match pc
    case Idle => true
    case Probed(_, probe) => probe % 2 == 0
    case Located(k, h) => h != NULL && MutatorTable(m, k)
    case Found(k, i, h) => MutatorCell(m, k, i, h)
    case Holding(k, i, h, seen) => MutatorCell(m, k, i, h) && seen != REDIRECT
    case Checking(s) => m.mig.Some? && s < |m.mig.value.sources|
    case Claiming(s) => m.mig.Some? && s < |m.mig.value.sources|
    case AtCell(s, i, stage) =>
      && m.mig.Some?
      && s < |m.mig.value.sources|
      && i < |m.tables[m.mig.value.sources[s]]|
      && StageShape(m.tables[m.mig.value.sources[s]][i], m.tables[m.mig.value.dest], stage)
    case UnitDone(s, u) => m.mig.Some? && UnitShape(m, s, u)
    case GivingUp(s, u) => m.mig.Some? && UnitShape(m, s, u)
    case _ => m.mig.Some?
  }

  ghost predicate UnitShape(m: Memory, s: nat, u: nat)
    requires Shape(m) && m.mig.Some?
  {
    s < |m.mig.value.sources| && u < NumUnits(|m.tables[m.mig.value.sources[s]]|)
  }

  /** What a worker at source cell c knows of c and of its destination cell. */
  ghost predicate StageShape(c: Cell, dest: Table, stage: Stage) {
    match stage
    case ReadHash => true
    case EmptyCas => true
    case ReadValue(h) => h != NULL && c.hash == h
    case NullCas(h) => h != NULL && c.hash == h
    case Inserting(h, v) => h != NULL && c.hash == h && c.value != REDIRECT && v != REDIRECT
    case Storing(h, v, d) =>
      h != NULL && c.hash == h && c.value != REDIRECT && v != REDIRECT && d < |dest| && dest[d].hash == h
    case Redirecting(h, v, d) =>
      h != NULL && c.hash == h && c.value != REDIRECT && d < |dest| && dest[d].hash == h && dest[d].value == v
  }

  /** Mutators only ever hold cells of the root or of a table whose migration is over. */
  ghost predicate MutatorTable(m: Memory, k: nat)
    requires Shape(m)
  {
    k < |m.tables| && (k == m.root || RetiredTable(m, k))
  }

  ghost predicate MutatorCell(m: Memory, k: nat, i: nat, h: nat)
    requires Shape(m)
  {
    h != NULL && MutatorTable(m, k) && i < |m.tables[k]| && m.tables[k][i].hash == h
  }

  ghost predicate RetiredTable(m: Memory, k: nat) {
    k !in Sources(m) && (m.mig.Some? ==> k != m.mig.value.dest)
  }

  ghost predicate AllRedirect(tb: Table) {
    forall i :: 0 <= i < |tb| ==> tb[i].value == REDIRECT
  }

  ghost predicate Unique(tb: Table) {
    forall i, j :: 0 <= i < j < |tb| && tb[i].hash != NULL ==> tb[i].hash != tb[j].hash
  }

  ghost predicate TableOk(tb: Table) {
    Unique(tb) && forall i :: 0 <= i < |tb| && tb[i].hash == NULL ==> tb[i].value <= REDIRECT
  }

  /** A live (not redirected) cell of hash h among the sources. */
  ghost predicate OpenAt(m: Memory, s: nat, i: nat, h: nat)
    requires Shape(m)
  {
    && s < |Sources(m)|
    && i < |m.tables[Sources(m)[s]]|
    && m.tables[Sources(m)[s]][i].hash == h
    && m.tables[Sources(m)[s]][i].value != REDIRECT
  }

  ghost predicate TablesOk(m: Memory)
    requires Shape(m)
  {
    // no hash occupies two cells of a table, and a value is only ever written to a reserved cell
    && (forall k :: 0 <= k < |m.tables| ==> TableOk(m.tables[k]))
    // a table that is neither a source nor the destination is completely redirected
    && (forall k :: 0 <= k < |m.tables| && RetiredTable(m, k) ==> AllRedirect(m.tables[k]))
  }

  ghost predicate SourcesOk(m: Memory)
    requires Shape(m)
  {
    // each hash has at most one live cell over all the sources
    && (forall s, i, s', i', h :: h != NULL && OpenAt(m, s, i, h) && OpenAt(m, s', i', h) ==> s == s' && i == i')
    // whatever reached another source is also in the root
    && (forall s, h :: 0 < s < |Sources(m)| && h != NULL && Absent(m.tables[m.root], h) ==>
          Absent(m.tables[Sources(m)[s]], h))
  }

  ghost predicate DestOk(m: Memory)
    requires Shape(m)
  {
    m.mig.Some? ==>
      var dest := m.tables[m.mig.value.dest];
      && (forall d :: 0 <= d < |dest| ==> dest[d].value != REDIRECT && (dest[d].hash == NULL ==> dest[d].value == NULL))
      && (forall h :: h != NULL && Absent(m.tables[m.root], h) ==> Absent(dest, h))
  }

  ghost predicate Copying(pc: PC, s: nat, i: nat, d: nat) {
    pc.AtCell? && pc.s == s && pc.i == i &&
    ((pc.stage.Storing? && pc.stage.d == d) || (pc.stage.Redirecting? && pc.stage.d == d))
  }

  ghost predicate Copied(threads: seq<PC>, s: nat, i: nat, d: nat) {
    exists t :: 0 <= t < |threads| && Copying(threads[t], s, i, d)
  }

  /** A hash of the destination is live in no source, unless a worker is copying it right now. */
  ghost predicate CopiesOk(m: Memory, threads: seq<PC>)
    requires Shape(m)
  {
    m.mig.Some? ==>
      var dest := m.tables[m.mig.value.dest];
      forall d, s, i :: 0 <= d < |dest| && dest[d].hash != NULL && OpenAt(m, s, i, dest[d].hash) ==>
        Copied(threads, s, i, d)
  }

  ghost predicate UnitRedirected(m: Memory, s: nat, u: nat)
    requires Shape(m) && m.mig.Some? && UnitShape(m, s, u)
  {
    var tb := m.tables[m.mig.value.sources[s]];
    forall j :: UNIT_SIZE * u <= j < UnitEnd(|tb|, u) ==> tb[j].value == REDIRECT
  }

  ghost predicate Exhausted(m: Memory, s: nat)
    requires Shape(m) && m.mig.Some? && s <= |m.mig.value.sources|
  {
    forall s' :: 0 <= s' < s ==> m.mig.value.index[s'] >= |m.tables[m.mig.value.sources[s']]|
  }

  /** A worker's claims: a unit it holds is its own, unfinished, and redirected up to where it stands. */
  ghost predicate WorkerOk(m: Memory, pc: PC)
    requires Shape(m) && PcShape(m, pc)
  {
    && (UnitOf(pc).Some? ==>
          var n := UnitOf(pc).value;
          && UNIT_SIZE * n.u < m.mig.value.index[n.s]
          && n !in m.mig.value.done
          && n !in m.mig.value.failed)
    && match pc
       case Checking(s) => Exhausted(m, s)
       case Claiming(s) => Exhausted(m, s)
       case AtCell(s, i, _) =>
         && Exhausted(m, s)
         && forall j :: UNIT_SIZE * (i / UNIT_SIZE) <= j < i ==> m.tables[m.mig.value.sources[s]][j].value == REDIRECT
       case UnitDone(s, u) => Exhausted(m, s) && UnitRedirected(m, s, u)
       case Ending => m.mig.value.overflowed || m.mig.value.remaining == 0
       case Leaving => m.mig.value.status % 2 == 1 || Exhausted(m, |m.mig.value.sources|)
       case _ => true
  }

  ghost predicate ThreadsOk(m: Memory, threads: seq<PC>)
    requires Shape(m)
  {
    forall t :: 0 <= t < |threads| ==> PcShape(m, threads[t]) && WorkerOk(m, threads[t])
  }

  /** No unit is held by two workers. */
  ghost predicate Exclusive(threads: seq<PC>) {
    forall t, t' :: 0 <= t < t' < |threads| && UnitOf(threads[t]).Some? ==> UnitOf(threads[t]) != UnitOf(threads[t'])
  }

  ghost predicate Held(threads: seq<PC>, n: Unit) {
    exists t :: 0 <= t < |threads| && UnitOf(threads[t]) == Some(n)
  }

  /** The unit accounting. */
  ghost predicate UnitsOk(m: Memory)
    requires Shape(m)
  {
    m.mig.Some? ==>
      var g := m.mig.value;
      var all := AllUnits(m.tables, g.sources);
      && g.done <= all && g.failed <= all && g.done !! g.failed
      && g.remaining == |all| - |g.done|
      && (g.overflowed <==> g.failed != {})
      && (forall n :: n in g.done ==> UnitShape(m, n.s, n.u) && UnitRedirected(m, n.s, n.u))
      && (forall s :: 0 <= s < |g.index| ==> g.index[s] % UNIT_SIZE == 0)
  }

  /** A unit has been claimed exactly when it is finished, given up, or held. */
  ghost predicate ClaimsOk(m: Memory, threads: seq<PC>)
    requires Shape(m)
  {
    m.mig.Some? ==>
      var g := m.mig.value;
      forall n :: n in AllUnits(m.tables, g.sources) ==>
        (UNIT_SIZE * n.u < g.index[n.s] <==> n in g.done || n in g.failed || Held(threads, n))
  }

  ghost predicate SomeEnding(threads: seq<PC>) {
    exists t :: 0 <= t < |threads| && threads[t].Ending?
  }

  ghost predicate SomeLast(threads: seq<PC>) {
    exists t :: 0 <= t < |threads| && threads[t].Last?
  }

  /** The packed status word: number of workers and end flag. */
  ghost predicate StatusOk(mig: Option<Migration>, threads: seq<PC>) {
    && (mig.Some? ==>
          var g := mig.value;
          var over := g.overflowed || g.remaining == 0;
          && g.status / 2 == |InsideSet(threads)|
          && (g.status % 2 == 1 ==> over)
          && (over && g.status % 2 == 0 ==> SomeEnding(threads))
          && (g.status == 1 <==> SomeLast(threads)))
    && (forall t, t' :: 0 <= t < t' < |threads| ==> !(threads[t].Last? && threads[t'].Last?))
  }

  ghost predicate Inv(st: State) {
    && Shape(st.mem)
    && TablesOk(st.mem)
    && SourcesOk(st.mem)
    && DestOk(st.mem)
    && CopiesOk(st.mem, st.threads)
    && ThreadsOk(st.mem, st.threads)
    && Exclusive(st.threads)
    && UnitsOk(st.mem)
    && ClaimsOk(st.mem, st.threads)
    && StatusOk(st.mem.mig, st.threads)
  }
}
