/**
  The storage engine as a state machine over values.

  A write goes to the memtable. A full memtable is rotated onto the queue of immutable memtables.
  The oldest immutable memtable is flushed in two steps: its table is published at the end of level 0,
  then the memtable is retired. A compaction takes a snapshot of two neighbouring levels, merges them,
  and installs the result; writes and flushes may happen between those three steps.

  Where the source's literal order differs from this one (it removes a memtable before its table is
  visible, and it empties level 0 when it installs), this model follows the intended order, and the lemmas of
  `EngineDefects` say exactly when the literal order would have been harmless.
 */
module EngineModel {
  import opened Basics
  import opened Sorting
  import opened Layers
  import opened MemTables
  import opened Packing
  import opened StableSort

  datatype Config = Config(
    memtableSizeThreshold: nat, maxMemtables: nat, levelSizeMultiplier: nat, maxLevels: nat,
    l0SstableSize: nat, l0CompactionThreshold: nat,
    dataSize: seq<Entry> -> nat,          // bytes of the blocks that hold the entries
    mightContain: (seq<Entry>, Key) -> bool)  // the answer of the table's bloom filter
  {
    /** The checks of `Config::validate` on the fields modelled here. */
    predicate Validates() {
      && memtableSizeThreshold > 0 && maxMemtables > 0 && levelSizeMultiplier >= 10
      && maxLevels > 0 && l0SstableSize > 0 && l0CompactionThreshold > 0
    }

    /**
      Two things more than the checks: one level is not enough, because compaction writes level 1;
      and a bloom filter may err, but never denies a key that was added to it.
     */
    ghost predicate Valid() {
      Validates() && maxLevels >= 2 && NoFalseNegatives()
    }

    ghost predicate NoFalseNegatives() {
      forall es: seq<Entry>, k: Key {:trigger mightContain(es, k)} :: Find(es, k).Some? ==> mightContain(es, k)
    }
  }

  datatype Table = Table(entries: seq<Entry>, createdAt: nat, dataSize: nat)

  type Levels = map<nat, seq<Table>>

  /** A compaction in progress: the tables it read, and its output once merged. */
  datatype Job = Job(level: nat, upper: seq<Table>, lower: seq<Table>, merged: Option<seq<Table>>)

  datatype State = State(
    mem: Mem,
    imm: seq<Mem>,       // oldest first
    levels: Levels,      // level 0 oldest first, deeper levels by key
    counter: nat,        // the engine's own sequence counter
    clock: nat,          // wall-clock readings so far; only their order is used
    published: bool,     // the oldest immutable memtable is already on level 0
    job: Option<Job>)

  // ---------- the stack of layers that a read probes ----------

  function TablesAt(levels: Levels, l: nat): seq<Table> {
    if l in levels then levels[l] else []
  }

  function EntryLists(ts: seq<Table>): seq<seq<Entry>> {
    seq(|ts|, i requires 0 <= i < |ts| => ts[i].entries)
  }

  function LevelEntries(ts: seq<Table>): seq<Entry> {
    Flatten(EntryLists(ts))
  }

  function LevelLayer(ts: seq<Table>): Layer {
    ToMap(LevelEntries(ts))
  }

  function NewestMems(ms: seq<Mem>): seq<Layer> {
    seq(|ms|, i requires 0 <= i < |ms| => ms[|ms| - 1 - i].data)
  }

  function NewestTables(ts: seq<Table>): seq<Layer> {
    seq(|ts|, i requires 0 <= i < |ts| => ToMap(ts[|ts| - 1 - i].entries))
  }

  /** Levels `from` to `to - 1`, one layer each. */
  function DeepLayers(levels: Levels, from: nat, to: nat): seq<Layer>
    decreases to - from
  {
    if from >= to then [] else [LevelLayer(TablesAt(levels, from))] + DeepLayers(levels, from + 1, to)
  }

  function Disk(levels: Levels, maxLevels: nat): seq<Layer> {
    NewestTables(TablesAt(levels, 0)) + DeepLayers(levels, 1, maxLevels)
  }

  /** The memtable and the immutable memtables, newest first. */
  function Memory(s: State): seq<Layer> {
    [s.mem.data] + NewestMems(s.imm)
  }

  /** Everything `get` probes, in its order. */
  function Probe(cfg: Config, s: State): seq<Layer> {
    [s.mem.data] + (NewestMems(s.imm) + Disk(s.levels, cfg.maxLevels))
  }

  function Get(cfg: Config, s: State, k: Key): Option<Value> {
    Visible(Probe(cfg, s), k)
  }

  /** The probe stack without the memtable whose table has been published. */
  function Core(cfg: Config, s: State): seq<Layer> {
    [s.mem.data] + (NewestMems(Unflushed(s)) + Disk(s.levels, cfg.maxLevels))
  }

  function Unflushed(s: State): seq<Mem> {
    if s.published && s.imm != [] then s.imm[1..] else s.imm
  }

  // ---------- steps ----------

  datatype Step =
    | Write(key: Key, value: Option<Value>)
    | Rotate
    | Publish
    | Retire
    | Snapshot(level: nat)
    | Merge
    | Install

  predicate Enabled(cfg: Config, s: State, step: Step) {
    match step
    case Write(_, _) => true
    case Rotate => true
    case Publish => s.imm != [] && !s.published
    case Retire => s.imm != [] && s.published
    case Snapshot(l) => s.job == None && l + 1 < cfg.maxLevels && TablesAt(s.levels, l) != []
    case Merge => s.job.Some? && s.job.value.merged == None
    case Install => s.job.Some? && s.job.value.merged.Some?
  }

  function Next(cfg: Config, s: State, step: Step): State
    requires Enabled(cfg, s, step)
  {
    match step
    case Write(key, value) => DoWrite(s, key, value)
    case Rotate => DoRotate(cfg, s)
    case Publish => DoPublish(cfg, s)
    case Retire => DoRetire(s)
    case Snapshot(l) => DoSnapshot(s, l)
    case Merge => DoMerge(cfg, s)
    case Install => DoInstall(s)
  }

  function DoWrite(s: State, key: Key, value: Option<Value>): State {
    s.(mem := Insert(s.mem, key, value, s.clock), clock := s.clock + 1)
  }

  /** The new memtable numbers its writes from `start`. */
  function RotateFrom(cfg: Config, s: State, start: nat): State {
    s.(mem := EmptyMem(cfg.memtableSizeThreshold, start),
       imm := s.imm + [s.mem.(immutable := true)],
       counter := s.counter + 1)
  }

  /** Numbering continues at or above the old memtable's, so that newer writes keep higher numbers. */
  function DoRotate(cfg: Config, s: State): State {
    RotateFrom(cfg, s, Max(s.counter, s.mem.next))
  }

  function FlushedTable(cfg: Config, data: Layer, now: nat): Table {
    var es := SortedEntries(data);
    Table(es, now, cfg.dataSize(es))
  }

  function WithNewest(levels: Levels, t: Table): Levels {
    levels[0 := TablesAt(levels, 0) + [t]]
  }

  function AppendFlush(cfg: Config, levels: Levels, m: Mem, now: nat): Levels {
    if m.count == 0 then levels
    else WithNewest(levels, FlushedTable(cfg, m.data, now))
  }

  function DoPublish(cfg: Config, s: State): State
    requires s.imm != []
  {
    s.(levels := AppendFlush(cfg, s.levels, s.imm[0], s.clock),
       clock := if s.imm[0].count == 0 then s.clock else s.clock + 1,
       published := true)
  }

  function DoRetire(s: State): State
    requires s.imm != []
  {
    s.(imm := s.imm[1..], published := false)
  }

  function DoSnapshot(s: State, l: nat): State {
    s.(job := Some(Job(l, TablesAt(s.levels, l), TablesAt(s.levels, l + 1), None)))
  }

  function EntrySize(e: Entry): nat {
    e.Size()
  }

  function TargetSize(cfg: Config, level: nat): nat {
    if level == 0 then cfg.l0SstableSize else cfg.l0SstableSize * 2
  }

  function CreateTables(cfg: Config, level: nat, es: seq<Entry>, now: nat): seq<Table> {
    var pieces := Greedy(es, EntrySize, TargetSize(cfg, level));
    seq(|pieces|, i requires 0 <= i < |pieces| => Table(pieces[i], now + i, cfg.dataSize(pieces[i])))
  }

  /** The keys that levels `from` to `to - 1` know about. */
  function DeepKeys(levels: Levels, from: nat, to: nat): set<Key>
    decreases to - from
  {
    if from >= to then {} else LevelLayer(TablesAt(levels, from)).Keys + DeepKeys(levels, from + 1, to)
  }

  /** The merged output: highest sequence per key, without the tombstones of keys outside `keep`. */
  function MergeTables(upper: seq<Table>, lower: seq<Table>, keep: set<Key>): seq<Entry> {
    SortedEntries(DropTombstones(HighestPerKey(LevelEntries(upper + lower)), keep))
  }

  /** A tombstone survives the merge when a level below the target still knows its key. */
  function MergeOutput(cfg: Config, levels: Levels, j: Job): seq<Entry> {
    MergeTables(j.upper, j.lower, DeepKeys(levels, j.level + 2, cfg.maxLevels))
  }

  function DoMerge(cfg: Config, s: State): State
    requires s.job.Some?
  {
    var j := s.job.value;
    var ts := CreateTables(cfg, j.level + 1, MergeOutput(cfg, s.levels, j), s.clock);
    s.(job := Some(j.(merged := Some(ts))), counter := s.counter + |ts|, clock := s.clock + |ts|)
  }

  /** Only the tables of the snapshot leave the upper level. */
  function DoInstall(s: State): State
    requires s.job.Some? && s.job.value.merged.Some?
  {
    var j := s.job.value;
    var now := TablesAt(s.levels, j.level);
    var rest := if |j.upper| <= |now| then now[|j.upper|..] else [];
    s.(levels := s.levels[j.level := rest][j.level + 1 := j.merged.value], job := None)
  }

  // ---------- the invariant ----------

  ghost predicate TableOk(t: Table) {
    t.entries != [] && Sorted(t.entries)
  }

  /** A level below 0: tables with ascending, pairwise disjoint key ranges. */
  ghost predicate DeepLevelOk(ts: seq<Table>) {
    && (forall i :: 0 <= i < |ts| ==> TableOk(ts[i]))
    && Sorted(LevelEntries(ts))
  }

  predicate CreatedBefore(a: Table, b: Table) {
    a.createdAt < b.createdAt
  }

  /** Tables of a level were created in the order in which the level lists them. */
  ghost predicate InCreationOrder(ts: seq<Table>, clock: nat) {
    (forall i :: 0 <= i < |ts| ==> ts[i].createdAt < clock) && Ascends(ts, CreatedBefore)
  }

  ghost predicate LevelsOk(cfg: Config, levels: Levels, clock: nat) {
    && (forall i :: 0 <= i < |TablesAt(levels, 0)| ==> TableOk(TablesAt(levels, 0)[i]))
    && (forall l: nat :: 1 <= l < cfg.maxLevels ==> DeepLevelOk(TablesAt(levels, l)))
    && (forall l: nat :: cfg.maxLevels <= l ==> TablesAt(levels, l) == [])
    && (forall l: nat :: InCreationOrder(TablesAt(levels, l), clock))
  }

  /** The tables a compaction read are still where it read them; level 0 may have grown since. */
  ghost predicate JobFits(cfg: Config, levels: Levels, j: Job) {
    && j.level + 1 < cfg.maxLevels
    && j.upper <= TablesAt(levels, j.level)
    && (j.level > 0 ==> j.upper == TablesAt(levels, j.level))
    && j.lower == TablesAt(levels, j.level + 1)
  }

  ghost predicate JobOk(cfg: Config, levels: Levels, clock: nat, j: Job) {
    && JobFits(cfg, levels, j)
    && (j.merged.Some? ==>
          && DeepLevelOk(j.merged.value)
          && LevelEntries(j.merged.value) == MergeOutput(cfg, levels, j)
          && InCreationOrder(j.merged.value, clock))
  }

  ghost predicate MemsOk(s: State) {
    && Accounted(s.mem)
    && forall i :: 0 <= i < |s.imm| ==> Accounted(s.imm[i])
  }

  /** The versions of a key fall in sequence from layer to layer, all below the next number to be assigned. */
  ghost predicate StackOk(cfg: Config, s: State) {
    Ordered(Core(cfg, s)) && Below(Core(cfg, s), s.mem.next)
  }

  /** What the layer says about a key, the disk says too; of a tombstone it may say nothing at all any more. */
  ghost predicate OnDisk(m: Layer, disk: seq<Layer>) {
    forall k :: k in m ==> Lookup(disk, k) == Some(m[k]) || (Lookup(disk, k) == None && m[k].value == None)
  }

  /** A published memtable keeps its place under the newer ones until it is retired. */
  ghost predicate FlushOk(cfg: Config, s: State) {
    s.published ==>
      && s.imm != []
      && Ordered(Memory(s)) && Below(Memory(s), s.mem.next)
      && OnDisk(s.imm[0].data, Disk(s.levels, cfg.maxLevels))
  }

  ghost predicate CompactionOk(cfg: Config, s: State) {
    s.job.Some? ==> JobOk(cfg, s.levels, s.clock, s.job.value)
  }

  ghost predicate Inv(cfg: Config, s: State) {
    && cfg.Valid() && MemsOk(s) && LevelsOk(cfg, s.levels, s.clock)
    && StackOk(cfg, s) && FlushOk(cfg, s) && CompactionOk(cfg, s)
  }

  function Init(cfg: Config): State {
    State(EmptyMem(cfg.memtableSizeThreshold, 0), [], map[], 1, 0, false, None)
  }
}
