/** Closing the engine and rebuilding its levels from the files of the directory. */
module Reopening {
  import opened Basics
  import opened StableSort
  import opened Layers
  import opened MemTables
  import opened EngineModel
  import opened EngineProofs
  import opened EngineOps
  import opened FileNames

  /** A table file: the level its name carries, and its contents. */
  datatype File = File(level: nat, table: Table)

  /** What a directory lists: a name, and the table that opening the file gives, unless that fails. */
  datatype DirEntry = DirEntry(name: string, table: Option<Table>)

  /** Other files, names without a level, and files that do not open are passed over. */
  function FileOf(d: DirEntry): Option<File> {
    if IsTableFile(d.name) && ParseLevel(d.name).Some? && d.table.Some?
    then Some(File(ParseLevel(d.name).value, d.table.value)) else None
  }

  function TableFiles(dir: seq<DirEntry>): seq<File> {
    if dir == [] then []
    else
      var f := FileOf(dir[|dir| - 1]);
      TableFiles(dir[..|dir| - 1]) + (if f.Some? then [f.value] else [])
  }

  /** Exactly which directory entries are loaded, and at which level. */
  lemma LoadedExactly(d: DirEntry, f: File)
    ensures FileOf(d) == Some(f) <==>
      && d.table == Some(f.table)
      && (exists stem :: HasStem(d.name, stem))
      && (exists number, rest :: CarriesLevel(d.name, f.level, number, rest))
  {
    hide ParseLevel, IsTableFile, HasStem, CarriesLevel;
    LevelExactly(d.name, f.level);
    TableFileExactly(d.name);
  }

  /** A table written under the engine's own name is found again, with its level. */
  lemma OwnFilesAreFound(level: nat, timestamp: nat, sequence: nat, t: Table)
    requires level < USIZE_LIMIT
    ensures FileOf(DirEntry(TableName(level, timestamp, sequence), Some(t))) == Some(File(level, t))
  {
    hide ParseLevel, TableName, IsTableFile;
    LevelRoundTrip(level, timestamp, sequence);
  }

  // ---------- loading ----------

  function FilesAt(listing: seq<File>, l: nat): seq<Table> {
    if listing == [] then []
    else
      var f := listing[|listing| - 1];
      FilesAt(listing[..|listing| - 1], l) + (if f.level == l then [f.table] else [])
  }

  function SortByCreation(ts: seq<Table>): seq<Table> {
    SortBy(ts, CreatedBefore)
  }

  /** Each file once, in any order. */
  ghost predicate Lists(listing: seq<File>, levels: Levels) {
    && (forall i, j :: 0 <= i < j < |listing| ==> listing[i] != listing[j])
    && (forall f :: f in listing <==> f.table in TablesAt(levels, f.level))
  }

  lemma {:induction false} FilesAtMembers(listing: seq<File>, l: nat)
    ensures forall t :: t in FilesAt(listing, l) <==> File(l, t) in listing
  {
    if listing != [] {
      var n := |listing| - 1;
      FilesAtMembers(listing[..n], l);
      assert forall f :: f in listing <==> f in listing[..n] || f == listing[n];
    }
  }

  lemma {:induction false} FilesAtDistinct(listing: seq<File>, levels: Levels, l: nat)
    requires forall i, j :: 0 <= i < j < |listing| ==> listing[i] != listing[j]
    requires forall f :: f in listing ==> f.table in TablesAt(levels, f.level)
    requires Ascends(TablesAt(levels, l), CreatedBefore)
    ensures AllDiffer(FilesAt(listing, l), CreatedBefore)
  {
    if listing != [] {
      var n := |listing| - 1;
      FilesAtDistinct(listing[..n], levels, l);
      FilesAtMembers(listing[..n], l);
      var ts, t := FilesAt(listing[..n], l), listing[n].table;
      if listing[n].level == l {
        forall x | x in ts ensures Differ(x, t, CreatedBefore) {
          assert File(l, x) in listing[..n];
          assert listing[n] == File(l, t) && listing[n] !in listing[..n];
          TablesDiffer(TablesAt(levels, l), x, t);
        }
        DifferSnoc(ts, t, CreatedBefore);
      }
    }
  }

  lemma TablesDiffer(ts: seq<Table>, a: Table, b: Table)
    requires Ascends(ts, CreatedBefore) && a in ts && b in ts && a != b
    ensures Differ(a, b, CreatedBefore)
  {
  }

  /** In whatever order the directory lists the files, sorting by creation time rebuilds every level. */
  lemma LoadRebuildsLevels(levels: Levels, listing: seq<File>, l: nat)
    requires Ascends(TablesAt(levels, l), CreatedBefore) && Lists(listing, levels)
    ensures SortByCreation(FilesAt(listing, l)) == TablesAt(levels, l)
  {
    FilesAtDistinct(listing, levels, l);
    FilesAtMembers(listing, l);
    SortKeepsDifferent(FilesAt(listing, l), CreatedBefore);
    AscendsExactlyWhenDifferent(FilesAt(listing, l), CreatedBefore);
    AscendingUnique(SortByCreation(FilesAt(listing, l)), TablesAt(levels, l), CreatedBefore);
  }

  // ---------- closing ----------

  /** Immutable memtables first, oldest first, then the current one; nothing else is written. */
  function ClosedLevels(cfg: Config, s: State): Levels {
    var d := Drain(cfg, s, 0);
    AppendFlush(cfg, d.levels, d.mem, d.clock)
  }

  function ClosedClock(cfg: Config, s: State): nat {
    var d := Drain(cfg, s, 0);
    if d.mem.count == 0 then d.clock else d.clock + 1
  }

  /** The disk alone answers for the whole store, and holds no number at or above `next`. */
  ghost predicate DiskOk(cfg: Config, levels: Levels, clock: nat, next: nat) {
    && cfg.Valid()
    && LevelsOk(cfg, levels, clock)
    && Ordered(Disk(levels, cfg.maxLevels))
    && Below(Disk(levels, cfg.maxLevels), next)
  }

  lemma CloseMakesDurable(cfg: Config, s: State)
    requires Inv(cfg, s) && Quiet(s)
    ensures DiskOk(cfg, ClosedLevels(cfg, s), ClosedClock(cfg, s), s.mem.next)
    ensures forall k :: Visible(Disk(ClosedLevels(cfg, s), cfg.maxLevels), k) == Get(cfg, s, k)
  {
    hide Get, Ordered, Below, LevelsOk, MemsOk, CompactionOk, Disk, Accounted, FlushedTable;
    DrainOk(cfg, s, 0);
    var d := Drain(cfg, s, 0);
    MemoryOk(cfg, d);
    RotateFromKeepsInv(cfg, d, d.mem.next);
    var r := RotateFrom(cfg, d, d.mem.next);
    FlushOldestOk(cfg, r);
    var t := FlushOldest(cfg, r);
    assert t.levels == ClosedLevels(cfg, s) && t.clock == ClosedClock(cfg, s);
    EmptyMemory(cfg, t);
  }

  lemma EmptyMemory(cfg: Config, t: State)
    requires t.mem.data == map[] && t.imm == [] && !t.published
    ensures Ordered(Core(cfg, t)) ==> Ordered(Disk(t.levels, cfg.maxLevels))
    ensures forall b :: Below(Core(cfg, t), b) ==> Below(Disk(t.levels, cfg.maxLevels), b)
    ensures forall k :: Get(cfg, t, k) == Visible(Disk(t.levels, cfg.maxLevels), k)
  {
    var disk := Disk(t.levels, cfg.maxLevels);
    assert Core(cfg, t) == [map[]] + disk && Probe(cfg, t) == [map[]] + disk;
    StackCons(map[], disk);
    PushEmptyLayer(disk);
  }

  // ---------- reopening ----------

  /** A freshly opened engine over these levels; its memtable numbers writes from `start`. */
  function Reopened(cfg: Config, levels: Levels, clock: nat, start: nat): State {
    State(EmptyMem(cfg.memtableSizeThreshold, start), [], levels, 1, clock, false, None)
  }

  /** Whatever number it starts from and however many levels it reads, a reopened engine answers from its disk. */
  lemma ReopenedAnswers(cfg: Config, levels: Levels, clock: nat, start: nat, k: Key)
    ensures Get(cfg, Reopened(cfg, levels, clock, start), k) == Visible(Disk(levels, cfg.maxLevels), k)
  {
    var disk := Disk(levels, cfg.maxLevels);
    assert Probe(cfg, Reopened(cfg, levels, clock, start)) == [map[]] + disk;
    LookupCons(map[], disk, k);
  }

  /** With fewer levels than the files use, a key reads as before exactly when the levels left out do not decide it. */
  lemma FewerLevelsExactly(cfg: Config, levels: Levels, clock: nat, start: nat, used: nat, k: Key)
    requires 1 <= cfg.maxLevels <= used
    ensures Get(cfg, Reopened(cfg, levels, clock, start), k) == Visible(Disk(levels, used), k) <==>
      || Lookup(Disk(levels, cfg.maxLevels), k).Some?
      || Visible(DeepLayers(levels, cfg.maxLevels, used), k) == None
  {
    hide Get, Reopened, LevelLayer, NewestTables;
    ReopenedAnswers(cfg, levels, clock, start, k);
    DeepSplit(levels, 1, cfg.maxLevels, used);
    assert Disk(levels, used) == Disk(levels, cfg.maxLevels) + DeepLayers(levels, cfg.maxLevels, used);
    LookupAppend(Disk(levels, cfg.maxLevels), DeepLayers(levels, cfg.maxLevels, used), k);
  }

  /** The reopened engine is in a good state exactly when it starts above every stored sequence number. */
  lemma ReopenedExactly(cfg: Config, levels: Levels, clock: nat, next: nat, start: nat)
    requires DiskOk(cfg, levels, clock, next)
    ensures Inv(cfg, Reopened(cfg, levels, clock, start)) <==> Below(Disk(levels, cfg.maxLevels), start)
    ensures forall k :: Get(cfg, Reopened(cfg, levels, clock, start), k) == Visible(Disk(levels, cfg.maxLevels), k)
  {
    var s, disk := Reopened(cfg, levels, clock, start), Disk(levels, cfg.maxLevels);
    assert Core(cfg, s) == [map[]] + disk && Probe(cfg, s) == [map[]] + disk;
    StackCons(map[], disk);
    PushEmptyLayer(disk);
    assert Footprint(map[]) == 0;
  }

  /** The levels after loading the files. */
  ghost predicate LoadedFrom(listing: seq<File>, levels: Levels) {
    forall l: nat :: TablesAt(levels, l) == SortByCreation(FilesAt(listing, l))
  }

  lemma SameLevelsSameDisk(cfg: Config, a: Levels, b: Levels, clock: nat)
    requires forall l: nat :: TablesAt(a, l) == TablesAt(b, l)
    ensures Disk(a, cfg.maxLevels) == Disk(b, cfg.maxLevels)
    ensures LevelsOk(cfg, a, clock) <==> LevelsOk(cfg, b, clock)
  {
    DeepSame(a, b, 1, cfg.maxLevels);
  }

  /** After close and reopen every `get` answers as before, and the engine is ready to go on. */
  lemma CloseAndReopen(cfg: Config, s: State, listing: seq<File>, loaded: Levels)
    requires Inv(cfg, s) && Quiet(s)
    requires Lists(listing, ClosedLevels(cfg, s)) && LoadedFrom(listing, loaded)
    ensures Inv(cfg, Reopened(cfg, loaded, ClosedClock(cfg, s), s.mem.next))
    ensures SameAnswers(cfg, s, Reopened(cfg, loaded, ClosedClock(cfg, s), s.mem.next))
  {
    hide Inv, Get, ClosedLevels, ClosedClock;
    var levels, clock := ClosedLevels(cfg, s), ClosedClock(cfg, s);
    CloseMakesDurable(cfg, s);
    forall l: nat ensures TablesAt(loaded, l) == TablesAt(levels, l) {
      assert InCreationOrder(TablesAt(levels, l), clock);
      LoadRebuildsLevels(levels, listing, l);
    }
    SameLevelsSameDisk(cfg, loaded, levels, clock);
    ReopenedExactly(cfg, loaded, clock, s.mem.next, s.mem.next);
  }
}
