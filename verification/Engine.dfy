/**
  The storage engine object: the fields the source updates in place, its operations as methods,
  each proved against the state machine of `EngineModel` and against the plain map a client expects.
 */
module Engine {
  import opened Basics
  import opened ByteOrder
  import opened Sorting
  import opened Layers
  import opened MemTables
  import opened Packing
  import opened EngineModel
  import opened EngineProofs
  import EngineRuns
  import Ops = EngineOps
  import opened Probing
  import opened Scanning
  import opened Reopening
  import opened FileNames
  import opened StableSort

  function MemViews(ms: seq<MemTable>): seq<Mem>
    reads ms
  {
    seq(|ms|, i requires 0 <= i < |ms| reads ms => ms[i].View())
  }

  class StorageEngine {
    const cfg: Config
    var memtable: MemTable
    var immutables: seq<MemTable>
    var sstables: Levels
    var sequenceCounter: nat
    var clock: nat
    var closed: bool

    function View(): State
      reads this, memtable, immutables
    {
      State(memtable.View(), MemViews(immutables), sstables, sequenceCounter, clock, false, None)
    }

    ghost predicate Valid()
      reads this, memtable, immutables
    {
      && memtable !in immutables
      && (!closed ==> Inv(cfg, View()) && Ops.MemBounded(cfg, View()) && !memtable.immutable)
    }

    // ---------- opening ----------

    /** An engine over loaded levels whose memtable numbers its writes from `start`. */
    constructor OverLevels(cfg: Config, levels: Levels, clock: nat, start: nat)
      ensures this.cfg == cfg && !closed
      ensures View() == Reopened(cfg, levels, clock, start)
      ensures fresh(memtable) && immutables == [] && !memtable.immutable
    {
      this.cfg := cfg;
      memtable := new MemTable.WithSequence(cfg.memtableSizeThreshold, start, clock);
      immutables := [];
      sstables := levels;
      sequenceCounter := 1;
      this.clock := clock;
      closed := false;
    }

    /** Collect the table files per level, in listing order, passing over everything else. */
    static method CollectFiles(dir: seq<DirEntry>) returns (levels: Levels)
      ensures forall l: nat :: TablesAt(levels, l) == FilesAt(TableFiles(dir), l)
    {
      hide FilesAt, TableFiles, ParseLevel, IsTableFile;
      levels := map[];
      NoFiles();
      for i := 0 to |dir|
        invariant forall l: nat :: TablesAt(levels, l) == FilesAt(TableFiles(dir[..i]), l)
      {
        var entry := dir[i];
        ghost var before := levels;
        NextFile(dir, i);
        if IsTableFile(entry.name) {
          var level := ParseLevel(entry.name);
          if level.Some? && entry.table.Some? {
            levels := levels[level.value := TablesAt(levels, level.value) + [entry.table.value]];
          }
        }
        forall l: nat ensures TablesAt(levels, l) == TablesAt(before, l) + TableOf(FileOf(entry), l) {
        }
      }
      assert dir[..|dir|] == dir;
    }

    /** Sort every level by creation time. */
    static method SortLevels(unsorted: Levels) returns (levels: Levels)
      ensures forall l: nat :: TablesAt(levels, l) == SortByCreation(TablesAt(unsorted, l))
    {
      levels := unsorted;
      var todo := levels.Keys;
      while todo != {}
        invariant levels.Keys == unsorted.Keys && todo <= levels.Keys
        invariant forall l :: l in levels ==> levels[l] == if l in todo then unsorted[l] else SortByCreation(unsorted[l])
        decreases |todo|
      {
        var l :| l in todo;
        todo := todo - {l};
        levels := levels[l := SortByCreation(levels[l])];
      }
    }

    static method LoadSstables(dir: seq<DirEntry>) returns (levels: Levels)
      ensures LoadedFrom(TableFiles(dir), levels)
    {
      var unsorted := CollectFiles(dir);
      levels := SortLevels(unsorted);
    }

    /**
      Open a directory whose table files hold the given levels, in whatever order it lists them. The engine answers
      every key from those levels that it is configured to read. If they are what a closed engine with as many
      levels left behind, the engine is ready to go on.
     */
    static method Open(cfg: Config, dir: seq<DirEntry>, clock: nat, ghost levels: Levels, ghost next: nat)
      returns (r: Result<StorageEngine>)
      requires Lists(TableFiles(dir), levels)
      requires forall l: nat :: Ascends(TablesAt(levels, l), CreatedBefore)
      ensures r.Err? <==> || cfg.memtableSizeThreshold == 0 || cfg.maxMemtables == 0 || cfg.maxLevels == 0
                          || cfg.l0SstableSize == 0 || cfg.l0CompactionThreshold == 0 || cfg.levelSizeMultiplier < 10
      ensures r.Ok? <==> cfg.Validates()
      ensures r.Err? ==> r.error == InvalidConfig
      ensures r.Ok? ==> fresh(r.value) && r.value.cfg == cfg && !r.value.closed
      ensures r.Ok? ==> forall k :: Get(cfg, r.value.View(), k) == Visible(Disk(levels, cfg.maxLevels), k)
      ensures r.Ok? && DiskOk(cfg, levels, clock, next) ==> r.value.Valid()
    {
      hide Get, DiskOk, Inv;
      if !cfg.Validates() {
        return Err(InvalidConfig);
      }
      var loaded := LoadSstables(dir);
      forall l: nat ensures TablesAt(loaded, l) == TablesAt(levels, l) {
        LoadRebuildsLevels(levels, TableFiles(dir), l);
      }
      var start := NextNumber(LevelEntries(TablesBelow(loaded, cfg.maxLevels)));
      LoadedIsSound(cfg, levels, loaded, clock, next);
      forall k ensures Get(cfg, Reopened(cfg, loaded, clock, start), k) == Visible(Disk(loaded, cfg.maxLevels), k) {
        ReopenedAnswers(cfg, loaded, clock, start, k);
      }
      var engine := new StorageEngine.OverLevels(cfg, loaded, clock, start);
      r := Ok(engine);
    }

    // ---------- writing ----------

    method NextSequence() returns (s: nat)
      modifies this`sequenceCounter
      ensures s == old(sequenceCounter) && sequenceCounter == s + 1
    {
      s := sequenceCounter;
      sequenceCounter := sequenceCounter + 1;
    }

    method Now() returns (t: nat)
      modifies this`clock
      ensures t == old(clock) && clock == t + 1
    {
      t := clock;
      clock := clock + 1;
    }

    /** Write a memtable out as the newest table of level 0. */
    method FlushMemtable(m: MemTable)
      requires m.Valid()
      modifies this`sstables, this`clock
      ensures sstables == AppendFlush(cfg, old(sstables), m.View(), old(clock))
      ensures clock == if m.count == 0 then old(clock) else old(clock) + 1
      ensures m.count == 0 ==> sstables == old(sstables)
      ensures m.count > 0 ==> exists t: Table ::
        && sstables == old(sstables)[0 := TablesAt(old(sstables), 0) + [t]]
        && Sorted(t.entries) && ToMap(t.entries) == m.data
        && t.createdAt == old(clock) && t.dataSize == cfg.dataSize(t.entries)
    {
      hide SortedEntries, ToMap, Sorted;
      if m.count == 0 {
        return;
      }
      var entries := m.Entries();
      var now := Now();
      var table := Table(entries, now, cfg.dataSize(entries));
      sstables := sstables[0 := TablesAt(sstables, 0) + [table]];
    }

    /**
      Replace the memtable by an empty one and queue the full one. The new memtable continues the
      numbering of the old one (`EngineDefects` shows what happens when it does not).
     */
    method SwapMemtable()
      requires memtable !in immutables && Inv(cfg, View())
      modifies this`memtable, this`immutables, this`sequenceCounter, memtable
      ensures memtable !in immutables && fresh(memtable) && Inv(cfg, View())
      ensures View() == DoRotate(cfg, old(View()))
    {
      hide Inv, Accounted, Get;
      ghost var before := View();
      Ops.InvAccounts(cfg, before);
      var start := NextSequence();
      var full := memtable;
      memtable := new MemTable.WithSequence(cfg.memtableSizeThreshold, Max(start, full.sequenceCounter), clock);
      full.MakeImmutable();
      immutables := immutables + [full];
      assert View().imm == before.imm + [before.mem.(immutable := true)];
      assert View() == DoRotate(cfg, before);
      RotateKeepsInv(cfg, before);
    }

    /** Rotate, then flush the oldest immutable memtables while too many wait. */
    method RotateMemtable()
      requires Valid() && !closed
      modifies this`memtable, this`immutables, this`sequenceCounter, this`sstables, this`clock, memtable
      ensures Valid() && !closed
      ensures View() == Ops.RotateMemtable(cfg, old(View()))
      ensures fresh(memtable) && memtable.data == map[]
      ensures |immutables| == if |old(immutables)| < cfg.maxMemtables then |old(immutables)| + 1 else cfg.maxMemtables
    {
      hide Inv, Accounted, Get;
      SwapMemtable();
      ghost var rotated := View();
      while |immutables| > cfg.maxMemtables
        invariant memtable !in immutables && fresh(memtable)
        invariant Inv(cfg, View()) && View().mem == rotated.mem
        invariant Ops.Drain(cfg, View(), cfg.maxMemtables) == Ops.Drain(cfg, rotated, cfg.maxMemtables)
        invariant |immutables| >= if |rotated.imm| < cfg.maxMemtables then |rotated.imm| else cfg.maxMemtables
        decreases |immutables|
      {
        EvictOldest();
      }
      Ops.InvAccounts(cfg, rotated);
      assert |View().imm| == |immutables|;
    }

    /** Take the oldest immutable memtable off the queue and flush it. */
    method EvictOldest()
      requires Inv(cfg, View()) && immutables != []
      modifies this`immutables, this`sstables, this`clock
      ensures Inv(cfg, View()) && immutables == old(immutables)[1..]
      ensures View() == Ops.FlushOldest(cfg, old(View()))
    {
      hide Inv, Accounted, Ops.SameAnswers, Get, SortedEntries;
      ghost var s := View();
      Ops.InvAccounts(cfg, s);
      var oldest := immutables[0];
      assert s.imm[0] == oldest.View();
      immutables := immutables[1..];
      FlushMemtable(oldest);
      assert View().imm == s.imm[1..];
      assert s.imm[0].count == oldest.count;
      assert View() == Ops.FlushOldest(cfg, s);
      Ops.FlushOldestOk(cfg, s);
    }

    method CheckRotateMemtable()
      requires Valid() && !closed
      modifies this, memtable
      ensures Valid() && !closed
      ensures View() == Ops.CheckRotate(cfg, old(View()))
      ensures old(memtable.size) < old(memtable).maxSize ==> View() == old(View())
      ensures old(memtable.size) >= old(memtable).maxSize ==> fresh(memtable) && memtable.data == map[]
      ensures memtable == old(memtable) || fresh(memtable)
      ensures !memtable.immutable
    {
      if memtable.size >= memtable.maxSize {
        RotateMemtable();
      }
    }

    /** Store a value. Afterwards the key reads as that value and every other key as before. */
    method Put(key: Key, value: Value) returns (r: Result<()>)
      requires Valid()
      modifies this, memtable
      ensures Valid()
      ensures r == if old(closed) then Err(Closed)
                   else if |key| > 1024 then Err(InvalidKeySize(|key|))
                   else if |value| > 1048576 then Err(InvalidValueSize(|value|))
                   else Ok(())
      ensures View() == if r.Ok? then Ops.WriteOp(cfg, old(View()), key, Some(value)) else old(View())
      ensures r.Ok? ==> forall k :: (Get(cfg, View(), k) == if k == key then Some(value) else Get(cfg, old(View()), k))
      ensures closed == old(closed)
    {
      hide Inv, Get, Ops.CheckRotate, Accounted, Ops.SameAnswers;
      if closed {
        return Err(Closed);
      }
      if |key| > MAX_KEY_SIZE {
        return Err(InvalidKeySize(|key|));
      }
      if |value| > MAX_VALUE_SIZE {
        return Err(InvalidValueSize(|value|));
      }
      Ops.WriteOpOk(cfg, View(), key, Some(value));
      CheckRotateMemtable();
      Ops.CheckRotateOk(cfg, old(View()));
      Ops.InvAccounts(cfg, View());
      var now := Now();
      r := memtable.Put(key, value, now);
    }

    /** Remove a key. Afterwards it reads as absent and every other key as before. */
    method Delete(key: Key) returns (r: Result<()>)
      requires Valid()
      modifies this, memtable
      ensures Valid()
      ensures r == if old(closed) then Err(Closed)
                   else if |key| > 1024 then Err(InvalidKeySize(|key|))
                   else Ok(())
      ensures View() == if r.Ok? then Ops.WriteOp(cfg, old(View()), key, None) else old(View())
      ensures r.Ok? ==> forall k :: (Get(cfg, View(), k) == if k == key then None else Get(cfg, old(View()), k))
      ensures closed == old(closed)
    {
      hide Inv, Get, Ops.CheckRotate, Accounted, Ops.SameAnswers;
      if closed {
        return Err(Closed);
      }
      if |key| > MAX_KEY_SIZE {
        return Err(InvalidKeySize(|key|));
      }
      Ops.WriteOpOk(cfg, View(), key, None);
      CheckRotateMemtable();
      Ops.CheckRotateOk(cfg, old(View()));
      Ops.InvAccounts(cfg, View());
      var now := Now();
      r := memtable.Delete(key, now);
    }

    // ---------- reading ----------

    /** Probe the memtable, the immutable memtables newest first, level 0 newest first, then one table per level. */
    method GetValue(key: Key) returns (r: Result<Option<Value>>)
      requires Valid()
      ensures r == if closed then Err(Closed) else Ok(Get(cfg, View(), key))
    {
      hide Inv, Accounted, Find, ToMap;
      if closed {
        return Err(Closed);
      }
      ghost var s := View();
      Ops.InvAccounts(cfg, s);
      var e := memtable.Get(key);
      if e.Some? {
        FoundInMem(cfg, s, key);
        return Ok(e.value.value);
      }
      for i := |immutables| downto 0
        invariant forall j :: i <= j < |immutables| ==> key !in s.imm[j].data
      {
        assert s.imm[i] == immutables[i].View();
        e := immutables[i].Get(key);
        if e.Some? {
          FoundInImmutable(cfg, s, key, i);
          return Ok(e.value.value);
        }
      }
      assert NotInMemory(s, key);
      for level := 0 to cfg.maxLevels
        invariant NotAbove(cfg, s, key, level)
      {
        if level in sstables {
          var tables := sstables[level];
          if level == 0 {
            for i := |tables| downto 0
              invariant forall j :: i <= j < |tables| ==> key !in ToMap(tables[j].entries)
            {
              if cfg.mightContain(tables[i].entries, key) {
                e := Find(tables[i].entries, key);
                if e.Some? {
                  HitEntries(tables[i].entries, key);
                  FoundInL0(cfg, s, key, i);
                  return Ok(e.value.value);
                }
              }
              MissedTable(cfg, tables[i], key);
            }
          } else {
            DeepTables(cfg, s, level);
            var t := EngineRuns.FindTable(tables, key);
            EngineRuns.OneTablePerLevel(tables, key);
            if t.Some? {
              if cfg.mightContain(t.value.entries, key) {
                e := Find(t.value.entries, key);
                if e.Some? {
                  HitEntries(LevelEntries(tables), key);
                  FoundDeep(cfg, s, key, level);
                  return Ok(e.value.value);
                }
              }
              MissedTable(cfg, t.value, key);
            }
          }
        }
        NextLevel(cfg, s, key, level);
      }
      FoundNowhere(cfg, s, key);
      r := Ok(None);
    }

    /** Record the entries of one source: a version already recorded gives way only to a higher sequence number. */
    static method Absorb(found: Found, es: seq<Entry>, ghost seen: seq<Entry>) returns (r: Found)
      requires found == Recorded(HighestPerKey(seen))
      ensures r == Recorded(HighestPerKey(seen + es))
    {
      hide HighestPerKey, Recorded, Offer;
      r := found;
      assert seen + es[..0] == seen;
      for i := 0 to |es|
        invariant r == Recorded(HighestPerKey(seen + es[..i]))
      {
        var e := es[i];
        ghost var before := seen + es[..i];
        assert seen + es[..i + 1] == before + [e];
        NextOffer(before, e);
        RecordOffer(HighestPerKey(before), e);
        SameKeys(HighestPerKey(before));
        if e.key in r && e.sequence <= r[e.key].1 {
          continue;
        }
        if e.value.Some? {
          r := r[e.key := (e.value.value, e.sequence)];
        } else {
          r := r[e.key := ([], e.sequence)];
        }
      }
      assert es[..|es|] == es;
    }

    /** Record what the tables of one level hold in the range. */
    static method AbsorbTables(found: Found, tables: seq<Table>, start: Key, end: Key, ghost seen: seq<Entry>)
      returns (r: Found)
      requires found == Recorded(HighestPerKey(Slice(seen, start, end)))
      ensures r == Recorded(HighestPerKey(Slice(seen + LevelEntries(tables), start, end)))
    {
      hide HighestPerKey, Recorded, Within;
      r := found;
      assert seen + LevelEntries(tables[..0]) == seen;
      for i := 0 to |tables|
        invariant r == Recorded(HighestPerKey(Slice(seen + LevelEntries(tables[..i]), start, end)))
      {
        var entries := Slice(tables[i].entries, start, end);
        r := Absorb(r, entries, Slice(seen + LevelEntries(tables[..i]), start, end));
        NextTable(seen, tables[..i], tables[i], start, end);
        assert tables[..i + 1] == tables[..i] + [tables[i]];
      }
      assert tables[..|tables|] == tables;
    }

    /** The range query of a non-empty memtable panics on `start > end`. */
    ghost predicate MayScan(start: Key, end: Key)
      reads this, memtable, immutables
    {
      Less(end, start) ==> memtable.data == map[] && forall i :: 0 <= i < |immutables| ==> immutables[i].data == map[]
    }

    /** Record what the memtables hold in the range, newest first. */
    method AbsorbMemtables(start: Key, end: Key) returns (r: Found)
      requires Valid() && !closed && MayScan(start, end)
      ensures r == Recorded(HighestPerKey(Slice(MemEntries(View(), 0), start, end)))
    {
      hide Inv, Accounted, HighestPerKey, Within, Recorded, SortedEntries, Sorted;
      ghost var s := View();
      Ops.InvAccounts(cfg, s);
      NothingRecorded();
      var entries := memtable.RangeIter(start, end);
      r := Absorb(map[], entries, []);
      assert [] + entries == entries;
      for i := |immutables| downto 0
        invariant r == Recorded(HighestPerKey(Slice(MemEntries(s, i), start, end)))
      {
        assert s.imm[i] == immutables[i].View();
        entries := immutables[i].RangeIter(start, end);
        r := Absorb(r, entries, Slice(MemEntries(s, i + 1), start, end));
        SliceAppend(MemEntries(s, i + 1), SortedEntries(s.imm[i].data), start, end);
      }
    }

    /**
      The pairs with `start <= key < end`, by ascending key, that point reads return with a non-empty value.
     */
    method Scan(start: Key, end: Key) returns (r: Result<seq<(Key, Value)>>)
      requires Valid() && (closed || MayScan(start, end))
      ensures closed ==> r == Err(Closed)
      ensures !closed ==> r.Ok? && IsScan(Probe(cfg, View()), start, end, r.value)
    {
      hide Inv, HighestPerKey, IsScan, Slice, Probe, Recorded, LevelEntries, MemEntries;
      if closed {
        return Err(Closed);
      }
      ghost var s := View();
      ghost var mems := MemEntries(s, 0);
      var found := AbsorbMemtables(start, end);
      NoTables(mems);
      for level := 0 to cfg.maxLevels
        invariant found == Recorded(HighestPerKey(Slice(mems + LevelEntries(TablesBelow(sstables, level)), start, end)))
      {
        NextLevelOfScan(mems, sstables, level);
        if level in sstables {
          found := AbsorbTables(found, sstables[level], start, end, mems + LevelEntries(TablesBelow(sstables, level)));
        }
      }
      ScanReports(cfg, s, start, end);
      r := Ok(Report(found));
    }

    // ---------- compaction ----------

    /** Keep the highest sequence number per key, drop the tombstones not in `keep`, sort by key. */
    static method MergeSstables(tables1: seq<Table>, tables2: seq<Table>, keep: set<Key>) returns (es: seq<Entry>)
      ensures es == MergeTables(tables1, tables2, keep)
    {
      hide LevelEntries, HighestPerKey;
      var entries: map<Key, Entry> := map[];
      var tables := tables1 + tables2;
      NoEntries();
      for i := 0 to |tables|
        invariant entries == HighestPerKey(LevelEntries(tables[..i]))
      {
        var t := tables[i];
        ghost var before := LevelEntries(tables[..i]);
        assert before + t.entries[..0] == before;
        for j := 0 to |t.entries|
          invariant entries == HighestPerKey(before + t.entries[..j])
        {
          var e := t.entries[j];
          NextOffer(before + t.entries[..j], e);
          assert before + t.entries[..j + 1] == before + t.entries[..j] + [e];
          if e.key in entries {
            if e.sequence > entries[e.key].sequence {
              entries := entries[e.key := e];
            }
          } else {
            entries := entries[e.key := e];
          }
        }
        assert t.entries[..|t.entries|] == t.entries;
        OneMoreTable(tables[..i], t);
        assert tables[..i + 1] == tables[..i] + [t];
      }
      assert tables[..|tables|] == tables;
      es := SortedEntries(DropTombstones(entries, keep));
    }

    method CreateSstable(entries: seq<Entry>) returns (t: Table)
      modifies this`clock, this`sequenceCounter
      ensures t == Table(entries, old(clock), cfg.dataSize(entries))
      ensures clock == old(clock) + 1 && sequenceCounter == old(sequenceCounter) + 1
    {
      var now := Now();
      var sequence := NextSequence();
      t := Table(entries, now, cfg.dataSize(entries));
    }

    /** Cut the merged entries into tables: a table is closed when the next entry would exceed the target size. */
    method CreateSstablesForLevel(level: nat, entries: seq<Entry>) returns (tables: seq<Table>)
      modifies this`clock, this`sequenceCounter
      ensures tables == CreateTables(cfg, level, entries, old(clock))
      ensures CutTo(cfg, tables, entries, old(clock),
                    if level == 0 then cfg.l0SstableSize else cfg.l0SstableSize + cfg.l0SstableSize)
      ensures clock == old(clock) + |tables| && sequenceCounter == old(sequenceCounter) + |tables|
    {
      hide Greedy, Place, Total, TablesOf, CreateTables, CutTo;
      CreateTablesCut(cfg, level, entries, clock);
      tables := [];
      NoPieces(cfg, level, clock);
      if entries == [] {
        return;
      }
      var targetSize := if level == 0 then cfg.l0SstableSize else cfg.l0SstableSize * 2;
      var current: seq<Entry> := [];
      var currentSize := 0;
      ghost var now, pieces: seq<seq<Entry>> := clock, [];
      for i := 0 to |entries|
        invariant Greedy(entries[..i], EntrySize, targetSize) == if i == 0 then [] else pieces + [current]
        invariant (i == 0 <==> current == []) && (i == 0 ==> pieces == [])
        invariant currentSize == Total(current, EntrySize)
        invariant TablesOf(cfg, pieces, now, tables)
        invariant clock == now + |tables| && sequenceCounter == old(sequenceCounter) + |tables|
      {
        var entry := entries[i];
        var entrySize := entry.Size();
        GreedyNext(entries, i, EntrySize, targetSize);
        PlaceNext(pieces, current, entry, EntrySize, targetSize);
        NewPiece(entry);
        if currentSize + entrySize > targetSize && current != [] {
          var table := CreateSstable(current);
          OneMorePiece(cfg, pieces, now, tables, current);
          tables := tables + [table];
          pieces := pieces + [current];
          current := [];
          currentSize := 0;
        }
        current := current + [entry];
        currentSize := currentSize + entrySize;
      }
      assert entries[..|entries|] == entries;
      if current != [] {
        var table := CreateSstable(current);
        OneMorePiece(cfg, pieces, now, tables, current);
        tables := tables + [table];
        pieces := pieces + [current];
      }
      PiecesAreTables(cfg, level, entries, now, tables);
    }

    /**
      Merge a level into the next one. `compact_l0_to_l1` is the case of level 0.
      A tombstone is kept when a level below the target still holds its key (`EngineDefects` shows why).
     */
    method CompactLevel(level: nat)
      requires Valid() && !closed && level + 1 < cfg.maxLevels
      modifies this`sstables, this`clock, this`sequenceCounter
      ensures Valid() && !closed
      ensures View() == Ops.Compact(cfg, old(View()), level)
      ensures forall k :: Get(cfg, View(), k) == Get(cfg, old(View()), k)
      ensures TablesAt(old(sstables), level) != [] ==>
        forall e :: e in LevelEntries(TablesAt(sstables, level + 1)) && e.value == None ==>
          Lookup(DeepLayers(old(sstables), level + 2, cfg.maxLevels), e.key).Some?
    {
      hide Inv, Get, MergeTables, CreateTables, DeepKeys;
      ghost var s := View();
      Ops.CompactOk(cfg, s, level);
      var current := TablesAt(sstables, level);
      var next := TablesAt(sstables, level + 1);
      if current == [] {
        return;
      }
      var keep := DeepKeys(sstables, level + 2, cfg.maxLevels);
      var merged := MergeSstables(current, next, keep);
      var newNext := CreateSstablesForLevel(level + 1, merged);
      sstables := sstables[level := []][level + 1 := newNext];
      forall e | e in LevelEntries(TablesAt(sstables, level + 1)) && e.value == None
        ensures Lookup(DeepLayers(old(sstables), level + 2, cfg.maxLevels), e.key).Some?
      {
        Ops.CompactDropsTombstones(cfg, s, level, e);
      }
    }

    method LevelNeedsCompaction(level: nat) returns (b: bool)
      ensures b <==> Ops.NeedsCompaction(cfg, View(), level)
      ensures forall sizes :: Ops.TargetSizes(cfg, sizes) && level < |sizes| ==>
        (b <==> Ops.LevelSize(TablesAt(sstables, level)) > sizes[level])
    {
      hide Ops.TargetSizes, Ops.LevelTargetSize;
      forall sizes | Ops.TargetSizes(cfg, sizes) && level < |sizes| ensures sizes[level] == Ops.LevelTargetSize(cfg, level) {
        Ops.TargetSizeIs(cfg, sizes, level);
      }
      if level in sstables {
        var tables := sstables[level];
        var currentSize := 0;
        for i := 0 to |tables|
          invariant currentSize == Ops.LevelSize(tables[..i])
        {
          assert tables[..i + 1][..i] == tables[..i];
          currentSize := currentSize + tables[i].dataSize;
        }
        assert tables[..|tables|] == tables;
        return currentSize > Ops.LevelTargetSize(cfg, level);
      } else {
        return false;
      }
    }

    /**
      One compaction pass: level 0 first, then levels 1 to `maxLevels - 2` in ascending order.
      Afterwards none of them is over its limit, and every key reads as before.
     */
    method RunCompaction()
      requires Valid() && !closed
      modifies this`sstables, this`clock, this`sequenceCounter
      ensures Valid() && !closed
      ensures View() == Ops.CompactionPass(cfg, old(View()))
      ensures |TablesAt(sstables, 0)| < cfg.l0CompactionThreshold
      ensures forall l: nat :: 1 <= l <= cfg.maxLevels - 2 ==>
        Ops.LevelSize(TablesAt(sstables, l)) <= Ops.LevelTargetSize(cfg, l)
      ensures forall sizes, l: nat :: Ops.TargetSizes(cfg, sizes) && 1 <= l <= cfg.maxLevels - 2 && l < |sizes| ==>
        Ops.LevelSize(TablesAt(sstables, l)) <= sizes[l]
      ensures forall sizes, n: nat, l: nat ::
        Ops.TargetSizes(cfg, sizes) && Ops.QuietUpTo(cfg, old(sstables), sizes, n) && l <= n && l < cfg.maxLevels ==>
          TablesAt(sstables, l) == TablesAt(old(sstables), l)
      ensures forall k :: Get(cfg, View(), k) == Get(cfg, old(View()), k)
    {
      hide Inv, Get, Ops.Compact, Ops.LevelSize, Ops.LevelTargetSize, Ops.NeedsCompaction;
      hide Ops.TargetSizes, Ops.QuietUpTo;
      ghost var s := View();
      Ops.InvAccounts(cfg, s);
      var l0Count := |TablesAt(sstables, 0)|;
      if l0Count >= cfg.l0CompactionThreshold {
        CompactLevel(0);
      }
      for level := 1 to cfg.maxLevels - 1
        invariant Valid() && !closed
        invariant View() == Ops.PassUpTo(cfg, s, level)
      {
        var needed := LevelNeedsCompaction(level);
        if needed {
          CompactLevel(level);
        }
      }
      Ops.CompactionPassSettles(cfg, s);
      AgainstSizes(cfg, s);
    }

    // ---------- closing ----------

    /** Flush everything; the files alone then answer every key as the engine did. */
    method Close()
      requires Valid()
      modifies this`closed, this`immutables, this`sstables, this`clock
      ensures closed && Valid()
      ensures old(closed) ==> View() == old(View())
      ensures !old(closed) ==> sstables == ClosedLevels(cfg, old(View())) && clock == ClosedClock(cfg, old(View()))
      ensures !old(closed) ==> DiskOk(cfg, sstables, clock, old(memtable.sequenceCounter))
      ensures !old(closed) ==> forall k :: Visible(Disk(sstables, cfg.maxLevels), k) == Get(cfg, old(View()), k)
    {
      hide Inv, Get, Accounted, Visible, DiskOk;
      if closed {
        return;
      }
      closed := true;
      ghost var s := View();
      CloseMakesDurable(cfg, s);
      while immutables != []
        invariant closed && memtable !in immutables && Inv(cfg, View())
        invariant Ops.Drain(cfg, View(), 0) == Ops.Drain(cfg, s, 0)
        decreases |immutables|
      {
        EvictOldest();
      }
      Ops.InvAccounts(cfg, View());
      if memtable.count > 0 {
        var copy := memtable.Clone();
        copy.MakeImmutable();
        FlushMemtable(copy);
      }
    }
  }

  lemma NoFiles()
    ensures forall l: nat :: FilesAt(TableFiles([]), l) == []
  {
  }

  function TableOf(f: Option<File>, l: nat): seq<Table> {
    if f.Some? && f.value.level == l then [f.value.table] else []
  }

  lemma NextFile(dir: seq<DirEntry>, i: nat)
    requires i < |dir|
    ensures forall l: nat ::
      FilesAt(TableFiles(dir[..i + 1]), l) == FilesAt(TableFiles(dir[..i]), l) + TableOf(FileOf(dir[i]), l)
  {
    hide FileOf;
    assert dir[..i + 1][..i] == dir[..i];
    var before, f := TableFiles(dir[..i]), FileOf(dir[i]);
    if f.Some? {
      assert (before + [f.value])[..|before|] == before;
    } else {
      assert before + [] == before;
    }
  }

  /** Loading rebuilt the levels; over them an engine that numbers from above everything stored is sound. */
  lemma LoadedIsSound(cfg: Config, levels: Levels, loaded: Levels, clock: nat, next: nat)
    requires forall l: nat :: TablesAt(loaded, l) == TablesAt(levels, l)
    ensures Disk(loaded, cfg.maxLevels) == Disk(levels, cfg.maxLevels)
    ensures cfg.Validates() && DiskOk(cfg, levels, clock, next) ==>
      Inv(cfg, Reopened(cfg, loaded, clock, NextNumber(LevelEntries(TablesBelow(loaded, cfg.maxLevels)))))
  {
    hide Inv, LevelEntries;
    SameLevelsSameDisk(cfg, loaded, levels, clock);
    if cfg.Validates() && DiskOk(cfg, levels, clock, next) {
      NextNumberIsAbove(cfg, loaded, clock);
      ReopenedExactly(cfg, loaded, clock, next, NextNumber(LevelEntries(TablesBelow(loaded, cfg.maxLevels))));
    }
  }

  lemma AgainstSizes(cfg: Config, s: State)
    requires Inv(cfg, s) && Ops.Quiet(s)
    ensures forall sizes, l: nat :: Ops.TargetSizes(cfg, sizes) && 1 <= l <= cfg.maxLevels - 2 && l < |sizes| ==>
      Ops.LevelSize(TablesAt(Ops.CompactionPass(cfg, s).levels, l)) <= sizes[l]
    ensures forall sizes, n: nat, l: nat ::
      Ops.TargetSizes(cfg, sizes) && Ops.QuietUpTo(cfg, s.levels, sizes, n) && l <= n && l < cfg.maxLevels ==>
        TablesAt(Ops.CompactionPass(cfg, s).levels, l) == TablesAt(s.levels, l)
  {
    hide Inv, Ops.TargetSizes, Ops.LevelSize, Ops.PassUpTo;
    Ops.InvAccounts(cfg, s);
    forall sizes | Ops.TargetSizes(cfg, sizes)
      ensures Ops.QuietUpTo(cfg, Ops.CompactionPass(cfg, s).levels, sizes, cfg.maxLevels)
      ensures forall n: nat, l: nat :: Ops.QuietUpTo(cfg, s.levels, sizes, n) && l <= n && l < cfg.maxLevels ==>
        TablesAt(Ops.CompactionPass(cfg, s).levels, l) == TablesAt(s.levels, l)
    {
      Ops.PassAgainstSizes(cfg, s, sizes);
    }
  }

  /** The tables made so far, one per closed piece. */
  ghost predicate TablesOf(cfg: Config, pieces: seq<seq<Entry>>, now: nat, tables: seq<Table>) {
    && |tables| == |pieces|
    && forall i :: 0 <= i < |tables| ==> tables[i] == Table(pieces[i], now + i, cfg.dataSize(pieces[i]))
  }

  lemma NoPieces(cfg: Config, level: nat, now: nat)
    ensures TablesOf(cfg, [], now, [])
    ensures CreateTables(cfg, level, [], now) == []
    ensures Total([], EntrySize) == 0
    ensures Greedy([], EntrySize, TargetSize(cfg, level)) == []
  {
  }

  lemma OneMorePiece(cfg: Config, pieces: seq<seq<Entry>>, now: nat, tables: seq<Table>, piece: seq<Entry>)
    requires TablesOf(cfg, pieces, now, tables)
    ensures TablesOf(cfg, pieces + [piece], now, tables + [Table(piece, now + |tables|, cfg.dataSize(piece))])
  {
  }

  lemma PiecesAreTables(cfg: Config, level: nat, es: seq<Entry>, now: nat, tables: seq<Table>)
    requires TablesOf(cfg, Greedy(es, EntrySize, TargetSize(cfg, level)), now, tables)
    ensures tables == CreateTables(cfg, level, es, now)
  {
  }

  lemma NewPiece(e: Entry)
    ensures [] + [e] == [e] && Total([], EntrySize) == 0 && Total([e], EntrySize) == e.Size()
  {
  }

  lemma NoEntries()
    ensures HighestPerKey(LevelEntries([])) == map[]
  {
  }

  lemma NextOffer(es: seq<Entry>, e: Entry)
    ensures HighestPerKey(es + [e]) == Offer(HighestPerKey(es), e)
  {
    assert (es + [e])[..|es|] == es;
  }

  lemma OneMoreTable(ts: seq<Table>, t: Table)
    ensures LevelEntries(ts + [t]) == LevelEntries(ts) + t.entries
  {
    LevelEntriesAppend(ts, [t]);
    FlattenSnoc([], t.entries);
    assert EntryLists([t]) == [] + [t.entries];
  }

  lemma SameKeys(m: Layer)
    ensures Recorded(m).Keys == m.Keys
    ensures forall k :: k in m ==> Recorded(m)[k].1 == m[k].sequence
  {
  }

  lemma NothingRecorded()
    ensures Recorded(HighestPerKey([])) == map[]
  {
  }

  lemma NoTables(mems: seq<Entry>)
    ensures mems + LevelEntries([]) == mems
  {
  }

  lemma NextLevelOfScan(mems: seq<Entry>, levels: Levels, level: nat)
    ensures mems + LevelEntries(TablesBelow(levels, level + 1))
      == mems + LevelEntries(TablesBelow(levels, level)) + LevelEntries(TablesAt(levels, level))
    ensures level !in levels ==>
      LevelEntries(TablesBelow(levels, level + 1)) == LevelEntries(TablesBelow(levels, level))
  {
    LevelEntriesAppend(TablesBelow(levels, level), TablesAt(levels, level));
    assert level !in levels ==> TablesBelow(levels, level + 1) == TablesBelow(levels, level);
  }

  /** Scanning one more table. */
  lemma NextTable(mems: seq<Entry>, ts: seq<Table>, t: Table, lo: Key, hi: Key)
    ensures Slice(mems + LevelEntries(ts + [t]), lo, hi)
      == Slice(mems + LevelEntries(ts), lo, hi) + Slice(t.entries, lo, hi)
  {
    hide Within;
    OneMoreTable(ts, t);
    assert mems + LevelEntries(ts + [t]) == mems + LevelEntries(ts) + t.entries;
    SliceAppend(mems + LevelEntries(ts), t.entries, lo, hi);
  }
}
