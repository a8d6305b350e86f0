/** Every step keeps the invariant, and only writes change what a reader sees. */
module EngineProofs {
  import opened Basics
  import opened ByteOrder
  import opened Sorting
  import opened Layers
  import opened MemTables
  import opened Packing
  import opened EngineModel

  // ---------- shape of the stack ----------

  lemma NewestTablesAppend(a: seq<Table>, b: seq<Table>)
    ensures NewestTables(a + b) == NewestTables(b) + NewestTables(a)
  {
    assert forall i :: 0 <= i < |a| + |b| ==>
      NewestTables(a + b)[i] == (NewestTables(b) + NewestTables(a))[i];
  }

  lemma NewestMemsAppend(a: seq<Mem>, b: seq<Mem>)
    ensures NewestMems(a + b) == NewestMems(b) + NewestMems(a)
  {
    assert forall i :: 0 <= i < |a| + |b| ==>
      NewestMems(a + b)[i] == (NewestMems(b) + NewestMems(a))[i];
  }

  lemma LevelEntriesAppend(a: seq<Table>, b: seq<Table>)
    ensures LevelEntries(a + b) == LevelEntries(a) + LevelEntries(b)
  {
    assert EntryLists(a + b) == EntryLists(a) + EntryLists(b);
    FlattenAppend(EntryLists(a), EntryLists(b));
  }

  lemma {:induction false} DeepSplit(levels: Levels, a: nat, b: nat, c: nat)
    requires a <= b <= c
    ensures DeepLayers(levels, a, c) == DeepLayers(levels, a, b) + DeepLayers(levels, b, c)
    decreases b - a
  {
    if a < b {
      DeepSplit(levels, a + 1, b, c);
    }
  }

  lemma {:induction false} DeepSame(x: Levels, y: Levels, from: nat, to: nat)
    requires forall l: nat :: from <= l < to ==> TablesAt(x, l) == TablesAt(y, l)
    ensures DeepLayers(x, from, to) == DeepLayers(y, from, to)
    ensures DeepKeys(x, from, to) == DeepKeys(y, from, to)
    decreases if from < to then to - from else 0
  {
    if from < to {
      DeepSame(x, y, from + 1, to);
    }
  }

  lemma {:induction false} DeepKeysAreFound(levels: Levels, from: nat, to: nat, k: Key)
    ensures k in DeepKeys(levels, from, to) <==> Lookup(DeepLayers(levels, from, to), k).Some?
    decreases if from < to then to - from else 0
  {
    if from < to {
      DeepKeysAreFound(levels, from + 1, to, k);
      assert DeepLayers(levels, from, to)[1..] == DeepLayers(levels, from + 1, to);
    }
  }

  // ---------- which versions a segment stores ----------

  lemma StoredAppend(a: seq<Layer>, b: seq<Layer>, e: Entry)
    ensures Stored(a + b, e) <==> Stored(a, e) || Stored(b, e)
  {
    if Stored(a, e) {
      var i :| 0 <= i < |a| && e.key in a[i] && a[i][e.key] == e;
      assert (a + b)[i] == a[i];
    }
    if Stored(b, e) {
      var i :| 0 <= i < |b| && e.key in b[i] && b[i][e.key] == e;
      assert (a + b)[|a| + i] == b[i];
    }
  }

  lemma StoredInList(es: seq<Entry>, e: Entry)
    requires Sorted(es)
    ensures Stored([ToMap(es)], e) <==> e in es
  {
    if e in es {
      FindUnique(es, e);
      assert [ToMap(es)][0][e.key] == e;
    }
  }

  lemma {:induction false} StoredInTables(ts: seq<Table>, e: Entry)
    requires forall i :: 0 <= i < |ts| ==> TableOk(ts[i])
    ensures Stored(NewestTables(ts), e) <==> e in LevelEntries(ts)
    decreases |ts|
  {
    if ts != [] {
      var n := |ts| - 1;
      StoredInTables(ts[..n], e);
      assert ts == ts[..n] + [ts[n]];
      LevelEntriesAppend(ts[..n], [ts[n]]);
      FlattenSnoc([], ts[n].entries);
      assert EntryLists([ts[n]]) == [] + [ts[n].entries];
      NewestTablesAppend(ts[..n], [ts[n]]);
      StoredAppend(NewestTables([ts[n]]), NewestTables(ts[..n]), e);
      StoredInList(ts[n].entries, e);
      assert NewestTables([ts[n]]) == [ToMap(ts[n].entries)];
    }
  }

  // ---------- what a compaction puts in the place of what it read ----------

  /** The layers a compaction reads, as they stand in the stack. */
  function JobInput(j: Job): seq<Layer> {
    (if j.level == 0 then NewestTables(j.upper) else [LevelLayer(j.upper)]) + [LevelLayer(j.lower)]
  }

  /** The layers it leaves behind, given its output. */
  function JobOutput(j: Job, out: Layer): seq<Layer> {
    (if j.level == 0 then [] else [map[]]) + [out]
  }

  ghost predicate JobTablesOk(j: Job) {
    && (forall i :: 0 <= i < |j.upper| ==> TableOk(j.upper[i]))
    && (j.level > 0 ==> DeepLevelOk(j.upper))
    && DeepLevelOk(j.lower)
  }

  lemma JobReadsItsInput(j: Job, e: Entry)
    requires JobTablesOk(j)
    ensures e in LevelEntries(j.upper + j.lower) <==> Stored(JobInput(j), e)
  {
    LevelEntriesAppend(j.upper, j.lower);
    if j.level == 0 {
      StoredInTables(j.upper, e);
      StoredAppend(NewestTables(j.upper), [LevelLayer(j.lower)], e);
    } else {
      StoredInList(LevelEntries(j.upper), e);
      StoredAppend([LevelLayer(j.upper)], [LevelLayer(j.lower)], e);
    }
    StoredInList(LevelEntries(j.lower), e);
  }

  function MergedLayer(j: Job, keep: set<Key>): Layer {
    DropTombstones(HighestPerKey(LevelEntries(j.upper + j.lower)), keep)
  }

  /** The merge output: sorted, and standing for the highest versions of what the compaction read. */
  lemma MergeOutputMeaning(j: Job, keep: set<Key>)
    requires JobTablesOk(j) && Ordered(JobInput(j))
    ensures Sorted(MergeTables(j.upper, j.lower, keep))
    ensures ToMap(MergeTables(j.upper, j.lower, keep)) == MergedLayer(j, keep)
    ensures forall k :: (k in MergedLayer(j, keep) <==>
      Lookup(JobInput(j), k).Some? && (Visible(JobInput(j), k).Some? || k in keep))
    ensures forall k :: k in MergedLayer(j, keep) ==> Lookup(JobInput(j), k) == Some(MergedLayer(j, keep)[k])
  {
    var es := LevelEntries(j.upper + j.lower);
    forall e ensures e in es <==> Stored(JobInput(j), e) { JobReadsItsInput(j, e); }
    MergeAgreesWithLookup(JobInput(j), es);
    SortedEntriesCorrect(MergedLayer(j, keep));
  }

  /** A tombstone stays in the output only if its key is to be kept. */
  lemma OutputTombstones(j: Job, keep: set<Key>, e: Entry)
    requires e in MergeTables(j.upper, j.lower, keep) && e.value == None
    ensures e.key in keep
  {
    hide HighestPerKey, LevelEntries, SortedEntries, ToMap, Sorted;
    var m := DropTombstones(HighestPerKey(LevelEntries(j.upper + j.lower)), keep);
    HighestPerKeyCorrect(LevelEntries(j.upper + j.lower));
    SortedEntriesCorrect(m);
    SortedMembers(SortedEntries(m), m);
  }

  lemma DrawnIsOrdered(j: Job, keep: set<Key>)
    requires JobTablesOk(j) && Ordered(JobInput(j))
    ensures Ordered(JobOutput(j, MergedLayer(j, keep)))
  {
    hide HighestPerKey, LevelEntries, DropTombstones, MergeTables, JobTablesOk;
    MergeOutputMeaning(j, keep);
    var out := MergedLayer(j, keep);
    forall k | k in out ensures out[k].key == k { LookupIsHighest(JobInput(j), k); }
  }

  lemma JobOutputIsDrawn(j: Job, keep: set<Key>)
    requires JobTablesOk(j) && Ordered(JobInput(j))
    ensures Drawn(JobOutput(j, MergedLayer(j, keep)), JobInput(j))
    ensures Ordered(JobOutput(j, MergedLayer(j, keep)))
    ensures forall k :: (Lookup(JobOutput(j, MergedLayer(j, keep)), k)
      == if k in MergedLayer(j, keep) then Some(MergedLayer(j, keep)[k]) else None)
  {
    hide HighestPerKey, LevelEntries, DropTombstones, MergeTables, JobTablesOk, Ordered;
    MergeOutputMeaning(j, keep);
    DrawnIsOrdered(j, keep);
    var out := MergedLayer(j, keep);
    var news := JobOutput(j, out);
    assert news[|news| - 1] == out;
    forall k ensures Lookup(news, k) == if k in out then Some(out[k]) else None {
      LookupAppend(news[..|news| - 1], [out], k);
      assert news == news[..|news| - 1] + [out];
    }
  }

  /** A tombstone whose key no deeper level knows may go: nothing reappears. */
  lemma JobDropsOnlyDeadKeys(j: Job, keep: set<Key>, down: seq<Layer>)
    requires JobTablesOk(j) && Ordered(JobInput(j))
    requires forall k :: Lookup(down, k).Some? ==> k in keep
    ensures DropsOnlyDeadKeys(JobOutput(j, MergedLayer(j, keep)), JobInput(j), down)
  {
    JobOutputIsDrawn(j, keep);
    MergeOutputMeaning(j, keep);
    var news := JobOutput(j, MergedLayer(j, keep));
    forall k ensures Lookup(news, k) == Lookup(JobInput(j), k)
      || (Lookup(news, k) == None && Visible(JobInput(j), k) == None && Lookup(down, k) == None)
    {
    }
  }

  // ---------- where a compaction sits in the stack ----------

  /** The layers of the disk above and below what a compaction reads. */
  function Above(levels: Levels, j: Job): seq<Layer>
    requires |j.upper| <= |TablesAt(levels, j.level)|
  {
    if j.level == 0 then NewestTables(TablesAt(levels, 0)[|j.upper|..])
    else NewestTables(TablesAt(levels, 0)) + DeepLayers(levels, 1, j.level)
  }

  function Under(cfg: Config, levels: Levels, j: Job): seq<Layer> {
    DeepLayers(levels, j.level + 2, cfg.maxLevels)
  }

  lemma DeepFromJob(cfg: Config, levels: Levels, j: Job)
    requires JobFits(cfg, levels, j)
    ensures DeepLayers(levels, j.level + 1, cfg.maxLevels) == [LevelLayer(j.lower)] + Under(cfg, levels, j)
    ensures j.level == 0 || DeepLayers(levels, 1, cfg.maxLevels) ==
      DeepLayers(levels, 1, j.level) + [LevelLayer(j.upper)] + DeepLayers(levels, j.level + 1, cfg.maxLevels)
  {
    if j.level > 0 {
      DeepSplit(levels, 1, j.level, cfg.maxLevels);
    }
  }

  lemma DiskAroundJob(cfg: Config, levels: Levels, j: Job)
    requires JobFits(cfg, levels, j)
    ensures Disk(levels, cfg.maxLevels) == Above(levels, j) + JobInput(j) + Under(cfg, levels, j)
  {
    hide LevelLayer, NewestTables, DeepLayers;
    DeepFromJob(cfg, levels, j);
    var l0, u, low := TablesAt(levels, 0), Under(cfg, levels, j), LevelLayer(j.lower);
    if j.level == 0 {
      var newer := l0[|j.upper|..];
      assert l0 == j.upper + newer;
      NewestTablesAppend(j.upper, newer);
      Regroup3(NewestTables(newer), NewestTables(j.upper), [low], u);
    } else {
      Regroup(NewestTables(l0) + DeepLayers(levels, 1, j.level), LevelLayer(j.upper), low, u);
      Regroup3(NewestTables(l0), DeepLayers(levels, 1, j.level), [LevelLayer(j.upper)], [low] + u);
    }
  }

  lemma Regroup3(a: seq<Layer>, b: seq<Layer>, c: seq<Layer>, d: seq<Layer>)
    ensures a + b + (c + d) == a + (b + c) + d == a + (b + c + d)
  {
  }

  /** The levels after `DoInstall`. */
  function Installed(levels: Levels, j: Job, merged: seq<Table>): Levels
    requires |j.upper| <= |TablesAt(levels, j.level)|
  {
    levels[j.level := TablesAt(levels, j.level)[|j.upper|..]][j.level + 1 := merged]
  }

  lemma InstalledFits(cfg: Config, levels: Levels, j: Job, merged: seq<Table>)
    requires JobFits(cfg, levels, j)
    ensures j.level == 0 ==> TablesAt(Installed(levels, j, merged), 0) == TablesAt(levels, 0)[|j.upper|..]
    ensures j.level > 0 ==> JobFits(cfg, Installed(levels, j, merged), j.(upper := [], lower := merged))
    ensures j.level > 0 ==> TablesAt(Installed(levels, j, merged), 0) == TablesAt(levels, 0)
    ensures DeepLayers(Installed(levels, j, merged), 1, j.level) == DeepLayers(levels, 1, j.level)
    ensures Under(cfg, Installed(levels, j, merged), j) == Under(cfg, levels, j)
    ensures DeepLayers(Installed(levels, j, merged), j.level + 1, cfg.maxLevels)
      == [LevelLayer(merged)] + Under(cfg, levels, j)
  {
    var after := Installed(levels, j, merged);
    DeepSame(levels, after, 1, j.level);
    DeepSame(levels, after, j.level + 2, cfg.maxLevels);
    assert TablesAt(after, j.level + 1) == merged;
  }

  lemma DeepAfterInstall(cfg: Config, levels: Levels, j: Job, merged: seq<Table>)
    requires JobFits(cfg, levels, j) && j.level > 0
    ensures DeepLayers(Installed(levels, j, merged), 1, cfg.maxLevels)
      == DeepLayers(levels, 1, j.level) + ([map[], LevelLayer(merged)] + Under(cfg, levels, j))
  {
    hide LevelLayer;
    var after, a, u := Installed(levels, j, merged), DeepLayers(levels, 1, j.level), Under(cfg, levels, j);
    assert DeepLayers(after, 1, cfg.maxLevels) == a + [LevelLayer([])] + ([LevelLayer(merged)] + u) by {
      InstalledFits(cfg, levels, j, merged);
      DeepFromJob(cfg, after, j.(upper := [], lower := merged));
    }
    EmptyLevel();
    Regroup(a, map[], LevelLayer(merged), u);
  }

  lemma Regroup(a: seq<Layer>, x: Layer, y: Layer, b: seq<Layer>)
    ensures a + [x] + ([y] + b) == a + ([x, y] + b)
  {
  }

  lemma EmptyLevel()
    ensures LevelLayer([]) == map[]
  {
  }

  lemma DiskAfterInstall(cfg: Config, levels: Levels, j: Job, merged: seq<Table>)
    requires JobFits(cfg, levels, j)
    ensures Disk(Installed(levels, j, merged), cfg.maxLevels)
      == Above(levels, j) + JobOutput(j, LevelLayer(merged)) + Under(cfg, levels, j)
  {
    hide LevelLayer;
    if j.level > 0 {
      DeepAfterInstall(cfg, levels, j, merged);
      assert JobOutput(j, LevelLayer(merged)) == [map[], LevelLayer(merged)];
    } else {
      InstalledFits(cfg, levels, j, merged);
      assert JobOutput(j, LevelLayer(merged)) == [LevelLayer(merged)];
    }
    assert TablesAt(Installed(levels, j, merged), 0)
      == if j.level == 0 then TablesAt(levels, 0)[|j.upper|..] else TablesAt(levels, 0);
  }

  // ---------- writing ----------

  lemma LaterClock(cfg: Config, levels: Levels, clock: nat, later: nat)
    requires LevelsOk(cfg, levels, clock) && clock <= later
    ensures LevelsOk(cfg, levels, later)
    ensures forall j :: JobOk(cfg, levels, clock, j) ==> JobOk(cfg, levels, later, j)
  {
    forall l: nat ensures InCreationOrder(TablesAt(levels, l), later) {
      assert InCreationOrder(TablesAt(levels, l), clock);
    }
  }

  lemma WriteChangesOneKey(cfg: Config, s: State, key: Key, value: Option<Value>, k: Key)
    ensures Get(cfg, DoWrite(s, key, value), k) == if k == key then value else Get(cfg, s, k)
  {
    var rest := NewestMems(s.imm) + Disk(s.levels, cfg.maxLevels);
    LookupCons(s.mem.data, rest, k);
    LookupCons(DoWrite(s, key, value).mem.data, rest, k);
  }

  lemma WriteKeepsInv(cfg: Config, s: State, key: Key, value: Option<Value>)
    requires Inv(cfg, s)
    ensures Inv(cfg, DoWrite(s, key, value))
  {
    InsertKeepsAccounts(s.mem, key, value, s.clock);
    LaterClock(cfg, s.levels, s.clock, s.clock + 1);
    var e := Entry(key, value, s.clock, s.mem.next);
    WriteTopLayer(s.mem.data, NewestMems(Unflushed(s)) + Disk(s.levels, cfg.maxLevels), e);
    if s.published {
      WriteTopLayer(s.mem.data, NewestMems(s.imm), e);
    }
  }

  // ---------- rotating ----------

  lemma RotatePushesLayer(cfg: Config, s: State, start: nat)
    requires s.published ==> s.imm != []
    ensures Core(cfg, RotateFrom(cfg, s, start)) == [map[]] + Core(cfg, s)
    ensures Probe(cfg, RotateFrom(cfg, s, start)) == [map[]] + Probe(cfg, s)
    ensures Memory(RotateFrom(cfg, s, start)) == [map[]] + Memory(s)
  {
    var full := s.mem.(immutable := true);
    NewestMemsAppend(Unflushed(s), [full]);
    NewestMemsAppend(s.imm, [full]);
    assert Unflushed(RotateFrom(cfg, s, start)) == Unflushed(s) + [full];
    assert NewestMems([full]) == [s.mem.data];
  }

  /** Rotation with any starting number above all stored ones. */
  lemma RotateFromKeepsInv(cfg: Config, s: State, start: nat)
    requires Inv(cfg, s) && Below(Probe(cfg, s), start)
    ensures Inv(cfg, RotateFrom(cfg, s, start))
    ensures forall k :: Get(cfg, RotateFrom(cfg, s, start), k) == Get(cfg, s, k)
  {
    RotateKeepsMems(cfg, s, start);
    hide Disk, LevelsOk, CompactionOk, MemsOk, Ordered, Below;
    RotatePushesLayer(cfg, s, start);
    ProbeBelow(cfg, s, start);
    PushEmptyLayer(Core(cfg, s));
    PushEmptyLayer(Probe(cfg, s));
    PushEmptyLayer(Memory(s));
  }

  lemma RotateKeepsMems(cfg: Config, s: State, start: nat)
    requires MemsOk(s)
    ensures MemsOk(RotateFrom(cfg, s, start))
  {
    assert Accounted(EmptyMem(cfg.memtableSizeThreshold, start));
  }

  /** The probe stack is the core together with the memory. */
  lemma ProbeBelow(cfg: Config, s: State, bound: nat)
    requires s.published ==> s.imm != []
    ensures Below(Probe(cfg, s), bound) <==> Below(Core(cfg, s), bound) && Below(Memory(s), bound)
  {
    var top, disk := [s.mem.data] + NewestMems(Unflushed(s)), Disk(s.levels, cfg.maxLevels);
    assert Probe(cfg, s) == Memory(s) + disk && Core(cfg, s) == top + disk;
    BelowAppend(Memory(s), disk, bound);
    BelowAppend(top, disk, bound);
    if s.published {
      OldestMem(s.imm);
      assert Memory(s) == top + [s.imm[0].data];
      BelowAppend(top, [s.imm[0].data], bound);
    }
  }

  lemma BelowAppend(a: seq<Layer>, b: seq<Layer>, bound: nat)
    ensures Below(a + b, bound) <==> Below(a, bound) && Below(b, bound)
  {
    assert forall i :: 0 <= i < |a| ==> (a + b)[i] == a[i];
    assert forall i :: 0 <= i < |b| ==> (a + b)[|a| + i] == b[i];
    assert forall i :: |a| <= i < |a + b| ==> (a + b)[i] == b[i - |a|];
  }

  lemma MemoryOk(cfg: Config, s: State)
    requires StackOk(cfg, s) && FlushOk(cfg, s)
    ensures Ordered(Memory(s)) && Below(Memory(s), s.mem.next)
    ensures Below(Probe(cfg, s), s.mem.next)
  {
    if !s.published {
      assert [] + Memory(s) + Disk(s.levels, cfg.maxLevels) == Core(cfg, s) == Probe(cfg, s);
      OrderedSegment([], Memory(s), Disk(s.levels, cfg.maxLevels));
    }
    BelowAppend(Memory(s), Disk(s.levels, cfg.maxLevels), s.mem.next);
    assert Probe(cfg, s) == Memory(s) + Disk(s.levels, cfg.maxLevels);
    ProbeBelow(cfg, s, s.mem.next);
  }

  lemma BelowMore(ls: seq<Layer>, a: nat, b: nat)
    requires Below(ls, a) && a <= b
    ensures Below(ls, b)
  {
    forall i | 0 <= i < |ls| ensures LayerBelow(ls[i], b) { assert LayerBelow(ls[i], a); }
  }

  lemma RotateKeepsInv(cfg: Config, s: State)
    requires Inv(cfg, s)
    ensures Inv(cfg, DoRotate(cfg, s))
    ensures forall k :: Get(cfg, DoRotate(cfg, s), k) == Get(cfg, s, k)
  {
    MemoryOk(cfg, s);
    BelowMore(Probe(cfg, s), s.mem.next, Max(s.counter, s.mem.next));
    RotateFromKeepsInv(cfg, s, Max(s.counter, s.mem.next));
  }

  // ---------- flushing ----------

  lemma OldestMem(ms: seq<Mem>)
    requires ms != []
    ensures NewestMems(ms) == NewestMems(ms[1..]) + [ms[0].data]
  {
    assert ms == [ms[0]] + ms[1..];
    NewestMemsAppend([ms[0]], ms[1..]);
  }

  /** A published memtable is redundant: probing it changes no answer. */
  lemma ProbeAgreesWithCore(cfg: Config, s: State, k: Key)
    requires FlushOk(cfg, s)
    ensures Get(cfg, s, k) == Visible(Core(cfg, s), k)
  {
    if s.published {
      var top, disk := [s.mem.data] + NewestMems(s.imm[1..]), Disk(s.levels, cfg.maxLevels);
      OldestMem(s.imm);
      assert Core(cfg, s) == top + disk;
      assert Probe(cfg, s) == top + ([s.imm[0].data] + disk);
      LookupAppend(top, disk, k);
      LookupAppend(top, [s.imm[0].data] + disk, k);
      LookupCons(s.imm[0].data, disk, k);
    }
  }

  /**
    First found is highest, in every state: also while a published memtable and its table are both probed,
    and even if a compaction has already taken that table in and dropped some of its tombstones.
   */
  lemma ProbeIsFirstHighest(cfg: Config, s: State)
    requires StackOk(cfg, s) && FlushOk(cfg, s)
    ensures FirstIsHighest(Probe(cfg, s))
  {
    MemoryOk(cfg, s);
    ProbeIsWellKeyed(cfg, s);
    hide Ordered, Below, Disk;
    forall e | Stored(Probe(cfg, s), e)
      ensures Lookup(Probe(cfg, s), e.key).Some?
      ensures e == Lookup(Probe(cfg, s), e.key).value || e.sequence < Lookup(Probe(cfg, s), e.key).value.sequence
    {
      var disk := Disk(s.levels, cfg.maxLevels);
      LookupIsHighest(Core(cfg, s), e.key);
      LookupIsHighest(Memory(s), e.key);
      if s.published {
        FoundInPublished(cfg, s, e);
      } else {
        assert Core(cfg, s) == Probe(cfg, s);
      }
    }
  }

  lemma ProbeIsWellKeyed(cfg: Config, s: State)
    requires StackOk(cfg, s) && Ordered(Memory(s))
    ensures forall i :: 0 <= i < |Probe(cfg, s)| ==> WellKeyed(Probe(cfg, s)[i])
  {
    hide Disk, Newer, Below;
    var n, c := |Memory(s)|, Core(cfg, s);
    assert forall i :: 0 <= i < n ==> Probe(cfg, s)[i] == Memory(s)[i];
    var d := |Probe(cfg, s)| - |c|;
    assert forall i :: n <= i < |Probe(cfg, s)| ==> Probe(cfg, s)[i] == c[i - d];
  }

  /** While a memtable is published, the search finds what it finds in memory, or else what the core holds. */
  lemma FoundInPublished(cfg: Config, s: State, e: Entry)
    requires s.published && FlushOk(cfg, s) && Stored(Probe(cfg, s), e)
    ensures Stored(Core(cfg, s), e) || Stored(Memory(s), e)
    ensures Lookup(Memory(s), e.key).Some? ==> Lookup(Probe(cfg, s), e.key) == Lookup(Memory(s), e.key)
    ensures Lookup(Core(cfg, s), e.key).Some? ==> Lookup(Probe(cfg, s), e.key) == Lookup(Core(cfg, s), e.key)
  {
    hide Ordered, Below, Disk, Stored;
    var top, m, disk := [s.mem.data] + NewestMems(s.imm[1..]), s.imm[0].data, Disk(s.levels, cfg.maxLevels);
    OldestMem(s.imm);
    assert Memory(s) == top + [m] && Core(cfg, s) == top + disk;
    assert Probe(cfg, s) == (top + [m]) + disk == top + ([m] + disk);
    StoredAppend(top + [m], disk, e);
    StoredAppend(top, disk, e);
    LookupAppend(top, [m], e.key);
    LookupAppend(top, disk, e.key);
    LookupAppend(top, [m] + disk, e.key);
    LookupCons(m, disk, e.key);
    LookupCons(m, [], e.key);
    assert [m] + [] == [m];
  }

  /** A memtable is published, and the disk still holds one of its keys. */
  ghost predicate SharedWithDisk(cfg: Config, s: State) {
    && s.published && s.imm != []
    && exists k :: k in s.imm[0].data && Lookup(Disk(s.levels, cfg.maxLevels), k).Some?
  }

  /** Along the whole probe order the numbers of a key's versions fall strictly, except in exactly that case. */
  lemma ProbeOrderedExactly(cfg: Config, s: State)
    requires StackOk(cfg, s) && FlushOk(cfg, s)
    ensures Ordered(Probe(cfg, s)) <==> !SharedWithDisk(cfg, s)
  {
    if s.published {
      hide Disk;
      var top, m, disk := [s.mem.data] + NewestMems(s.imm[1..]), s.imm[0].data, Disk(s.levels, cfg.maxLevels);
      OldestMem(s.imm);
      assert Memory(s) == top + [m] && Core(cfg, s) == top + disk && Probe(cfg, s) == top + [m] + disk;
      if forall k :: k in m ==> Lookup(disk, k) == None {
        ApartIsOrdered(top, m, disk);
      } else {
        var k :| k in m && Lookup(disk, k) != None;
        SharedIsNotOrdered(top, m, disk, k);
      }
    } else {
      assert Core(cfg, s) == Probe(cfg, s);
    }
  }

  lemma ApartIsOrdered(top: seq<Layer>, m: Layer, disk: seq<Layer>)
    requires Ordered(top + [m]) && Ordered(top + disk) && forall k :: k in m ==> Lookup(disk, k) == None
    ensures Ordered(top + [m] + disk)
  {
    var all: seq<Layer>, up: seq<Layer>, without: seq<Layer>, n := top + [m] + disk, top + [m], top + disk, |top|;
    assert forall i :: 0 <= i <= n ==> all[i] == up[i];
    assert forall i :: n < i < |all| ==> all[i] == without[i - 1] == disk[i - n - 1];
    assert forall i :: 0 <= i < n ==> all[i] == without[i];
    forall i: nat, j: nat | i < j < |all| ensures Newer(all[i], all[j]) {
      if i == n {
        forall k | k in m ensures k !in all[j] {
          var x := LookupWhere(disk, k);
        }
      } else if j <= n {
        assert Newer(up[i], up[j]);
      } else {
        assert Newer(without[if i < n then i else i - 1], without[j - 1]);
      }
    }
  }

  lemma SharedIsNotOrdered(top: seq<Layer>, m: Layer, disk: seq<Layer>, k: Key)
    requires k in m && Lookup(disk, k) == Some(m[k])
    ensures !Ordered(top + [m] + disk)
  {
    var x := LookupWhere(disk, k);
    var all: seq<Layer> := top + [m] + disk;
    assert all[|top|] == m && all[|top| + 1 + x] == disk[x];
    assert !Newer(m, disk[x]);
  }

  lemma FlushedTableOk(cfg: Config, m: Mem, now: nat)
    requires Accounted(m) && m.count > 0
    ensures TableOk(FlushedTable(cfg, m.data, now))
    ensures ToMap(FlushedTable(cfg, m.data, now).entries) == m.data
  {
    SortedEntriesCorrect(m.data);
  }

  lemma NewestTableLevels(cfg: Config, levels: Levels, t: Table)
    requires cfg.Valid() && TableOk(t) && LevelsOk(cfg, levels, t.createdAt)
    ensures LevelsOk(cfg, WithNewest(levels, t), t.createdAt + 1)
  {
    var after := WithNewest(levels, t);
    LaterClock(cfg, levels, t.createdAt, t.createdAt + 1);
    assert InCreationOrder(TablesAt(levels, 0), t.createdAt);
    assert InCreationOrder(TablesAt(after, 0), t.createdAt + 1);
    assert forall l: nat :: l > 0 ==> TablesAt(after, l) == TablesAt(levels, l);
  }

  lemma NewestTableDisk(cfg: Config, levels: Levels, t: Table)
    ensures Disk(WithNewest(levels, t), cfg.maxLevels) == [ToMap(t.entries)] + Disk(levels, cfg.maxLevels)
  {
    hide ToMap, LevelLayer;
    NewestTablesAppend(TablesAt(levels, 0), [t]);
    assert NewestTables([t]) == [ToMap(t.entries)];
    DeepSame(levels, WithNewest(levels, t), 1, cfg.maxLevels);
  }

  lemma AppendFlushLevels(cfg: Config, levels: Levels, m: Mem, now: nat)
    requires cfg.Valid() && Accounted(m) && m.count > 0 && LevelsOk(cfg, levels, now)
    ensures LevelsOk(cfg, AppendFlush(cfg, levels, m, now), now + 1)
    ensures Disk(AppendFlush(cfg, levels, m, now), cfg.maxLevels) == [m.data] + Disk(levels, cfg.maxLevels)
  {
    hide Sorted, ToMap, SortedEntries, Flatten, EntryLists, DeepLayers;
    var t := FlushedTable(cfg, m.data, now);
    FlushedTableOk(cfg, m, now);
    NewestTableLevels(cfg, levels, t);
    NewestTableDisk(cfg, levels, t);
  }

  lemma AppendFlushKeepsJob(cfg: Config, levels: Levels, m: Mem, clock: nat, now: nat, j: Job)
    requires JobOk(cfg, levels, clock, j)
    ensures JobOk(cfg, AppendFlush(cfg, levels, m, now), clock, j)
  {
    var after := AppendFlush(cfg, levels, m, now);
    DeepSame(levels, after, j.level + 2, cfg.maxLevels);
  }

  lemma DropEmptyLayer(up: seq<Layer>, down: seq<Layer>, bound: nat)
    requires Ordered(up + [map[]] + down) && Below(up + [map[]] + down, bound)
    ensures Ordered(up + down) && Below(up + down, bound)
    ensures forall k :: Lookup(up + down, k) == Lookup(up + [map[]] + down, k)
  {
    ReplaceKeepsOrder(up, [map[]], [], down);
    ReplaceKeepsBound(up, [map[]], [], down, bound);
    assert up + [] + down == up + down;
    forall k ensures Lookup(up + down, k) == Lookup(up + [map[]] + down, k) {
      LookupAppend(up, down, k);
      LookupAppend(up + [map[]], down, k);
      LookupAppend(up, [map[]], k);
    }
  }

  lemma PublishKeepsStack(cfg: Config, s: State)
    requires Inv(cfg, s) && s.imm != [] && !s.published
    ensures StackOk(cfg, DoPublish(cfg, s))
    ensures OnDisk(s.imm[0].data, Disk(DoPublish(cfg, s).levels, cfg.maxLevels))
    ensures forall k :: Visible(Core(cfg, DoPublish(cfg, s)), k) == Visible(Core(cfg, s), k)
  {
    hide Sorted, ToMap, SortedEntries, Flatten, EntryLists, DeepLayers, NewestTables, CompactionOk;
    var s', m, disk := DoPublish(cfg, s), s.imm[0], Disk(s.levels, cfg.maxLevels);
    var up := [s.mem.data] + NewestMems(s.imm[1..]);
    OldestMem(s.imm);
    assert Core(cfg, s) == up + [m.data] + disk;
    if m.count == 0 {
      assert m.data == map[];
      assert Core(cfg, s') == up + disk;
      DropEmptyLayer(up, disk, s.mem.next);
    } else {
      AppendFlushLevels(cfg, s.levels, m, s.clock);
      assert Core(cfg, s') == up + [m.data] + disk;
      forall k | k in m.data ensures Lookup(Disk(s'.levels, cfg.maxLevels), k) == Some(m.data[k]) {
        LookupCons(m.data, disk, k);
      }
    }
  }

  lemma PublishKeepsFlush(cfg: Config, s: State)
    requires Inv(cfg, s) && s.imm != [] && !s.published
    ensures FlushOk(cfg, DoPublish(cfg, s))
  {
    PublishKeepsStack(cfg, s);
    MemoryOk(cfg, s);
    hide AppendFlush, Disk, Ordered, Below;
    assert Memory(DoPublish(cfg, s)) == Memory(s);
  }

  lemma PublishKeepsAnswers(cfg: Config, s: State)
    requires Inv(cfg, s) && s.imm != [] && !s.published
    ensures forall k :: Get(cfg, DoPublish(cfg, s), k) == Get(cfg, s, k)
  {
    hide Sorted, Ordered, Below, Get, Core, Disk, AppendFlush;
    PublishKeepsStack(cfg, s);
    PublishKeepsFlush(cfg, s);
    forall k ensures Get(cfg, DoPublish(cfg, s), k) == Get(cfg, s, k) {
      ProbeAgreesWithCore(cfg, s, k);
      ProbeAgreesWithCore(cfg, DoPublish(cfg, s), k);
    }
  }

  /** The disk and the compaction under way stay sound as well. */
  lemma PublishKeepsInv(cfg: Config, s: State)
    requires Inv(cfg, s) && s.imm != [] && !s.published
    ensures Inv(cfg, DoPublish(cfg, s))
    ensures forall k :: Get(cfg, DoPublish(cfg, s), k) == Get(cfg, s, k)
  {
    hide Sorted, ToMap, SortedEntries, Ordered, Below, Get, Core, Disk, DeepLevelOk, TableOk, InCreationOrder;
    PublishKeepsStack(cfg, s);
    PublishKeepsFlush(cfg, s);
    PublishKeepsAnswers(cfg, s);
    if s.imm[0].count > 0 {
      AppendFlushLevels(cfg, s.levels, s.imm[0], s.clock);
      LaterClock(cfg, s.levels, s.clock, s.clock + 1);
    }
    if s.job.Some? {
      AppendFlushKeepsJob(cfg, s.levels, s.imm[0], DoPublish(cfg, s).clock, s.clock, s.job.value);
    }
  }

  lemma RetireKeepsInv(cfg: Config, s: State)
    requires Inv(cfg, s) && s.imm != [] && s.published
    ensures Inv(cfg, DoRetire(s))
    ensures forall k :: Get(cfg, DoRetire(s), k) == Get(cfg, s, k)
  {
    assert Core(cfg, DoRetire(s)) == Core(cfg, s);
    forall k ensures Get(cfg, DoRetire(s), k) == Get(cfg, s, k) {
      ProbeAgreesWithCore(cfg, s, k);
    }
  }

  // ---------- compacting ----------

  lemma PieceSorted(pieces: seq<seq<Entry>>, i: nat)
    requires i < |pieces| && Sorted(Flatten(pieces))
    ensures Sorted(pieces[i])
  {
    hide Less, Flatten;
    FlattenSplit(pieces, i);
    var all, n := Flatten(pieces), |Flatten(pieces[..i])|;
    assert forall x :: 0 <= x < |pieces[i]| ==> pieces[i][x] == all[n + x];
  }

  /** Cutting the merged entries into tables gives a well-formed level with exactly those entries. */
  lemma CreateTablesOk(cfg: Config, level: nat, es: seq<Entry>, now: nat)
    requires Sorted(es)
    ensures DeepLevelOk(CreateTables(cfg, level, es, now))
    ensures LevelEntries(CreateTables(cfg, level, es, now)) == es
    ensures InCreationOrder(CreateTables(cfg, level, es, now), now + |CreateTables(cfg, level, es, now)|)
  {
    var ts := CreateTables(cfg, level, es, now);
    var pieces := Greedy(es, EntrySize, TargetSize(cfg, level));
    GreedyLegal(es, EntrySize, TargetSize(cfg, level));
    assert EntryLists(ts) == pieces;
    forall i | 0 <= i < |ts| ensures TableOk(ts[i]) {
      assert LegalPiece(pieces[i], EntrySize, TargetSize(cfg, level));
      PieceSorted(pieces, i);
    }
  }

  /**
    Tables cut from the entries: in order and without loss, created one tick apart, none empty, none beyond the
    limit unless it holds a single entry, and none with room for the entry that begins the next one.
   */
  ghost predicate CutTo(cfg: Config, ts: seq<Table>, es: seq<Entry>, now: nat, limit: nat) {
    && LevelEntries(ts) == es
    && (forall i :: 0 <= i < |ts| ==> ts[i].createdAt == now + i && ts[i].dataSize == cfg.dataSize(ts[i].entries))
    && (forall i :: 0 <= i < |ts| ==> LegalPiece(ts[i].entries, EntrySize, limit))
    && (forall i, j :: 0 <= i && i + 1 == j < |ts| ==> Overflows(ts[i].entries, ts[j].entries, EntrySize, limit))
  }

  /** Level 0 tables are cut to the configured size, deeper ones to twice that size. */
  lemma CreateTablesCut(cfg: Config, level: nat, es: seq<Entry>, now: nat)
    ensures CutTo(cfg, CreateTables(cfg, level, es, now), es, now,
      if level == 0 then cfg.l0SstableSize else cfg.l0SstableSize + cfg.l0SstableSize)
  {
    hide Greedy, LegalPiece, Overflows;
    var ts := CreateTables(cfg, level, es, now);
    var pieces := Greedy(es, EntrySize, TargetSize(cfg, level));
    GreedyLegal(es, EntrySize, TargetSize(cfg, level));
    GreedyFull(es, EntrySize, TargetSize(cfg, level));
    assert EntryLists(ts) == pieces;
  }

  lemma JobTablesFromInv(cfg: Config, s: State, j: Job)
    requires Inv(cfg, s) && JobFits(cfg, s.levels, j)
    ensures JobTablesOk(j)
    ensures Ordered(JobInput(j))
  {
    hide Sorted, ToMap, SortedEntries, Flatten, EntryLists, DeepLayers, NewestTables;
    DiskAroundJob(cfg, s.levels, j);
    var up := [s.mem.data] + NewestMems(Unflushed(s)) + Above(s.levels, j);
    assert Core(cfg, s) == up + JobInput(j) + Under(cfg, s.levels, j);
    OrderedSegment(up, JobInput(j), Under(cfg, s.levels, j));
    assert DeepLevelOk(j.lower);
    if j.level > 0 {
      assert DeepLevelOk(j.upper);
    }
  }

  lemma SnapshotKeepsInv(cfg: Config, s: State, l: nat)
    requires Inv(cfg, s) && Enabled(cfg, s, Snapshot(l))
    ensures Inv(cfg, DoSnapshot(s, l))
    ensures forall k :: Get(cfg, DoSnapshot(s, l), k) == Get(cfg, s, k)
  {
  }

  lemma MergedTablesOk(cfg: Config, levels: Levels, j: Job, clock: nat)
    requires JobFits(cfg, levels, j) && JobTablesOk(j) && Ordered(JobInput(j))
    ensures var ts := CreateTables(cfg, j.level + 1, MergeOutput(cfg, levels, j), clock);
      JobOk(cfg, levels, clock + |ts|, j.(merged := Some(ts)))
  {
    hide Sorted, ToMap, SortedEntries, DropTombstones, HighestPerKey, Greedy, Flatten, EntryLists;
    MergeOutputMeaning(j, DeepKeys(levels, j.level + 2, cfg.maxLevels));
    CreateTablesOk(cfg, j.level + 1, MergeOutput(cfg, levels, j), clock);
  }

  lemma MergeKeepsInv(cfg: Config, s: State)
    requires Inv(cfg, s) && Enabled(cfg, s, Merge)
    ensures Inv(cfg, DoMerge(cfg, s))
    ensures forall k :: Get(cfg, DoMerge(cfg, s), k) == Get(cfg, s, k)
  {
    var j, s' := s.job.value, DoMerge(cfg, s);
    JobTablesFromInv(cfg, s, j);
    MergedTablesOk(cfg, s.levels, j, s.clock);
    LaterClock(cfg, s.levels, s.clock, s'.clock);
    assert s'.levels == s.levels && s'.mem == s.mem && s'.imm == s.imm && s'.published == s.published;
    assert Core(cfg, s') == Core(cfg, s);
    assert Probe(cfg, s') == Probe(cfg, s);
  }

  /** The shape of the levels after a compaction: only the two levels it joined changed. */
  lemma InstallKeepsLevels(cfg: Config, levels: Levels, clock: nat, j: Job, merged: seq<Table>)
    requires cfg.Valid() && LevelsOk(cfg, levels, clock) && JobFits(cfg, levels, j)
    requires DeepLevelOk(merged) && InCreationOrder(merged, clock)
    ensures LevelsOk(cfg, Installed(levels, j, merged), clock)
  {
    hide Sorted, ToMap, Flatten, EntryLists;
    var after, now := Installed(levels, j, merged), TablesAt(levels, j.level);
    assert InCreationOrder(now, clock);
    assert forall l: nat :: l != j.level && l != j.level + 1 ==> TablesAt(after, l) == TablesAt(levels, l);
    assert TablesAt(after, j.level + 1) == merged;
    assert InCreationOrder(now[|j.upper|..], clock);
    if j.level > 0 {
      assert TablesAt(after, j.level) == [];
      EmptyLevelOk();
    }
  }

  lemma EmptyLevelOk()
    ensures DeepLevelOk([])
  {
  }

  /** What the installed layers say, and what they no longer need to say. */
  lemma InstallReplaces(cfg: Config, s: State)
    requires Inv(cfg, s) && Enabled(cfg, s, Install)
    ensures var j := s.job.value; var news := JobOutput(j, LevelLayer(j.merged.value));
      && JobFits(cfg, s.levels, j)
      && Ordered(news) && Drawn(news, JobInput(j))
      && DropsOnlyDeadKeys(news, JobInput(j), Under(cfg, s.levels, j))
  {
    hide Sorted, SortedEntries, Flatten, EntryLists, HighestPerKey, DropTombstones, DeepLayers, Ordered, Below;
    var j := s.job.value;
    JobTablesFromInv(cfg, s, j);
    MergedLayerReplaces(cfg, s.levels, j);
    assert LevelLayer(j.merged.value) == ToMap(MergeOutput(cfg, s.levels, j));
  }

  lemma MergedLayerReplaces(cfg: Config, levels: Levels, j: Job)
    requires JobFits(cfg, levels, j) && JobTablesOk(j) && Ordered(JobInput(j))
    ensures var news := JobOutput(j, ToMap(MergeOutput(cfg, levels, j)));
      Ordered(news) && Drawn(news, JobInput(j)) && DropsOnlyDeadKeys(news, JobInput(j), Under(cfg, levels, j))
  {
    hide Sorted, SortedEntries, Flatten, EntryLists, HighestPerKey, DropTombstones, DeepLayers, Ordered, Below;
    var keep := DeepKeys(levels, j.level + 2, cfg.maxLevels);
    MergeOutputMeaning(j, keep);
    JobOutputIsDrawn(j, keep);
    forall k | Lookup(Under(cfg, levels, j), k).Some? ensures k in keep {
      DeepKeysAreFound(levels, j.level + 2, cfg.maxLevels, k);
    }
    JobDropsOnlyDeadKeys(j, keep, Under(cfg, levels, j));
  }

  /** The stack before and after, cut around the compaction. */
  lemma InstallAroundStack(cfg: Config, s: State, mems: seq<Layer>)
    requires s.job.Some? && s.job.value.merged.Some? && JobFits(cfg, s.levels, s.job.value)
    ensures var j := s.job.value; var up, down := mems + Above(s.levels, j), Under(cfg, s.levels, j);
      && mems + Disk(s.levels, cfg.maxLevels) == up + JobInput(j) + down
      && mems + Disk(DoInstall(s).levels, cfg.maxLevels) == up + JobOutput(j, LevelLayer(j.merged.value)) + down
  {
    hide Sorted, ToMap, Flatten, EntryLists, DeepLayers, NewestTables;
    var j := s.job.value;
    DiskAroundJob(cfg, s.levels, j);
    DiskAfterInstall(cfg, s.levels, j, j.merged.value);
    assert DoInstall(s).levels == Installed(s.levels, j, j.merged.value);
  }

  lemma InstallKeepsVisible(cfg: Config, s: State, mems: seq<Layer>, k: Key)
    requires Inv(cfg, s) && Enabled(cfg, s, Install)
    ensures Visible(mems + Disk(DoInstall(s).levels, cfg.maxLevels), k)
      == Visible(mems + Disk(s.levels, cfg.maxLevels), k)
    ensures Lookup(mems + Disk(DoInstall(s).levels, cfg.maxLevels), k) == Lookup(mems + Disk(s.levels, cfg.maxLevels), k)
      || (Lookup(mems + Disk(DoInstall(s).levels, cfg.maxLevels), k) == None
          && Visible(mems + Disk(s.levels, cfg.maxLevels), k) == None)
  {
    hide Sorted, ToMap, Flatten, EntryLists, DeepLayers, NewestTables, Ordered, Below;
    var j := s.job.value;
    InstallReplaces(cfg, s);
    InstallAroundStack(cfg, s, mems);
    ReplaceKeepsVisible(mems + Above(s.levels, j), JobInput(j), JobOutput(j, LevelLayer(j.merged.value)),
      Under(cfg, s.levels, j), k);
  }

  lemma InstallKeepsStack(cfg: Config, s: State)
    requires Inv(cfg, s) && Enabled(cfg, s, Install)
    ensures StackOk(cfg, DoInstall(s))
  {
    hide Sorted, ToMap, Flatten, EntryLists, DeepLayers, NewestTables;
    hide Ordered, Below, Disk, LevelsOk, MemsOk, CompactionOk;
    var j, mems := s.job.value, [s.mem.data] + NewestMems(Unflushed(s));
    InstallReplaces(cfg, s);
    var up, down, news := mems + Above(s.levels, j), Under(cfg, s.levels, j), JobOutput(j, LevelLayer(j.merged.value));
    InstallAroundStack(cfg, s, mems);
    assert Core(cfg, s) == mems + Disk(s.levels, cfg.maxLevels);
    assert Core(cfg, DoInstall(s)) == mems + Disk(DoInstall(s).levels, cfg.maxLevels);
    ReplaceKeepsOrder(up, JobInput(j), news, down);
    ReplaceKeepsBound(up, JobInput(j), news, down, s.mem.next);
  }

  lemma InstallKeepsInv(cfg: Config, s: State)
    requires Inv(cfg, s) && Enabled(cfg, s, Install)
    ensures Inv(cfg, DoInstall(s))
    ensures forall k :: Get(cfg, DoInstall(s), k) == Get(cfg, s, k)
  {
    hide Sorted, Flatten, EntryLists, Ordered, Below, Get, Core, InCreationOrder, TableOk;
    hide Accounted, LevelsOk, StackOk, FlushOk, DeepKeys, MergeOutput;
    var s', j := DoInstall(s), s.job.value;
    InstallKeepsStack(cfg, s);
    InstallKeepsLevels(cfg, s.levels, s.clock, j, j.merged.value);
    assert s'.levels == Installed(s.levels, j, j.merged.value);
    InstallKeepsAnswers(cfg, s);
  }

  lemma InstallKeepsAnswers(cfg: Config, s: State)
    requires Inv(cfg, s) && Enabled(cfg, s, Install)
    ensures forall k :: Get(cfg, DoInstall(s), k) == Get(cfg, s, k)
    ensures FlushOk(cfg, DoInstall(s))
  {
    hide Sorted, ToMap, Flatten, EntryLists, DeepLayers, NewestTables;
    hide Ordered, Below, Disk, LevelsOk, MemsOk, CompactionOk;
    var s', mems := DoInstall(s), [s.mem.data] + NewestMems(s.imm);
    var disk, disk' := Disk(s.levels, cfg.maxLevels), Disk(s'.levels, cfg.maxLevels);
    forall k ensures Get(cfg, s', k) == Get(cfg, s, k)
             ensures Lookup(disk', k) == Lookup(disk, k) || (Lookup(disk', k) == None && Visible(disk, k) == None)
    {
      InstallKeepsVisible(cfg, s, mems, k);
      InstallKeepsVisible(cfg, s, [], k);
      assert Probe(cfg, s) == mems + disk && Probe(cfg, s') == mems + disk';
      assert [] + disk == disk && [] + disk' == disk';
    }
    assert Memory(s') == Memory(s);
  }

  // ---------- any step ----------

  lemma NextKeepsInv(cfg: Config, s: State, step: Step)
    requires Inv(cfg, s) && Enabled(cfg, s, step)
    ensures Inv(cfg, Next(cfg, s, step))
    ensures forall k :: (Get(cfg, Next(cfg, s, step), k)
      == if step.Write? && step.key == k then step.value else Get(cfg, s, k))
  {
    hide Inv, Get, DoWrite, DoRotate, DoPublish, DoRetire, DoSnapshot, DoMerge, DoInstall;
    match step
    case Write(key, value) =>
      WriteKeepsInv(cfg, s, key, value);
      forall k ensures Get(cfg, DoWrite(s, key, value), k) == if k == key then value else Get(cfg, s, k) {
        WriteChangesOneKey(cfg, s, key, value, k);
      }
    case Rotate => RotateKeepsInv(cfg, s);
    case Publish => PublishKeepsInv(cfg, s);
    case Retire => RetireKeepsInv(cfg, s);
    case Snapshot(l) => SnapshotKeepsInv(cfg, s, l);
    case Merge => MergeKeepsInv(cfg, s);
    case Install => InstallKeepsInv(cfg, s);
  }
}
