/**
  Places where the source's literal line differs from what `EngineModel` does, each with the exact
  condition under which the literal line would have been right, or a concrete state in which it is not.
 */
module EngineDefects {
  import opened Basics
  import opened Sorting
  import opened Layers
  import opened MemTables
  import opened Packing
  import opened EngineModel
  import opened EngineProofs
  import opened EngineOps
  import opened Probing
  import opened Reopening
  import opened Scanning

  lemma ProbeParts(cfg: Config, s: State, k: Key)
    ensures Lookup(Probe(cfg, s), k) == if Lookup(Memory(s), k).Some? then Lookup(Memory(s), k)
                                        else Lookup(Disk(s.levels, cfg.maxLevels), k)
  {
    assert Probe(cfg, s) == Memory(s) + Disk(s.levels, cfg.maxLevels);
    LookupAppend(Memory(s), Disk(s.levels, cfg.maxLevels), k);
  }

  // ---------- numbering after a rotation ----------

  /**
    The literal rotation numbers the new memtable from the engine's counter. The state stays sound exactly when
    every stored sequence number is below that counter. A memtable that holds anything holds the number before its
    next one, so for the memtables that the source rotates one comparison decides.
   */
  lemma LiteralRotationExactly(cfg: Config, s: State)
    requires Inv(cfg, s)
    ensures Inv(cfg, RotateFrom(cfg, s, s.counter)) <==> Below(Probe(cfg, s), s.counter)
    ensures s.mem.data != map[] ==> (Inv(cfg, RotateFrom(cfg, s, s.counter)) <==> s.mem.next <= s.counter)
    ensures RotateFrom(cfg, s, s.counter) == DoRotate(cfg, s) <==> s.mem.next <= s.counter
  {
    hide LevelsOk, CompactionOk, Disk, Accounted;
    RotatePushesLayer(cfg, s, s.counter);
    StackCons(map[], Core(cfg, s));
    StackCons(map[], Memory(s));
    ProbeBelow(cfg, s, s.counter);
    MemoryOk(cfg, s);
    InvAccounts(cfg, s);
    if !s.published { assert Core(cfg, s) == Probe(cfg, s); }
    if s.mem.next <= s.counter {
      BelowMore(Probe(cfg, s), s.mem.next, s.counter);
    }
    if Below(Probe(cfg, s), s.counter) {
      RotateFromKeepsInv(cfg, s, s.counter);
      LastIsBelow(s.mem, s.counter) by { assert LayerBelow(Probe(cfg, s)[0], s.counter); }
    }
  }

  lemma LastIsBelow(m: Mem, bound: nat)
    requires Accounted(m) && LayerBelow(m.data, bound)
    ensures m.data != map[] ==> m.next <= bound
  {
  }

  /** The new version, visited first, is the one collected exactly when no other version of its key has a higher number. */
  lemma FreshIsCollectedExactly(e: Entry, rest: seq<Entry>)
    ensures e.key in HighestPerKey([e] + rest)
    ensures HighestPerKey([e] + rest)[e.key] == e <==>
      forall x :: x in rest && x.key == e.key ==> x.sequence <= e.sequence
  {
    hide HighestPerKey;
    HighestPerKeyCorrect([e] + rest);
    assert e in [e] + rest;
    assert forall x :: x in rest ==> x in [e] + rest;
    if forall x :: x in rest && x.key == e.key ==> x.sequence <= e.sequence {
      FirstStays(e, rest);
    }
  }

  /** A merge visits the newest table of level 0 last, so there an equal number already hides the new version. */
  lemma LateIsCollectedExactly(e: Entry, rest: seq<Entry>)
    requires e !in rest
    ensures e.key in HighestPerKey(rest + [e])
    ensures HighestPerKey(rest + [e])[e.key] == e <==>
      forall x :: x in rest && x.key == e.key ==> x.sequence < e.sequence
  {
    var all := rest + [e];
    assert all[..|all| - 1] == rest && all[|all| - 1] == e;
    HighestPerKeyCorrect(rest);
  }

  lemma OneWritten(e: Entry)
    ensures SortedEntries(map[e.key := e]) == [e]
  {
    var m := map[e.key := e];
    assert m.Keys == {e.key} && m - {e.key} == map[];
    assert LeastKey(m.Keys) == e.key;
  }

  /** A later version of the same key with no higher number does not replace the first. */
  lemma {:induction false} FirstStays(e: Entry, es: seq<Entry>)
    requires forall x :: x in es && x.key == e.key ==> x.sequence <= e.sequence
    ensures e.key in HighestPerKey([e] + es) && HighestPerKey([e] + es)[e.key] == e
  {
    var all := [e] + es;
    if es == [] {
      assert all[..|all| - 1] == [] && all[|all| - 1] == e;
    } else {
      var n := |es| - 1;
      FirstStays(e, es[..n]);
      assert all[..|all| - 1] == [e] + es[..n] && all[|all| - 1] == es[n];
    }
  }

  /** The literal rotation followed by one write. */
  function WrittenAfterRotation(cfg: Config, s: State, k: Key, v: Option<Value>): State {
    DoWrite(RotateFrom(cfg, s, s.counter), k, v)
  }

  /** Everything a scan visits in a state. */
  function Visited(cfg: Config, s: State): seq<Entry> {
    MemEntries(s, 0) + LevelEntries(TablesBelow(s.levels, cfg.maxLevels))
  }

  lemma {:induction false} VisitedAfterRotation(cfg: Config, s: State, k: Key, v: Option<Value>, i: nat)
    requires i <= |s.imm|
    ensures |WrittenAfterRotation(cfg, s, k, v).imm| == |s.imm| + 1
    ensures MemEntries(WrittenAfterRotation(cfg, s, k, v), i) == [Entry(k, v, s.clock, s.counter)] + MemEntries(s, i)
    decreases |s.imm| - i
  {
    hide SortedEntries;
    var t, e := WrittenAfterRotation(cfg, s, k, v), Entry(k, v, s.clock, s.counter);
    assert t.mem.data == map[k := e] && t.imm == s.imm + [s.mem.(immutable := true)];
    if i == |s.imm| {
      OneWritten(e);
      assert MemEntries(t, i) == MemEntries(t, i + 1) + SortedEntries(t.imm[i].data);
    } else {
      VisitedAfterRotation(cfg, s, k, v, i + 1);
    }
  }

  /**
    The harm: a key written after the literal rotation reads back from the memtable, but a scan collects the new
    version exactly when no other stored version of the key has a number above the engine's counter.
   */
  lemma LiteralRotationScanExactly(cfg: Config, s: State, k: Key, v: Option<Value>)
    requires Inv(cfg, s)
    ensures Get(cfg, WrittenAfterRotation(cfg, s, k, v), k) == v
    ensures var found := HighestPerKey(Visited(cfg, WrittenAfterRotation(cfg, s, k, v)));
      && k in found
      && (found[k] == Entry(k, v, s.clock, s.counter) <==>
            forall x :: Stored(Probe(cfg, s), x) && x.key == k ==> x.sequence <= s.counter)
  {
    hide Inv, LevelEntries, TablesBelow, HighestPerKey, Stored, MemEntries, Probe;
    var e, t := Entry(k, v, s.clock, s.counter), WrittenAfterRotation(cfg, s, k, v);
    WriteChangesOneKey(cfg, RotateFrom(cfg, s, s.counter), k, v, k);
    VisitedAfterRotation(cfg, s, k, v, 0);
    assert Visited(cfg, t) == [e] + Visited(cfg, s);
    FreshIsCollectedExactly(e, Visited(cfg, s));
    forall x ensures x in Visited(cfg, s) <==> Stored(Probe(cfg, s), x) { ScanVisitsEverything(cfg, s, x); }
  }

  /** Two writes, a literal rotation and one more write: the same number is handed out twice for the same key. */
  lemma LiteralRotationRepeatsNumber(cfg: Config, k: Key, u: Value, v: Value, w: Value)
    ensures var before := DoWrite(DoWrite(Init(cfg), k, Some(u)), k, Some(v));
      var after := DoWrite(RotateFrom(cfg, before, before.counter), k, Some(w));
      && |after.imm| == 1 && k in after.imm[0].data && k in after.mem.data
      && after.imm[0].data[k].value == Some(v) && after.mem.data[k].value == Some(w)
      && after.imm[0].data[k].sequence == after.mem.data[k].sequence
  {
  }

  /**
    What goes wrong then: two tables of level 0 whose versions of a key carry the same number.
    Reading finds the newer one, merging keeps the older one, so a compaction undoes the update.
   */
  lemma EqualNumbersLoseTheUpdate(a: Table, b: Table, older: Entry, newer: Entry)
    requires a.entries == [older] && b.entries == [newer]
    requires older.key == newer.key && older.sequence == newer.sequence
    ensures Visible(NewestTables([a, b]), newer.key) == newer.value
    ensures HighestPerKey(LevelEntries([a, b])) == map[older.key := older]
  {
    hide ToMap, HighestPerKey;
    assert [a, b] == [a] + [b];
    NewestTablesAppend([a], [b]);
    SingletonMap(newer);
    assert NewestTables([b]) == [ToMap([newer])];
    LookupCons(ToMap([newer]), NewestTables([a]), newer.key);
    LevelEntriesAppend([a], [b]);
    SingleTable(a);
    SingleTable(b);
    FirstStays(older, [newer]);
    HighestPerKeyCorrect([older, newer]);
    assert [older, newer] == [older] + [newer];
  }

  lemma SingletonMap(e: Entry)
    ensures ToMap([e]) == map[e.key := e]
  {
    assert KeysOf([e]) == {e.key};
  }

  lemma SingleTable(t: Table)
    ensures LevelEntries([t]) == t.entries
  {
    assert EntryLists([t]) == [] + [t.entries];
    FlattenSnoc([], t.entries);
  }

  // ---------- numbering after a restart ----------

  lemma {:induction false} DeepEmpty(levels: Levels, from: nat, limit: nat)
    requires forall l: nat :: from <= l < limit ==> TablesAt(levels, l) == []
    ensures forall i :: 0 <= i < |DeepLayers(levels, from, limit)| ==> DeepLayers(levels, from, limit)[i] == map[]
    decreases if from < limit then limit - from else 0
  {
    if from < limit {
      DeepEmpty(levels, from + 1, limit);
      EmptyLevel();
    }
  }

  lemma {:induction false} DeepBelowZero(levels: Levels, from: nat, limit: nat, l: nat)
    requires Below(DeepLayers(levels, from, limit), 0) && from <= l < limit
    ensures LevelLayer(TablesAt(levels, l)) == map[]
    decreases limit - from
  {
    hide LevelLayer;
    var deep := DeepLayers(levels, from, limit);
    assert LayerBelow(deep[0], 0);
    if from < l {
      assert deep[1..] == DeepLayers(levels, from + 1, limit);
      assert forall i :: 0 <= i < |deep[1..]| ==> deep[1..][i] == deep[i + 1];
      DeepBelowZero(levels, from + 1, limit, l);
    } else {
      assert forall k :: k !in deep[0];
    }
  }

  lemma TablesKnowKeys(ts: seq<Table>)
    requires (forall i :: 0 <= i < |ts| ==> TableOk(ts[i])) && ts != []
    ensures LevelLayer(ts) != map[]
  {
    var e := ts[0].entries[0];
    FlattenMember(EntryLists(ts), 0, e);
    assert e.key in KeysOf(LevelEntries(ts));
    assert e.key in LevelLayer(ts);
  }

  lemma NotBelowZero(es: seq<Entry>)
    requires es != []
    ensures !LayerBelow(ToMap(es), 0)
  {
    assert es[0].key in KeysOf(es);
    assert es[0].key in ToMap(es);
  }

  /** The literal `open` numbers from 0. The reopened engine is sound exactly when no table was loaded. */
  lemma LiteralReopenExactly(cfg: Config, levels: Levels, clock: nat, next: nat)
    requires DiskOk(cfg, levels, clock, next)
    ensures Inv(cfg, Reopened(cfg, levels, clock, 0)) <==> forall l: nat :: TablesAt(levels, l) == []
  {
    hide Inv, Get, LevelEntries;
    ReopenedExactly(cfg, levels, clock, next, 0);
    var l0, deep := NewestTables(TablesAt(levels, 0)), DeepLayers(levels, 1, cfg.maxLevels);
    var disk := Disk(levels, cfg.maxLevels);
    if Below(disk, 0) {
      forall l: nat ensures TablesAt(levels, l) == [] {
        EmptyWhenBelowZero(cfg, levels, clock, l);
      }
    }
    if forall l: nat :: TablesAt(levels, l) == [] {
      DeepEmpty(levels, 1, cfg.maxLevels);
      assert disk == deep;
    }
  }

  lemma EmptyWhenBelowZero(cfg: Config, levels: Levels, clock: nat, l: nat)
    requires LevelsOk(cfg, levels, clock) && Below(Disk(levels, cfg.maxLevels), 0)
    ensures TablesAt(levels, l) == []
  {
    hide LevelEntries, Sorted;
    var ts, l0, deep := TablesAt(levels, l), NewestTables(TablesAt(levels, 0)), DeepLayers(levels, 1, cfg.maxLevels);
    var disk := Disk(levels, cfg.maxLevels);
    if l == 0 && ts != [] {
      assert disk[0] == ToMap(ts[|ts| - 1].entries);
      assert TableOk(ts[|ts| - 1]);
      NotBelowZero(ts[|ts| - 1].entries);
    } else if 1 <= l < cfg.maxLevels && ts != [] {
      forall i | 0 <= i < |deep| ensures LayerBelow(deep[i], 0) {
        assert disk[|l0| + i] == deep[i];
      }
      DeepBelowZero(levels, 1, cfg.maxLevels, l);
      assert DeepLevelOk(ts);
      TablesKnowKeys(ts);
    }
  }

  /** The literal reopening followed by one write. */
  function WrittenAfterReopening(cfg: Config, levels: Levels, clock: nat, k: Key, v: Option<Value>): State {
    DoWrite(Reopened(cfg, levels, clock, 0), k, v)
  }

  /**
    The harm: a key written after the literal reopening reads back from the memtable, but a scan collects the new
    version exactly when no version on disk has a number above 0. Otherwise the scan reports a stale value.
   */
  lemma LiteralReopenScanExactly(cfg: Config, levels: Levels, clock: nat, k: Key, v: Option<Value>)
    ensures Get(cfg, WrittenAfterReopening(cfg, levels, clock, k, v), k) == v
    ensures var found := HighestPerKey(Visited(cfg, WrittenAfterReopening(cfg, levels, clock, k, v)));
      && k in found
      && (found[k] == Entry(k, v, clock, 0) <==>
            forall e :: e in LevelEntries(TablesBelow(levels, cfg.maxLevels)) && e.key == k ==> e.sequence == 0)
  {
    hide LevelEntries, TablesBelow, HighestPerKey, SortedEntries;
    var e, disk := Entry(k, v, clock, 0), LevelEntries(TablesBelow(levels, cfg.maxLevels));
    WriteChangesOneKey(cfg, Reopened(cfg, levels, clock, 0), k, v, k);
    OneWritten(e);
    assert Visited(cfg, WrittenAfterReopening(cfg, levels, clock, k, v)) == [e] + disk;
    FreshIsCollectedExactly(e, disk);
  }

  // ---------- dropping tombstones ----------

  /** A compaction that keeps only the tombstones of the keys in `keep`; the literal one keeps none. */
  function CompactKeeping(cfg: Config, s: State, l: nat, keep: set<Key>): State
    requires TablesAt(s.levels, l) != []
  {
    var j := Job(l, TablesAt(s.levels, l), TablesAt(s.levels, l + 1), None);
    var ts := CreateTables(cfg, l + 1, MergeTables(j.upper, j.lower, keep), s.clock);
    s.(levels := Installed(s.levels, j, ts), counter := s.counter + |ts|, clock := s.clock + |ts|)
  }

  function WholeJob(s: State, l: nat): Job {
    Job(l, TablesAt(s.levels, l), TablesAt(s.levels, l + 1), None)
  }

  lemma CompactKeepingLayers(cfg: Config, s: State, l: nat, keep: set<Key>)
    requires Inv(cfg, s) && l + 1 < cfg.maxLevels && TablesAt(s.levels, l) != []
    ensures var j := WholeJob(s, l);
      && JobFits(cfg, s.levels, j) && JobTablesOk(j) && Ordered(JobInput(j))
      && Disk(s.levels, cfg.maxLevels) == Above(s.levels, j) + JobInput(j) + Under(cfg, s.levels, j)
      && Disk(CompactKeeping(cfg, s, l, keep).levels, cfg.maxLevels)
           == Above(s.levels, j) + JobOutput(j, MergedLayer(j, keep)) + Under(cfg, s.levels, j)
  {
    hide Sorted, ToMap, Flatten, EntryLists, DeepLayers;
    hide NewestTables, Ordered, Below, CreateTables, MergeTables, DropTombstones;
    hide StackOk, FlushOk, LevelsOk, MemsOk, JobTablesOk;
    var j := WholeJob(s, l);
    JobTablesFromInv(cfg, s, j);
    DiskAroundJob(cfg, s.levels, j);
    MergeOutputMeaning(j, keep);
    CreateTablesOk(cfg, l + 1, MergeTables(j.upper, j.lower, keep), s.clock);
    DiskAfterInstall(cfg, s.levels, j, CreateTables(cfg, l + 1, MergeTables(j.upper, j.lower, keep), s.clock));
  }

  /** The tombstone a reader of key `k` would meet in the compacted levels, nothing above hiding it. */
  ghost predicate MeetsDroppedTombstone(cfg: Config, s: State, l: nat, keep: set<Key>, k: Key)
    requires l + 1 < cfg.maxLevels
  {
    var j := WholeJob(s, l);
    && Lookup(Memory(s) + Above(s.levels, j), k) == None
    && Lookup(JobInput(j), k).Some? && Lookup(JobInput(j), k).value.value == None
    && k !in keep
  }

  lemma CompactKeepingOneKey(cfg: Config, s: State, l: nat, keep: set<Key>, k: Key)
    requires Inv(cfg, s) && l + 1 < cfg.maxLevels && TablesAt(s.levels, l) != []
    ensures var t := CompactKeeping(cfg, s, l, keep);
      Get(cfg, t, k) ==
        if MeetsDroppedTombstone(cfg, s, l, keep, k) then Visible(Under(cfg, s.levels, WholeJob(s, l)), k)
        else Get(cfg, s, k)
  {
    hide Inv, Sorted, Flatten, EntryLists, DeepLayers, NewestTables, HighestPerKey, Ordered;
    hide Greedy, LevelLayer, Disk, Above, Under, JobInput, JobOutput, JobTablesOk;
    var j, t := WholeJob(s, l), CompactKeeping(cfg, s, l, keep);
    CompactKeepingLayers(cfg, s, l, keep);
    MergeOutputMeaning(j, keep);
    JobOutputIsDrawn(j, keep);
    var mems, above, input, output, under :=
      Memory(s), Above(s.levels, j), JobInput(j), JobOutput(j, MergedLayer(j, keep)), Under(cfg, s.levels, j);
    assert Probe(cfg, s) == (mems + above) + input + under;
    assert Probe(cfg, t) == (mems + above) + output + under;
    LookupAppend((mems + above) + input, under, k);
    LookupAppend(mems + above, input, k);
    LookupAppend((mems + above) + output, under, k);
    LookupAppend(mems + above, output, k);
  }

  /**
    The literal merge drops every tombstone. Every key reads as before exactly when no tombstone it drops,
    met by a reader, hides a live value in a level below the target.
   */
  lemma LiteralCompactionExactly(cfg: Config, s: State, l: nat)
    requires Inv(cfg, s) && l + 1 < cfg.maxLevels && TablesAt(s.levels, l) != []
    ensures SameAnswers(cfg, s, CompactKeeping(cfg, s, l, {})) <==>
      forall k :: MeetsDroppedTombstone(cfg, s, l, {}, k) ==> Visible(Under(cfg, s.levels, WholeJob(s, l)), k) == None
  {
    hide Inv, Under, CompactKeeping;
    forall k ensures (Get(cfg, CompactKeeping(cfg, s, l, {}), k) == Get(cfg, s, k)) <==>
      (MeetsDroppedTombstone(cfg, s, l, {}, k) ==> Visible(Under(cfg, s.levels, WholeJob(s, l)), k) == None)
    {
      CompactKeepingOneKey(cfg, s, l, {}, k);
      if MeetsDroppedTombstone(cfg, s, l, {}, k) {
        TombstoneReadsAbsent(cfg, s, l, k);
      }
    }
  }

  lemma TombstoneReadsAbsent(cfg: Config, s: State, l: nat, k: Key)
    requires Inv(cfg, s) && l + 1 < cfg.maxLevels && TablesAt(s.levels, l) != [] && MeetsDroppedTombstone(cfg, s, l, {}, k)
    ensures Get(cfg, s, k) == None
  {
    hide Inv, Disk, JobInput, Under, DeepLayers, NewestTables, LevelLayer;
    var j := WholeJob(s, l);
    CompactKeepingLayers(cfg, s, l, {});
    var mems, above, input, under := Memory(s), Above(s.levels, j), JobInput(j), Under(cfg, s.levels, j);
    assert Probe(cfg, s) == (mems + above) + input + under;
    LookupAppend((mems + above) + input, under, k);
    LookupAppend(mems + above, input, k);
  }

  /** A deleted key whose old value still sits in level 2: the tombstone in level 0, nothing in level 1. */
  function DeletedAbove(cfg: Config, k: Key, v: Value): State {
    var stale, tomb := Entry(k, Some(v), 0, 0), Entry(k, None, 1, 1);
    State(EmptyMem(cfg.memtableSizeThreshold, 2), [],
      map[0 := [Table([tomb], 1, 0)], 2 := [Table([stale], 0, 0)]], 1, 2, false, None)
  }

  lemma DeletedAboveLayers(cfg: Config, k: Key, v: Value)
    requires cfg.maxLevels >= 3
    ensures var s := DeletedAbove(cfg, k, v); var core := Core(cfg, s);
      && Probe(cfg, s) == core
      && |core| >= 4 && core[0] == map[] && core[1] == map[k := Entry(k, None, 1, 1)] && core[2] == map[]
      && core[3] == map[k := Entry(k, Some(v), 0, 0)]
      && forall i :: 4 <= i < |core| ==> core[i] == map[]
  {
    var s := DeletedAbove(cfg, k, v);
    var stale, tomb := Table([Entry(k, Some(v), 0, 0)], 0, 0), Table([Entry(k, None, 1, 1)], 1, 0);
    DeepEmpty(s.levels, 3, cfg.maxLevels);
    EmptyLevel();
    var deep := DeepLayers(s.levels, 1, cfg.maxLevels);
    assert deep == [map[], LevelLayer([stale])] + DeepLayers(s.levels, 3, cfg.maxLevels) by {
      assert deep == [map[]] + DeepLayers(s.levels, 2, cfg.maxLevels);
    }
    SingleTable(stale);
    SingletonMap(tomb.entries[0]);
    SingletonMap(stale.entries[0]);
    assert NewestTables([tomb]) == [ToMap(tomb.entries)];
    assert Core(cfg, s) == [map[]] + ([] + (NewestTables([tomb]) + deep));
  }

  lemma DeletedAboveStack(cfg: Config, k: Key, v: Value)
    requires cfg.maxLevels >= 3
    ensures StackOk(cfg, DeletedAbove(cfg, k, v))
  {
    DeletedAboveLayers(cfg, k, v);
    hide Core;
    assert Below(Core(cfg, DeletedAbove(cfg, k, v)), 2);
  }

  lemma DeletedAboveLevels(cfg: Config, k: Key, v: Value)
    requires cfg.maxLevels >= 3
    ensures LevelsOk(cfg, DeletedAbove(cfg, k, v).levels, 2)
  {
    var s := DeletedAbove(cfg, k, v);
    var stale := Table([Entry(k, Some(v), 0, 0)], 0, 0);
    SingleTable(stale);
    EmptyLevelOk();
    assert DeepLevelOk(TablesAt(s.levels, 2));
  }

  lemma DeletedAboveIsSound(cfg: Config, k: Key, v: Value)
    requires cfg.Valid() && cfg.maxLevels >= 3
    ensures Inv(cfg, DeletedAbove(cfg, k, v))
  {
    hide StackOk, LevelsOk;
    DeletedAboveStack(cfg, k, v);
    DeletedAboveLevels(cfg, k, v);
    assert Footprint(map[]) == 0;
  }

  /** A concrete loss: the literal compaction of that state into level 1 brings the deleted value back. */
  lemma LiteralCompactionRevivesDeletedKey(cfg: Config, k: Key, v: Value)
    requires cfg.Valid() && cfg.maxLevels >= 3
    ensures var s := DeletedAbove(cfg, k, v);
      Inv(cfg, s) && Get(cfg, s, k) == None && Get(cfg, CompactKeeping(cfg, s, 0, {}), k) == Some(v)
  {
    var s := DeletedAbove(cfg, k, v);
    DeletedAboveIsSound(cfg, k, v);
    DeletedAboveLayers(cfg, k, v);
    hide Inv;
    FirstKnowing(Core(cfg, s), k, 1);
    assert Get(cfg, s, k) == None;
    CompactKeepingLayers(cfg, s, 0, {});
    CompactKeepingOneKey(cfg, s, 0, {}, k);
    var j := WholeJob(s, 0);
    assert Memory(s) + Above(s.levels, j) == [map[]] + [];
    LookupCons(map[], [], k);
    assert JobInput(j)[0] == Core(cfg, s)[1];
    FirstKnowing(JobInput(j), k, 0);
    assert MeetsDroppedTombstone(cfg, s, 0, {}, k);
    var under := Under(cfg, s.levels, j);
    assert under == [LevelLayer(TablesAt(s.levels, 2))] + DeepLayers(s.levels, 3, cfg.maxLevels);
    assert under[0] == Core(cfg, s)[3];
    FirstKnowing(under, k, 0);
  }

  // ---------- flushing in the literal order ----------

  /** The source takes the memtable off the queue before its table is on level 0. */
  function RemovedFirst(s: State): State
    requires s.imm != []
  {
    s.(imm := s.imm[1..])
  }

  /** In that window a key reads right exactly when the removed memtable was not needed to answer it. */
  lemma LiteralFlushWindowExactly(cfg: Config, s: State, k: Key)
    requires s.imm != []
    ensures Get(cfg, RemovedFirst(s), k) == Get(cfg, s, k) <==>
      || Lookup(Memory(RemovedFirst(s)), k).Some?
      || k !in s.imm[0].data
      || Visible(Disk(s.levels, cfg.maxLevels), k) == s.imm[0].data[k].value
  {
    var rest, disk := Memory(RemovedFirst(s)), Disk(s.levels, cfg.maxLevels);
    ProbeParts(cfg, s, k);
    ProbeParts(cfg, RemovedFirst(s), k);
    OldestMem(s.imm);
    assert Memory(s) == rest + [s.imm[0].data];
    LookupAppend(rest, [s.imm[0].data], k);
  }

  // ---------- installing in the literal way ----------

  /** The source empties the upper level, whatever was appended to it since the snapshot. */
  function LiteralInstall(s: State): State
    requires s.job.Some? && s.job.value.merged.Some?
  {
    var j := s.job.value;
    s.(levels := s.levels[j.level := []][j.level + 1 := j.merged.value], job := None)
  }

  /** The tables that joined the compaction's upper level after its snapshot. */
  function AddedSince(s: State): seq<Table>
    requires s.job.Some?
  {
    var j := s.job.value;
    var now := TablesAt(s.levels, j.level);
    if |j.upper| <= |now| then now[|j.upper|..] else []
  }

  lemma LiteralInstallLevels(cfg: Config, s: State)
    requires Inv(cfg, s) && Enabled(cfg, s, Install)
    ensures LiteralInstall(s) == DoInstall(s) <==> AddedSince(s) == []
    ensures s.job.value.level > 0 ==> AddedSince(s) == []
    ensures s.job.value.level == 0 ==> TablesAt(DoInstall(s).levels, 0) == AddedSince(s)
  {
    hide StackOk, FlushOk, LevelsOk, MemsOk;
    var j := s.job.value;
    assert JobFits(cfg, s.levels, j);
    if AddedSince(s) != [] {
      assert LiteralInstall(s).levels[j.level] == [] && DoInstall(s).levels[j.level] == AddedSince(s);
    }
  }

  /** After the literal install the key still has its newest version in reach, or one that reads the same. */
  predicate StaysInReach(cfg: Config, s: State, k: Key)
    requires s.job.Some? && s.job.value.merged.Some?
  {
    var lost := NewestTables(AddedSince(s));
    || Lookup(Memory(s), k).Some?
    || Lookup(lost, k) == None
    || Visible(lost, k) == Visible(DeepLayers(LiteralInstall(s).levels, 1, cfg.maxLevels), k)
  }

  lemma LiteralInstallOneKey(cfg: Config, s: State, k: Key)
    requires Inv(cfg, s) && Enabled(cfg, s, Install)
    ensures Get(cfg, LiteralInstall(s), k) == Get(cfg, s, k) <==> StaysInReach(cfg, s, k)
  {
    hide Inv, NewestTables, DeepLayers, Memory, AddedSince;
    LiteralInstallLevels(cfg, s);
    InstallKeepsInv(cfg, s);
    if s.job.value.level == 0 {
      var meant, literal := DoInstall(s), LiteralInstall(s);
      assert Memory(meant) == Memory(s) == Memory(literal) by { SameMemory(s); }
      DeepSame(meant.levels, literal.levels, 1, cfg.maxLevels);
      NoLayers();
      assert Disk(literal.levels, cfg.maxLevels) == [] + DeepLayers(literal.levels, 1, cfg.maxLevels);
      ProbeParts(cfg, meant, k);
      ProbeParts(cfg, literal, k);
      LookupAppend(NewestTables(AddedSince(s)), DeepLayers(meant.levels, 1, cfg.maxLevels), k);
      assert [] + DeepLayers(literal.levels, 1, cfg.maxLevels) == DeepLayers(literal.levels, 1, cfg.maxLevels);
    } else {
      NoLayers();
    }
  }

  lemma SameMemory(s: State)
    requires s.job.Some? && s.job.value.merged.Some?
    ensures Memory(DoInstall(s)) == Memory(s) == Memory(LiteralInstall(s))
  {
  }

  lemma NoLayers()
    ensures NewestTables([]) == []
    ensures forall k :: Lookup([], k) == None
  {
  }

  /**
    The literal install answers every key as before exactly when each key known to a table flushed since the
    snapshot is still known to a memtable, or reads the same without that table.
   */
  lemma LiteralInstallExactly(cfg: Config, s: State)
    requires Inv(cfg, s) && Enabled(cfg, s, Install)
    ensures SameAnswers(cfg, s, LiteralInstall(s)) <==> forall k :: StaysInReach(cfg, s, k)
  {
    hide Inv, StaysInReach, LiteralInstall;
    forall k ensures Get(cfg, LiteralInstall(s), k) == Get(cfg, s, k) <==> StaysInReach(cfg, s, k) {
      LiteralInstallOneKey(cfg, s, k);
    }
  }

  // ---------- a store of one level ----------

  /** With one level configured, what a compaction of level 0 writes to level 1 is out of reach: only memory answers. */
  lemma OnlyMemoryAnswers(cfg: Config, s: State, keep: set<Key>, k: Key)
    requires cfg.maxLevels == 1 && TablesAt(s.levels, 0) != []
    ensures Get(cfg, CompactKeeping(cfg, s, 0, keep), k) == Visible(Memory(s), k)
    ensures Disk(s.levels, 1) == NewestTables(TablesAt(s.levels, 0))
  {
    var t := CompactKeeping(cfg, s, 0, keep);
    assert TablesAt(t.levels, 0) == [];
    assert Disk(t.levels, 1) == [];
    ProbeParts(cfg, t, k);
    assert Memory(t) == Memory(s);
  }

  /** A key survives the compaction if a memtable knows it, or if it reads as absent on level 0 anyway. */
  predicate SurvivesOneLevel(s: State, k: Key) {
    Lookup(Memory(s), k).Some? || Visible(NewestTables(TablesAt(s.levels, 0)), k) == None
  }

  /** With one level, a compaction answers every key as before exactly when every key survives in that sense. */
  lemma OneLevelLosesTheDisk(cfg: Config, s: State)
    requires cfg.maxLevels == 1 && TablesAt(s.levels, 0) != []
    ensures forall k :: (Get(cfg, CompactKeeping(cfg, s, 0, {}), k) == Get(cfg, s, k) <==> SurvivesOneLevel(s, k))
    ensures SameAnswers(cfg, s, CompactKeeping(cfg, s, 0, {})) <==> forall k :: SurvivesOneLevel(s, k)
  {
    hide CompactKeeping, Memory, Disk, NewestTables;
    forall k ensures Get(cfg, CompactKeeping(cfg, s, 0, {}), k) == Get(cfg, s, k) <==> SurvivesOneLevel(s, k) {
      OnlyMemoryAnswers(cfg, s, {}, k);
      ProbeParts(cfg, s, k);
    }
  }
}
