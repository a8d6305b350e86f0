/** The engine over whole runs: it behaves like one plain map. */
module EngineRuns {
  import opened Basics
  import opened ByteOrder
  import opened Sorting
  import opened Layers
  import opened MemTables
  import opened Packing
  import opened EngineModel
  import opened EngineProofs

  /** A step that is not enabled leaves the engine as it is. */
  function Attempt(cfg: Config, s: State, step: Step): State {
    if Enabled(cfg, s, step) then Next(cfg, s, step) else s
  }

  function Exec(cfg: Config, run: seq<Step>): State {
    if run == [] then Init(cfg) else Attempt(cfg, Exec(cfg, run[..|run| - 1]), run[|run| - 1])
  }

  /** The reference: a plain map that sees only the writes. */
  function Plain(run: seq<Step>): map<Key, Value> {
    if run == [] then map[] else Apply(Plain(run[..|run| - 1]), run[|run| - 1])
  }

  function Apply(m: map<Key, Value>, step: Step): map<Key, Value> {
    if !step.Write? then m
    else if step.value.Some? then m[step.key := step.value.value]
    else m - {step.key}
  }

  function PlainGet(m: map<Key, Value>, k: Key): Option<Value> {
    if k in m then Some(m[k]) else None
  }

  lemma InitInv(cfg: Config)
    requires cfg.Valid()
    ensures Inv(cfg, Init(cfg))
    ensures forall k :: Get(cfg, Init(cfg), k) == None
  {
    var s := Init(cfg);
    EmptyDisk(cfg, 1);
    assert Footprint(map[]) == 0;
    assert forall i :: 0 <= i < |Core(cfg, s)| ==> Core(cfg, s)[i] == map[];
    assert Probe(cfg, s) == Core(cfg, s);
    forall k ensures Get(cfg, s, k) == None {
      var i := LookupWhere(Core(cfg, s), k);
    }
    assert LevelEntries([]) == [];
  }

  lemma {:induction false} EmptyDisk(cfg: Config, from: nat)
    ensures forall i :: 0 <= i < |DeepLayers(map[], from, cfg.maxLevels)| ==>
      DeepLayers(map[], from, cfg.maxLevels)[i] == map[]
    decreases if from < cfg.maxLevels then cfg.maxLevels - from else 0
  {
    if from < cfg.maxLevels {
      EmptyDisk(cfg, from + 1);
      EmptyLevel();
    }
  }

  /**
    The main theorem. Over every run of writes, rotations, flushes and compactions, interleaved in any way,
    `get` returns exactly what a plain map updated by the same writes holds, and the invariant is kept.
   */
  lemma {:induction false} EngineIsPlainMap(cfg: Config, run: seq<Step>)
    requires cfg.Valid()
    ensures Inv(cfg, Exec(cfg, run))
    ensures forall k :: Get(cfg, Exec(cfg, run), k) == PlainGet(Plain(run), k)
  {
    hide Inv, Get, Next, Enabled, Init;
    if run == [] {
      InitInv(cfg);
    } else {
      var before, step := run[..|run| - 1], run[|run| - 1];
      EngineIsPlainMap(cfg, before);
      if Enabled(cfg, Exec(cfg, before), step) {
        NextKeepsInv(cfg, Exec(cfg, before), step);
      }
      assert step.Write? ==> Enabled(cfg, Exec(cfg, before), step) by { WriteIsEnabled(cfg, Exec(cfg, before), step); }
    }
  }

  lemma WriteIsEnabled(cfg: Config, s: State, step: Step)
    ensures step.Write? ==> Enabled(cfg, s, step)
  {
  }

  /**
    In every reachable state the first version of a key found is the newest one stored, and all stored numbers are
    below the next one to be assigned. Along the probe order the numbers of a key's versions fall strictly, exactly
    unless a memtable whose table is already on disk and the disk both hold one of its keys.
   */
  lemma FirstFoundIsNewest(cfg: Config, run: seq<Step>)
    requires cfg.Valid()
    ensures var s := Exec(cfg, run);
      && FirstIsHighest(Probe(cfg, s))
      && Below(Probe(cfg, s), s.mem.next)
      && Ordered(Core(cfg, s))
      && (!s.published ==> Core(cfg, s) == Probe(cfg, s))
      && (Ordered(Probe(cfg, s)) <==> !SharedWithDisk(cfg, s))
  {
    hide Exec, FirstIsHighest, Below, Ordered, Disk, SharedWithDisk;
    EngineIsPlainMap(cfg, run);
    ProbeIsFirstHighest(cfg, Exec(cfg, run));
    ProbeOrderedExactly(cfg, Exec(cfg, run));
    MemoryOk(cfg, Exec(cfg, run));
  }

  /** Installing a compaction keeps every level-0 table that was flushed after its snapshot, in order. */
  lemma InstallLosesNoFlush(cfg: Config, run: seq<Step>)
    requires cfg.Valid() && Enabled(cfg, Exec(cfg, run), Install)
    ensures var s := Exec(cfg, run); var j := s.job.value;
      TablesAt(s.levels, 0) == (if j.level == 0 then j.upper else []) + TablesAt(Next(cfg, s, Install).levels, 0)
  {
    hide Exec, Core, LevelsOk, JobOk;
    EngineIsPlainMap(cfg, run);
    SnapshotIsPrefix(cfg, Exec(cfg, run));
  }

  lemma SnapshotIsPrefix(cfg: Config, s: State)
    requires CompactionOk(cfg, s) && Enabled(cfg, s, Install)
    ensures var j := s.job.value;
      TablesAt(s.levels, 0) == (if j.level == 0 then j.upper else []) + TablesAt(DoInstall(s).levels, 0)
  {
    assert JobFits(cfg, s.levels, s.job.value);
  }

  // ---------- levels below 0 ----------

  /** `find_sstable_for_key`: the first table whose key range covers the key. */
  function FindTable(ts: seq<Table>, k: Key): Option<Table>
    requires forall i :: 0 <= i < |ts| ==> ts[i].entries != []
  {
    if ts == [] then None
    else if Covers(ts[0], k) then Some(ts[0])
    else FindTable(ts[1..], k)
  }

  predicate Covers(t: Table, k: Key)
    requires t.entries != []
  {
    !Less(k, t.entries[0].key) && !Less(t.entries[|t.entries| - 1].key, k)
  }

  /** A key stored in one table of a level lies in no other table's key range. */
  lemma RangesAreDisjoint(ts: seq<Table>, i: nat, j: nat, k: Key)
    requires DeepLevelOk(ts) && i < |ts| && j < |ts|
    requires Covers(ts[i], k) && Covers(ts[j], k)
    ensures i == j
  {
    if i < j { RangesAscend(ts, i, j, k); }
    if j < i { RangesAscend(ts, j, i, k); }
  }

  lemma RangesAscend(ts: seq<Table>, i: nat, j: nat, k: Key)
    requires DeepLevelOk(ts) && i < j < |ts| && Covers(ts[i], k)
    ensures !Covers(ts[j], k)
  {
    var a, b := ts[i].entries, ts[j].entries;
    TablesAscend(ts, i, j);
    LessIsStrictTotalOrder();
  }

  /** Every key of an earlier table is less than every key of a later one. */
  lemma TablesAscend(ts: seq<Table>, i: nat, j: nat)
    requires DeepLevelOk(ts) && i < j < |ts|
    ensures Less(ts[i].entries[|ts[i].entries| - 1].key, ts[j].entries[0].key)
  {
    var lists := EntryLists(ts);
    FlattenSplit(lists, j);
    var before := lists[..j];
    FlattenSplit(before, i);
    var all, n := Flatten(lists), |Flatten(before)|;
    assert all[n] == ts[j].entries[0];
    var m := |Flatten(before[..i])|;
    assert Flatten(before)[m + |ts[i].entries| - 1] == ts[i].entries[|ts[i].entries| - 1];
    assert Less(all[m + |ts[i].entries| - 1].key, all[n].key);
  }

  lemma CoversItsKeys(t: Table, k: Key)
    requires TableOk(t) && k in KeysOf(t.entries)
    ensures Covers(t, k)
  {
    var e :| e in t.entries && e.key == k;
    var i :| 0 <= i < |t.entries| && t.entries[i] == e;
    var es := t.entries;
    LessIsStrictTotalOrder();
    assert i == 0 || Less(es[0].key, es[i].key);
    assert i == |es| - 1 || Less(es[i].key, es[|es| - 1].key);
  }

  lemma DeepLevelTail(ts: seq<Table>)
    requires DeepLevelOk(ts) && ts != []
    ensures DeepLevelOk(ts[1..])
    ensures LevelEntries(ts) == ts[0].entries + LevelEntries(ts[1..])
  {
    assert EntryLists(ts) == [ts[0].entries] + EntryLists(ts[1..]);
    FlattenCons(ts[0].entries, EntryLists(ts[1..]));
    var all, tail, n := LevelEntries(ts), LevelEntries(ts[1..]), |ts[0].entries|;
    assert forall i :: 0 <= i < |tail| ==> tail[i] == all[n + i];
  }

  lemma {:induction false} KeyInSomeTable(ts: seq<Table>, k: Key) returns (i: nat)
    requires DeepLevelOk(ts) && k in KeysOf(LevelEntries(ts))
    ensures i < |ts| && k in KeysOf(ts[i].entries)
    decreases |ts|
  {
    hide Less, Sorted;
    if ts != [] {
      DeepLevelTail(ts);
      FindAppend(ts[0].entries, LevelEntries(ts[1..]), k);
      if k in KeysOf(ts[0].entries) {
        i := 0;
      } else {
        var j := KeyInSomeTable(ts[1..], k);
        i := j + 1;
      }
    }
  }

  /** Probing the one table whose range covers the key finds what the whole level holds for it. */
  lemma {:induction false} OneTablePerLevel(ts: seq<Table>, k: Key)
    requires DeepLevelOk(ts)
    ensures var t := FindTable(ts, k);
      Find(LevelEntries(ts), k) == if t.Some? then Find(t.value.entries, k) else None
    decreases |ts|
  {
    hide Less, Sorted;
    if ts != [] {
      var rest := ts[1..];
      DeepLevelTail(ts);
      FindAppend(ts[0].entries, LevelEntries(rest), k);
      if Covers(ts[0], k) {
        if k in KeysOf(LevelEntries(rest)) {
          var j := KeyInSomeTable(rest, k);
          CoversItsKeys(rest[j], k);
          RangesAreDisjoint(ts, 0, j + 1, k);
        }
      } else {
        OneTablePerLevel(rest, k);
        if k in KeysOf(ts[0].entries) {
          CoversItsKeys(ts[0], k);
        }
      }
    }
  }
}
