/** Runs from an empty engine in which a literal line of the source loses or undoes a write. */
module DefectRuns {
  import opened Basics
  import opened Sorting
  import opened Layers
  import opened MemTables
  import opened Packing
  import opened EngineModel
  import opened EngineProofs
  import opened EngineRuns
  import opened EngineOps
  import opened EngineDefects
  import opened Reopening
  import opened Scanning

  function Put(k: Key, v: Value): Step {
    Step.Write(k, Some(v))
  }

  lemma ExecNext(cfg: Config, run: seq<Step>, step: Step)
    ensures Exec(cfg, run + [step]) == Attempt(cfg, Exec(cfg, run), step)
    ensures Plain(run + [step]) == Apply(Plain(run), step)
  {
    assert (run + [step])[..|run|] == run;
  }

  // ---------- flushing ----------

  /** Write a key, rotate: in the literal window of the flush the key reads as absent. */
  lemma FlushWindowRun(cfg: Config, k: Key, v: Value)
    requires cfg.Valid()
    ensures var s := Exec(cfg, [Put(k, v), Rotate]);
      s.imm != [] && Get(cfg, s, k) == Some(v) && Get(cfg, RemovedFirst(s), k) == None
  {
    hide Inv, Get, PlainGet;
    var s1 := Exec(cfg, [] + [Put(k, v)]);
    ExecNext(cfg, [], Put(k, v));
    ExecNext(cfg, [Put(k, v)], Rotate);
    assert [] + [Put(k, v)] == [Put(k, v)];
    assert [Put(k, v)] + [Rotate] == [Put(k, v), Rotate];
    var s := Exec(cfg, [Put(k, v), Rotate]);
    assert s == DoRotate(cfg, DoWrite(Init(cfg), k, Some(v)));
    InitInv(cfg);
    WriteKeepsInv(cfg, Init(cfg), k, Some(v));
    WriteChangesOneKey(cfg, Init(cfg), k, Some(v), k);
    RotateKeepsInv(cfg, DoWrite(Init(cfg), k, Some(v)));
    SameProbe(cfg, RemovedFirst(s), Init(cfg), k);
  }

  lemma SameProbe(cfg: Config, s: State, t: State, k: Key)
    requires s.mem.data == t.mem.data && s.imm == t.imm && s.levels == t.levels
    ensures Get(cfg, s, k) == Get(cfg, t, k)
  {
  }

  // ---------- installing ----------

  /** While a compaction of level 0 runs, a key is written and flushed. */
  function FlushedMeanwhile(cfg: Config, s: State, k: Key, v: Value): State
    requires TablesAt(s.levels, 0) != []
  {
    DoRetire(DoPublish(cfg, DoRotate(cfg, DoWrite(DoMerge(cfg, DoSnapshot(s, 0)), k, Some(v)))))
  }

  lemma FlushedMeanwhileOk(cfg: Config, s: State, k: Key, v: Value)
    requires Inv(cfg, s) && Quiet(s) && s.imm == [] && TablesAt(s.levels, 0) != []
    ensures var t := FlushedMeanwhile(cfg, s, k, v);
      Inv(cfg, t) && Enabled(cfg, t, Install) && Get(cfg, t, k) == Some(v)
  {
    assert cfg.Valid();
    MeanwhileShape(cfg, s, k, v);
    hide Inv, Get, DoSnapshot, DoMerge, DoWrite, DoRotate, DoPublish, DoRetire, Enabled;
    var begun := DoSnapshot(s, 0);
    var merged := DoMerge(cfg, begun);
    var written := DoWrite(merged, k, Some(v));
    var rotated := DoRotate(cfg, written);
    SnapshotKeepsInv(cfg, s, 0);
    MergeKeepsInv(cfg, begun);
    WriteKeepsInv(cfg, merged, k, Some(v));
    WriteChangesOneKey(cfg, merged, k, Some(v), k);
    RotateKeepsInv(cfg, written);
    PublishKeepsInv(cfg, rotated);
    RetireKeepsInv(cfg, DoPublish(cfg, rotated));
  }

  /** Which steps are possible along the way. */
  lemma MeanwhileShape(cfg: Config, s: State, k: Key, v: Value)
    requires Quiet(s) && s.imm == [] && TablesAt(s.levels, 0) != [] && cfg.maxLevels >= 2
    ensures Enabled(cfg, s, Snapshot(0)) && Enabled(cfg, DoSnapshot(s, 0), Merge)
    ensures var rotated := DoRotate(cfg, DoWrite(DoMerge(cfg, DoSnapshot(s, 0)), k, Some(v)));
      && rotated.imm != [] && !rotated.published
      && DoPublish(cfg, rotated).imm != [] && DoPublish(cfg, rotated).published
    ensures Enabled(cfg, FlushedMeanwhile(cfg, s, k, v), Install)
  {
    hide CreateTables, MergeOutput, AppendFlush;
  }

  /** What is on disk after the literal install was there had the write never happened. */
  lemma SameLevelsWithoutWrite(cfg: Config, s: State, k: Key, v: Value)
    requires Quiet(s) && s.imm == [] && TablesAt(s.levels, 0) != []
    ensures var t, merged := FlushedMeanwhile(cfg, s, k, v), DoMerge(cfg, DoSnapshot(s, 0));
      && LiteralInstall(t).levels == DoInstall(merged).levels
      && LiteralInstall(t).mem.data == map[] && LiteralInstall(t).imm == []
  {
    hide CreateTables, MergeOutput;
    var rotated := DoRotate(cfg, DoWrite(DoMerge(cfg, DoSnapshot(s, 0)), k, Some(v)));
    PublishTouchesLevelZero(cfg, rotated, []);
    var upper := TablesAt(s.levels, 0);
    assert upper[|upper|..] == [];
  }

  lemma PublishTouchesLevelZero(cfg: Config, s: State, ts: seq<Table>)
    requires s.imm != []
    ensures DoPublish(cfg, s).levels[0 := ts] == s.levels[0 := ts]
  {
  }

  /** The literal install then forgets that write: every key reads as it did before the compaction began. */
  lemma LiteralInstallForgetsWrite(cfg: Config, s: State, k: Key, v: Value)
    requires Inv(cfg, s) && Quiet(s) && s.mem.data == map[] && s.imm == [] && TablesAt(s.levels, 0) != []
    ensures var t := FlushedMeanwhile(cfg, s, k, v);
      && Inv(cfg, t) && Enabled(cfg, t, Install)
      && Get(cfg, t, k) == Some(v)
      && forall x :: Get(cfg, LiteralInstall(t), x) == Get(cfg, s, x)
  {
    assert cfg.Valid();
    FlushedMeanwhileOk(cfg, s, k, v);
    hide Inv, Get, CreateTables, MergeOutput, FlushedMeanwhile, LiteralInstall;
    var t, merged := FlushedMeanwhile(cfg, s, k, v), DoMerge(cfg, DoSnapshot(s, 0));
    SameLevelsWithoutWrite(cfg, s, k, v);
    SnapshotKeepsInv(cfg, s, 0);
    MergeKeepsInv(cfg, DoSnapshot(s, 0));
    InstallKeepsInv(cfg, merged);
    forall x ensures Get(cfg, LiteralInstall(t), x) == Get(cfg, s, x) {
      SameProbe(cfg, LiteralInstall(t), DoInstall(merged), x);
    }
  }

  /** The state after writing one key and flushing it, from an empty engine. */
  function OneFlushed(cfg: Config, k: Key, v: Value): State {
    FlushOldest(cfg, DoRotate(cfg, DoWrite(Init(cfg), k, Some(v))))
  }

  lemma OneFlushedOk(cfg: Config, k: Key, v: Value)
    requires cfg.Valid()
    ensures var s := OneFlushed(cfg, k, v);
      && Inv(cfg, s) && Quiet(s) && s.mem.data == map[] && s.imm == [] && TablesAt(s.levels, 0) != []
      && forall x :: Get(cfg, s, x) == if x == k then Some(v) else None
  {
    var s0, written := Init(cfg), DoWrite(Init(cfg), k, Some(v));
    FlushedOnce(cfg, s0, k, Some(v));
    InitInv(cfg);
    hide Inv, Get, DoWrite, DoRotate;
    WriteKeepsInv(cfg, s0, k, Some(v));
    RotateKeepsInv(cfg, written);
    RotatedShape(cfg, k, v);
    FlushOldestOk(cfg, DoRotate(cfg, written));
    forall x ensures Get(cfg, written, x) == if x == k then Some(v) else None {
      WriteChangesOneKey(cfg, s0, k, Some(v), x);
    }
  }

  lemma RotatedShape(cfg: Config, k: Key, v: Value)
    ensures var r := DoRotate(cfg, DoWrite(Init(cfg), k, Some(v)));
      Quiet(r) && |r.imm| == 1
  {
  }

  /** The run: flush one key, begin a compaction, flush another key, install literally. The second key is lost. */
  lemma LiteralInstallRun(cfg: Config, a: Key, u: Value, k: Key, v: Value)
    requires cfg.Valid() && a != k
    ensures var flush, begin := [Rotate, Publish, Retire], [Snapshot(0), Merge];
      var t := Exec(cfg, [Put(a, u)] + flush + begin + [Put(k, v)] + flush);
      && Enabled(cfg, t, Install)
      && Get(cfg, t, k) == Some(v) && Get(cfg, LiteralInstall(t), k) == None
  {
    var flush, begin: seq<Step> := [Rotate, Publish, Retire], [Snapshot(0), Merge];
    var first: seq<Step> := [Put(a, u)];
    var s := OneFlushed(cfg, a, u);
    OneFlushedOk(cfg, a, u);
    OneFlushedRun(cfg, a, u);
    assert cfg.maxLevels >= 2;
    hide Inv, Get, Exec, OneFlushed, FlushedMeanwhile, LiteralInstall, Enabled;
    MeanwhileRun(cfg, first + flush, k, v);
    LiteralInstallForgetsWrite(cfg, s, k, v);
  }

  lemma OneFlushedRun(cfg: Config, k: Key, v: Value)
    ensures Exec(cfg, [Put(k, v)] + [Rotate, Publish, Retire]) == OneFlushed(cfg, k, v)
  {
    ExecNext(cfg, [], Put(k, v));
    assert [] + [Put(k, v)] == [Put(k, v)];
    hide Exec, DoPublish, DoRetire, DoRotate;
    assert Exec(cfg, [Put(k, v)]) == DoWrite(Init(cfg), k, Some(v)) by { ExecNothing(cfg); }
    FlushRun(cfg, [Put(k, v)]);
  }

  lemma ExecNothing(cfg: Config)
    ensures Exec(cfg, []) == Init(cfg)
  {
  }

  lemma MeanwhileRun(cfg: Config, run: seq<Step>, k: Key, v: Value)
    requires Quiet(Exec(cfg, run)) && Exec(cfg, run).imm == [] && TablesAt(Exec(cfg, run).levels, 0) != []
    requires cfg.maxLevels >= 2
    ensures Exec(cfg, run + [Snapshot(0), Merge] + [Put(k, v)] + [Rotate, Publish, Retire])
      == FlushedMeanwhile(cfg, Exec(cfg, run), k, v)
  {
    hide Exec, CreateTables, MergeOutput, AppendFlush;
    BeginRun(cfg, run);
    ExecNext(cfg, run + [Snapshot(0), Merge], Put(k, v));
    FlushRun(cfg, run + [Snapshot(0), Merge] + [Put(k, v)]);
  }

  /** The three steps of rotating and flushing, when no other memtable waits. */
  lemma FlushRun(cfg: Config, run: seq<Step>)
    requires Exec(cfg, run).imm == [] && !Exec(cfg, run).published
    ensures Exec(cfg, run + [Rotate, Publish, Retire]) == FlushOldest(cfg, DoRotate(cfg, Exec(cfg, run)))
  {
    hide Exec, Plain, AppendFlush;
    ExecNext(cfg, run, Rotate);
    ExecNext(cfg, run + [Rotate], Publish);
    ExecNext(cfg, run + [Rotate] + [Publish], Retire);
    assert run + [Rotate] + [Publish] + [Retire] == run + [Rotate, Publish, Retire];
  }

  lemma BeginRun(cfg: Config, run: seq<Step>)
    requires Enabled(cfg, Exec(cfg, run), Snapshot(0))
    ensures Exec(cfg, run + [Snapshot(0), Merge]) == DoMerge(cfg, DoSnapshot(Exec(cfg, run), 0))
  {
    hide Exec, Plain, DoMerge;
    ExecNext(cfg, run, Snapshot(0));
    ExecNext(cfg, run + [Snapshot(0)], Merge);
    assert run + [Snapshot(0)] + [Merge] == run + [Snapshot(0), Merge];
  }

  /** A memtable of one entry, rotated and flushed: the newest table of level 0 holds just that entry. */
  lemma FlushOneEntry(cfg: Config, s: State, start: nat, e: Entry)
    requires s.mem.data == map[e.key := e] && s.mem.count == 1 && s.imm == [] && !s.published
    ensures var t := FlushOldest(cfg, RotateFrom(cfg, s, start));
      && t.levels == WithNewest(s.levels, Table([e], s.clock, cfg.dataSize([e])))
      && t.mem == EmptyMem(cfg.memtableSizeThreshold, start)
      && t.imm == [] && !t.published && t.job == s.job && t.clock == s.clock + 1 && t.counter == s.counter + 1
  {
    OneWritten(e);
  }

  lemma FlushedOnce(cfg: Config, s: State, k: Key, v: Option<Value>)
    requires s.mem.data == map[] && s.mem.count == 0 && s.imm == [] && !s.published
    ensures var e := Entry(k, v, s.clock, s.mem.next);
      var t := FlushOldest(cfg, DoRotate(cfg, DoWrite(s, k, v)));
      && t.levels == WithNewest(s.levels, Table([e], s.clock + 1, cfg.dataSize([e])))
      && t.mem.data == map[] && t.mem.count == 0 && t.imm == [] && !t.published && t.job == s.job
  {
    var written := DoWrite(s, k, v);
    FlushOneEntry(cfg, written, Max(written.counter, written.mem.next), Entry(k, v, s.clock, s.mem.next));
  }

  // ---------- rotating ----------

  /** The literal rotation, which numbers from the engine's counter, and a flush. */
  function LiteralFlush(cfg: Config, s: State): State {
    FlushOldest(cfg, RotateFrom(cfg, s, s.counter))
  }

  /** Two writes of a key, a literal rotation and flush, an update of the key, and another one. */
  function UpdatedAcrossRotation(cfg: Config, k: Key, u: Value, v: Value, w: Value): State {
    var first := LiteralFlush(cfg, DoWrite(DoWrite(Init(cfg), k, Some(u)), k, Some(v)));
    LiteralFlush(cfg, DoWrite(first, k, Some(w)))
  }

  lemma UpdatedShape(cfg: Config, k: Key, u: Value, v: Value, w: Value)
    ensures var s := UpdatedAcrossRotation(cfg, k, u, v, w);
      var older, newer := Entry(k, Some(v), 1, 1), Entry(k, Some(w), 3, 1);
      && s.levels == map[0 := [Table([older], 2, cfg.dataSize([older])), Table([newer], 4, cfg.dataSize([newer]))]]
      && s.mem.data == map[] && s.imm == [] && Quiet(s)
  {
    hide SortedEntries;
    var written := DoWrite(DoWrite(Init(cfg), k, Some(u)), k, Some(v));
    var older, newer := Entry(k, Some(v), 1, 1), Entry(k, Some(w), 3, 1);
    assert written.mem.data == map[k := older];
    FlushOneEntry(cfg, written, 1, older);
    var first := LiteralFlush(cfg, written);
    var a, b := Table([older], 2, cfg.dataSize([older])), Table([newer], 4, cfg.dataSize([newer]));
    assert [] + [a] == [a] && [a] + [b] == [a, b];
    assert first.levels == map[0 := [a]];
    FlushOneEntry(cfg, DoWrite(first, k, Some(w)), 2, newer);
  }

  /** The compaction of that level 0 writes the older version only. */
  lemma CompactionKeepsOlder(cfg: Config, s: State, a: Table, b: Table, older: Entry, newer: Entry)
    requires a.entries == [older] && b.entries == [newer] && s.levels == map[0 := [a, b]]
    requires older.key == newer.key && older.sequence == newer.sequence && older.value.Some?
    ensures Compact(cfg, s, 0).levels == map[0 := [], 1 := [Table([older], s.clock, cfg.dataSize([older]))]]
  {
    hide HighestPerKey, LevelEntries, SortedEntries, Greedy, Place;
    EqualNumbersLoseTheUpdate(a, b, older, newer);
    assert TablesAt(s.levels, 1) == [] && [a, b] + [] == [a, b];
    var keep := DeepKeys(s.levels, 2, cfg.maxLevels);
    assert DropTombstones(map[older.key := older], keep) == map[older.key := older];
    OneWritten(older);
    assert MergeTables([a, b], [], keep) == [older];
    OnePiece(older, TargetSize(cfg, 1));
    assert CreateTables(cfg, 1, [older], s.clock) == [Table([older], s.clock, cfg.dataSize([older]))];
    assert [a, b][2..] == [];
  }

  lemma OnePiece(e: Entry, limit: nat)
    ensures Greedy([e], EntrySize, limit) == [[e]]
  {
    GreedyNext([e], 0, EntrySize, limit);
    assert [e][..0] == [] && [e][..1] == [e];
  }

  /** The run: the update reads back until a compaction of level 0 undoes it. */
  lemma LiteralRotationRun(cfg: Config, k: Key, u: Value, v: Value, w: Value)
    requires cfg.maxLevels >= 2
    ensures var s := UpdatedAcrossRotation(cfg, k, u, v, w);
      && Enabled(cfg, s, Snapshot(0))
      && Get(cfg, s, k) == Some(w)
      && Get(cfg, Compact(cfg, s, 0), k) == Some(v)
  {
    hide UpdatedAcrossRotation, HighestPerKey, LevelEntries, Compact;
    UpdatedShape(cfg, k, u, v, w);
    var s := UpdatedAcrossRotation(cfg, k, u, v, w);
    var older, newer := Entry(k, Some(v), 1, 1), Entry(k, Some(w), 3, 1);
    var a, b := s.levels[0][0], s.levels[0][1];
    EqualNumbersLoseTheUpdate(a, b, older, newer);
    CompactionKeepsOlder(cfg, s, a, b, older, newer);
    ReadsFromLevelZero(cfg, s, k);
    CompactKeepsMemory(cfg, s);
    ReadsFromLevelOne(cfg, Compact(cfg, s, 0), older);
  }

  lemma CompactKeepsMemory(cfg: Config, s: State)
    ensures Compact(cfg, s, 0).mem == s.mem && Compact(cfg, s, 0).imm == s.imm
  {
  }

  lemma ReadsFromLevelZero(cfg: Config, s: State, k: Key)
    requires s.mem.data == map[] && s.imm == [] && Lookup(NewestTables(TablesAt(s.levels, 0)), k).Some?
    ensures Get(cfg, s, k) == Visible(NewestTables(TablesAt(s.levels, 0)), k)
  {
    hide NewestTables, DeepLayers;
    var l0, deep := NewestTables(TablesAt(s.levels, 0)), DeepLayers(s.levels, 1, cfg.maxLevels);
    NoMems();
    assert Probe(cfg, s) == [map[]] + (l0 + deep);
    LookupCons(map[], l0 + deep, k);
    LookupAppend(l0, deep, k);
  }

  lemma NoMems()
    ensures NewestMems([]) == []
  {
  }

  lemma ReadsFromLevelOne(cfg: Config, s: State, e: Entry)
    requires cfg.maxLevels >= 2 && s.mem.data == map[] && s.imm == [] && TablesAt(s.levels, 0) == []
    requires |TablesAt(s.levels, 1)| == 1 && TablesAt(s.levels, 1)[0].entries == [e]
    ensures Get(cfg, s, e.key) == e.value
  {
    hide LevelEntries, DeepLayers, ToMap;
    NoMems();
    NoLayers();
    var below := DeepLayers(s.levels, 2, cfg.maxLevels);
    DeepHead(s.levels, 1, cfg.maxLevels);
    SingleTable(TablesAt(s.levels, 1)[0]);
    SingletonMap(e);
    assert TablesAt(s.levels, 1) == [TablesAt(s.levels, 1)[0]];
    assert Probe(cfg, s) == [map[]] + ([map[e.key := e]] + below);
    LookupCons(map[], [map[e.key := e]] + below, e.key);
    LookupCons(map[e.key := e], below, e.key);
  }

  lemma DeepHead(levels: Levels, from: nat, upto: nat)
    requires from < upto
    ensures DeepLayers(levels, from, upto) == [LevelLayer(TablesAt(levels, from))] + DeepLayers(levels, from + 1, upto)
  {
  }

  // ---------- reopening ----------

  /** Two writes of a key, then close, reopen literally and update the key. */
  function UpdatedAfterReopening(cfg: Config, k: Key, u: Value, v: Value, w: Value): State {
    var s := DoWrite(DoWrite(Init(cfg), k, Some(u)), k, Some(v));
    WrittenAfterReopening(cfg, ClosedLevels(cfg, s), ClosedClock(cfg, s), k, Some(w))
  }

  /** The run: the update reads back, but what a scan collects for the key is the value from before the restart. */
  lemma LiteralReopenRun(cfg: Config, k: Key, u: Value, v: Value, w: Value)
    requires cfg.maxLevels >= 1
    ensures var t := UpdatedAfterReopening(cfg, k, u, v, w);
      && Get(cfg, t, k) == Some(w)
      && HighestPerKey(Visited(cfg, t)) == map[k := Entry(k, Some(v), 1, 1)]
  {
    hide SortedEntries, HighestPerKey, LevelEntries, TablesBelow, Get;
    var s := DoWrite(DoWrite(Init(cfg), k, Some(u)), k, Some(v));
    var older, newer := Entry(k, Some(v), 1, 1), Entry(k, Some(w), 3, 0);
    var a := Table([older], 2, cfg.dataSize([older]));
    OneWritten(older);
    OneWritten(newer);
    assert s.mem.data == map[k := older] && [] + [a] == [a];
    assert ClosedLevels(cfg, s) == map[0 := [a]] && ClosedClock(cfg, s) == 3;
    LiteralReopenScanExactly(cfg, map[0 := [a]], 3, k, Some(w));
    OnlyLevelZeroTables([a], cfg.maxLevels);
    SingleTable(a);
    assert Visited(cfg, UpdatedAfterReopening(cfg, k, u, v, w)) == [newer] + [older];
    HigherReplaces(newer, older);
  }

  lemma {:induction false} OnlyLevelZeroTables(ts: seq<Table>, limit: nat)
    requires limit >= 1
    ensures TablesBelow(map[0 := ts], limit) == ts
  {
    if limit > 1 {
      OnlyLevelZeroTables(ts, limit - 1);
    } else {
      assert TablesBelow(map[0 := ts], 0) == [];
    }
  }

  lemma HigherReplaces(first: Entry, second: Entry)
    requires first.key == second.key && first.sequence < second.sequence
    ensures HighestPerKey([first] + [second]) == map[second.key := second]
  {
    var es := [first] + [second];
    assert es[..|es| - 1] == [first] && es[|es| - 1] == second;
    assert [first][..|[first]| - 1] == [] && [first][|[first]| - 1] == first;
    assert HighestPerKey([first]) == Offer(map[], first);
  }

  // ---------- a store of one level ----------

  /** The run with one level: flush a key, compact. The key is lost. */
  lemma OneLevelRun(cfg: Config, k: Key, v: Value)
    requires cfg.maxLevels == 1
    ensures var s := Exec(cfg, [Put(k, v), Rotate, Publish, Retire]);
      && TablesAt(s.levels, 0) != []
      && Get(cfg, s, k) == Some(v) && Get(cfg, CompactKeeping(cfg, s, 0, {}), k) == None
  {
    OneFlushedRun(cfg, k, v);
    assert [Put(k, v)] + [Rotate, Publish, Retire] == [Put(k, v), Rotate, Publish, Retire];
    var s := OneFlushed(cfg, k, v);
    FlushedOnce(cfg, Init(cfg), k, Some(v));
    hide Get, Exec, OneFlushed, CompactKeeping;
    var e := Entry(k, Some(v), 0, 0);
    assert TablesAt(s.levels, 0) == [Table([e], 1, cfg.dataSize([e]))];
    SingletonMap(e);
    assert NewestTables(TablesAt(s.levels, 0)) == [map[k := e]];
    LookupCons(map[k := e], [], k);
    assert [map[k := e]] + [] == [map[k := e]];
    ReadsFromLevelZero(cfg, s, k);
    OnlyMemoryAnswers(cfg, s, {}, k);
    NoMems();
    assert Memory(s) == [map[]] + [];
    LookupCons(map[], [], k);
  }
}
