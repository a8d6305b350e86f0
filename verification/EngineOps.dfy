/** The engine's operations as compositions of steps, and what they promise together. */
module EngineOps {
  import opened Basics
  import opened Layers
  import opened MemTables
  import opened EngineModel
  import opened EngineProofs

  /** No flush and no compaction is under way. */
  predicate Quiet(s: State) {
    !s.published && s.job == None
  }

  function FlushOldest(cfg: Config, s: State): State
    requires s.imm != []
  {
    DoRetire(DoPublish(cfg, s))
  }

  /** Flush the oldest immutable memtables until at most `n` are left. */
  function Drain(cfg: Config, s: State, n: nat): State
    decreases |s.imm|
  {
    if |s.imm| > n then Drain(cfg, FlushOldest(cfg, s), n) else s
  }

  function RotateMemtable(cfg: Config, s: State): State {
    Drain(cfg, DoRotate(cfg, s), cfg.maxMemtables)
  }

  function CheckRotate(cfg: Config, s: State): State {
    if ShouldFlush(s.mem) then RotateMemtable(cfg, s) else s
  }

  function WriteOp(cfg: Config, s: State, key: Key, value: Option<Value>): State {
    DoWrite(CheckRotate(cfg, s), key, value)
  }

  function Compact(cfg: Config, s: State, l: nat): State {
    if TablesAt(s.levels, l) == [] then s else DoInstall(DoMerge(cfg, DoSnapshot(s, l)))
  }

  function LevelSize(ts: seq<Table>): nat {
    if ts == [] then 0 else LevelSize(ts[..|ts| - 1]) + ts[|ts| - 1].dataSize
  }

  function Power(b: nat, e: nat): nat {
    if e == 0 then 1 else b * Power(b, e - 1)
  }

  function LevelTargetSize(cfg: Config, l: nat): nat {
    if l == 0 then cfg.l0SstableSize * cfg.l0CompactionThreshold
    else cfg.l0SstableSize * Power(cfg.levelSizeMultiplier, l)
  }

  /** The data of two runs of tables adds up, and a single table counts as it is. */
  lemma {:induction false} LevelSizeAdds(a: seq<Table>, b: seq<Table>)
    ensures LevelSize(a + b) == LevelSize(a) + LevelSize(b)
    ensures forall t: Table :: LevelSize([t]) == t.dataSize
  {
    forall t: Table ensures LevelSize([t]) == t.dataSize {
      assert LevelSize([t][..0]) == 0;
    }
    if b == [] {
      assert a + b == a;
    } else {
      var n := |b| - 1;
      assert (a + b)[..|a + b| - 1] == a + b[..n];
      LevelSizeAdds(a, b[..n]);
    }
  }

  /**
    The sizes a level may have, level by level: a number of tables for level 0, the multiplier's worth of one table
    for level 1, and the multiplier times the level above for each deeper one.
   */
  ghost predicate TargetSizes(cfg: Config, sizes: seq<nat>) {
    && |sizes| == cfg.maxLevels >= 2
    && sizes[0] == cfg.l0SstableSize * cfg.l0CompactionThreshold
    && sizes[1] == cfg.l0SstableSize * cfg.levelSizeMultiplier
    && forall l :: 1 <= l < |sizes| - 1 ==> sizes[l + 1] == cfg.levelSizeMultiplier * sizes[l]
  }

  lemma TargetGrows(cfg: Config, l: nat)
    requires l >= 1
    ensures LevelTargetSize(cfg, 1) == cfg.l0SstableSize * cfg.levelSizeMultiplier
    ensures LevelTargetSize(cfg, l + 1) == cfg.levelSizeMultiplier * LevelTargetSize(cfg, l)
  {
    assert Power(cfg.levelSizeMultiplier, 1) == cfg.levelSizeMultiplier * Power(cfg.levelSizeMultiplier, 0);
    SwapFactors(cfg.l0SstableSize, cfg.levelSizeMultiplier, Power(cfg.levelSizeMultiplier, l));
  }

  lemma SwapFactors(a: nat, b: nat, c: nat)
    ensures a * (b * c) == b * (a * c)
  {
  }

  /** Those sizes are the targets, and the only ones of that kind. */
  lemma TargetSizesExactly(cfg: Config, sizes: seq<nat>)
    requires cfg.maxLevels >= 2
    ensures TargetSizes(cfg, sizes) <==>
      |sizes| == cfg.maxLevels && forall l :: 0 <= l < |sizes| ==> sizes[l] == LevelTargetSize(cfg, l)
  {
    hide LevelTargetSize;
    LevelZeroTarget(cfg);
    forall l: nat | l >= 1
      ensures LevelTargetSize(cfg, l + 1) == cfg.levelSizeMultiplier * LevelTargetSize(cfg, l)
    {
      TargetGrows(cfg, l);
    }
    TargetGrows(cfg, 1);
    if TargetSizes(cfg, sizes) {
      forall l | 0 <= l < |sizes| ensures sizes[l] == LevelTargetSize(cfg, l) {
        TargetSizeIs(cfg, sizes, l);
      }
    }
  }

  lemma LevelZeroTarget(cfg: Config)
    ensures LevelTargetSize(cfg, 0) == cfg.l0SstableSize * cfg.l0CompactionThreshold
  {
  }

  lemma {:induction false} TargetSizeIs(cfg: Config, sizes: seq<nat>, l: nat)
    requires TargetSizes(cfg, sizes) && l < |sizes|
    ensures sizes[l] == LevelTargetSize(cfg, l)
  {
    hide LevelTargetSize;
    LevelZeroTarget(cfg);
    TargetGrows(cfg, 1);
    if l > 1 {
      TargetSizeIs(cfg, sizes, l - 1);
      TargetGrows(cfg, l - 1);
      assert sizes[l - 1 + 1] == cfg.levelSizeMultiplier * sizes[l - 1];
    }
  }

  predicate NeedsCompaction(cfg: Config, s: State, l: nat) {
    LevelSize(TablesAt(s.levels, l)) > LevelTargetSize(cfg, l)
  }

  function CompactIfNeeded(cfg: Config, s: State, l: nat): State {
    if NeedsCompaction(cfg, s, l) then Compact(cfg, s, l) else s
  }

  function CompactL0IfNeeded(cfg: Config, s: State): State {
    if |TablesAt(s.levels, 0)| >= cfg.l0CompactionThreshold then Compact(cfg, s, 0) else s
  }

  /** The levels `1 .. to - 1` of a compaction pass, in ascending order. */
  function PassUpTo(cfg: Config, s: State, to: nat): State {
    if to <= 1 then CompactL0IfNeeded(cfg, s) else CompactIfNeeded(cfg, PassUpTo(cfg, s, to - 1), to - 1)
  }

  function CompactionPass(cfg: Config, s: State): State
    requires cfg.maxLevels >= 1
  {
    PassUpTo(cfg, s, cfg.maxLevels - 1)
  }

  // ---------- every operation keeps the invariant and changes only what it should ----------

  ghost predicate SameAnswers(cfg: Config, s: State, t: State) {
    forall k :: Get(cfg, t, k) == Get(cfg, s, k)
  }

  lemma InvAccounts(cfg: Config, s: State)
    requires Inv(cfg, s)
    ensures Accounted(s.mem)
    ensures forall i :: 0 <= i < |s.imm| ==> Accounted(s.imm[i])
    ensures cfg.Valid()
  {
  }

  lemma FlushOldestOk(cfg: Config, s: State)
    requires Inv(cfg, s) && Quiet(s) && s.imm != []
    ensures Inv(cfg, FlushOldest(cfg, s)) && Quiet(FlushOldest(cfg, s))
    ensures SameAnswers(cfg, s, FlushOldest(cfg, s))
  {
    hide Inv, Get;
    PublishKeepsInv(cfg, s);
    RetireKeepsInv(cfg, DoPublish(cfg, s));
  }

  lemma {:induction false} DrainOk(cfg: Config, s: State, n: nat)
    requires Inv(cfg, s) && Quiet(s)
    ensures Inv(cfg, Drain(cfg, s, n)) && Quiet(Drain(cfg, s, n))
    ensures SameAnswers(cfg, s, Drain(cfg, s, n))
    ensures Drain(cfg, s, n).mem == s.mem
    ensures Drain(cfg, s, n).imm == if |s.imm| > n then s.imm[|s.imm| - n..] else s.imm
    decreases |s.imm|
  {
    hide Inv, Get;
    if |s.imm| > n {
      FlushOldestOk(cfg, s);
      DrainOk(cfg, FlushOldest(cfg, s), n);
    }
  }

  lemma CheckRotateOk(cfg: Config, s: State)
    requires Inv(cfg, s) && Quiet(s)
    ensures Inv(cfg, CheckRotate(cfg, s)) && Quiet(CheckRotate(cfg, s))
    ensures SameAnswers(cfg, s, CheckRotate(cfg, s))
    ensures s.mem.maxSize == cfg.memtableSizeThreshold ==>
      CheckRotate(cfg, s).mem.size < cfg.memtableSizeThreshold == CheckRotate(cfg, s).mem.maxSize
    ensures s.mem.size < s.mem.maxSize ==> CheckRotate(cfg, s) == s
    ensures s.mem.size >= s.mem.maxSize ==> CheckRotate(cfg, s).mem.data == map[]
  {
    assert cfg.Valid();
    hide Inv, Get;
    if ShouldFlush(s.mem) {
      RotateKeepsInv(cfg, s);
      DrainOk(cfg, DoRotate(cfg, s), cfg.maxMemtables);
    }
  }

  /** The size limits `put` and `delete` enforce. */
  predicate WithinLimits(key: Key, value: Option<Value>) {
    |key| <= MAX_KEY_SIZE && (value.Some? ==> |value.value| <= MAX_VALUE_SIZE)
  }

  ghost predicate MemBounded(cfg: Config, s: State) {
    s.mem.maxSize == cfg.memtableSizeThreshold && s.mem.size < cfg.memtableSizeThreshold + MAX_ENTRY_SIZE
  }

  /**
    `put` and `delete`: the key gets the new value, no other key changes,
    and the memtable stays below its threshold plus one maximal entry.
   */
  lemma WriteOpOk(cfg: Config, s: State, key: Key, value: Option<Value>)
    requires Inv(cfg, s) && Quiet(s)
    ensures Inv(cfg, WriteOp(cfg, s, key, value)) && Quiet(WriteOp(cfg, s, key, value))
    ensures forall k :: (Get(cfg, WriteOp(cfg, s, key, value), k) == if k == key then value else Get(cfg, s, k))
    ensures MemBounded(cfg, s) && WithinLimits(key, value) ==> MemBounded(cfg, WriteOp(cfg, s, key, value))
  {
    var r := CheckRotate(cfg, s);
    CheckRotateOk(cfg, s);
    InsertKeepsAccounts(r.mem, key, value, r.clock);
    hide Inv, Get, Accounted, CheckRotate;
    WriteKeepsInv(cfg, r, key, value);
    forall k ensures Get(cfg, WriteOp(cfg, s, key, value), k) == if k == key then value else Get(cfg, s, k) {
      WriteChangesOneKey(cfg, r, key, value, k);
    }
  }

  /** A compaction answers every key as before, empties its upper level, and touches no other level than the two. */
  lemma CompactOk(cfg: Config, s: State, l: nat)
    requires Inv(cfg, s) && Quiet(s) && l + 1 < cfg.maxLevels
    ensures Inv(cfg, Compact(cfg, s, l)) && Quiet(Compact(cfg, s, l))
    ensures SameAnswers(cfg, s, Compact(cfg, s, l))
    ensures TablesAt(Compact(cfg, s, l).levels, l) == []
    ensures forall i: nat :: i != l && i != l + 1 ==> TablesAt(Compact(cfg, s, l).levels, i) == TablesAt(s.levels, i)
    ensures Compact(cfg, s, l).mem == s.mem && Compact(cfg, s, l).imm == s.imm
  {
    hide Inv, Get;
    if TablesAt(s.levels, l) != [] {
      SnapshotKeepsInv(cfg, s, l);
      MergeKeepsInv(cfg, DoSnapshot(s, l));
      InstallKeepsInv(cfg, DoMerge(cfg, DoSnapshot(s, l)));
    }
  }

  /** A compaction leaves no tombstone in the level it writes but those of keys that a deeper level knows. */
  lemma CompactDropsTombstones(cfg: Config, s: State, l: nat, e: Entry)
    requires TablesAt(s.levels, l) != []
    requires e in LevelEntries(TablesAt(Compact(cfg, s, l).levels, l + 1)) && e.value == None
    ensures Lookup(DeepLayers(s.levels, l + 2, cfg.maxLevels), e.key).Some?
  {
    hide LevelEntries, CreateTables, MergeTables;
    var j, keep := DoSnapshot(s, l).job.value, DeepKeys(s.levels, l + 2, cfg.maxLevels);
    var es := MergeTables(j.upper, j.lower, keep);
    CreateTablesCut(cfg, l + 1, es, s.clock);
    assert TablesAt(Compact(cfg, s, l).levels, l + 1) == CreateTables(cfg, l + 1, es, s.clock);
    OutputTombstones(j, keep, e);
    DeepKeysAreFound(s.levels, l + 2, cfg.maxLevels, e.key);
  }

  ghost predicate Settled(cfg: Config, s: State, to: nat) {
    && |TablesAt(s.levels, 0)| < cfg.l0CompactionThreshold
    && forall l: nat :: 1 <= l < to ==> !NeedsCompaction(cfg, s, l)
  }

  /** `t` is a sound state that answers like `s`, with the same memtables. */
  ghost predicate Tidied(cfg: Config, s: State, t: State) {
    Inv(cfg, t) && Quiet(t) && SameAnswers(cfg, s, t) && t.mem == s.mem && t.imm == s.imm
  }

  lemma CompactTidies(cfg: Config, s: State, l: nat)
    requires Inv(cfg, s) && Quiet(s) && l + 1 < cfg.maxLevels
    ensures Tidied(cfg, s, Compact(cfg, s, l))
    ensures Tidied(cfg, s, s)
  {
    hide Inv, Get, Compact;
    CompactOk(cfg, s, l);
  }

  lemma {:induction false} PassUpToOk(cfg: Config, s: State, to: nat)
    requires Inv(cfg, s) && Quiet(s) && 2 <= cfg.maxLevels && to + 1 <= cfg.maxLevels
    ensures Tidied(cfg, s, PassUpTo(cfg, s, to))
  {
    hide Inv, Get, Compact, NeedsCompaction;
    if to <= 1 {
      CompactTidies(cfg, s, 0);
    } else {
      var t := PassUpTo(cfg, s, to - 1);
      PassUpToOk(cfg, s, to - 1);
      CompactTidies(cfg, t, to - 1);
    }
  }

  lemma CompactIfNeededSettles(cfg: Config, s: State, l: nat)
    requires Inv(cfg, s) && Quiet(s) && 1 <= l && l + 1 < cfg.maxLevels && Settled(cfg, s, l)
    ensures Settled(cfg, CompactIfNeeded(cfg, s, l), l + 1)
  {
    CompactOk(cfg, s, l);
    hide Inv, Compact, LevelTargetSize;
    var t := CompactIfNeeded(cfg, s, l);
    forall i: nat | 1 <= i < l + 1 ensures !NeedsCompaction(cfg, t, i) {
      if i < l {
        assert !NeedsCompaction(cfg, s, i);
        assert TablesAt(t.levels, i) == TablesAt(s.levels, i);
      }
    }
  }

  lemma CompactL0Settles(cfg: Config, s: State)
    requires Inv(cfg, s) && Quiet(s)
    ensures forall to :: to <= 1 ==> Settled(cfg, CompactL0IfNeeded(cfg, s), to)
  {
    assert cfg.Valid();
    hide Inv, Compact;
    CompactOk(cfg, s, 0);
  }

  /** The ascending loop never refills a level it has passed. */
  lemma {:induction false} PassSettles(cfg: Config, s: State, to: nat)
    requires Inv(cfg, s) && Quiet(s) && 2 <= cfg.maxLevels && to + 1 <= cfg.maxLevels
    ensures Settled(cfg, PassUpTo(cfg, s, to), to)
  {
    hide Inv, Settled, CompactIfNeeded, SameAnswers, CompactL0IfNeeded;
    if to <= 1 {
      CompactL0Settles(cfg, s);
    } else {
      PassSettles(cfg, s, to - 1);
      PassUpToOk(cfg, s, to - 1);
      CompactIfNeededSettles(cfg, PassUpTo(cfg, s, to - 1), to - 1);
    }
  }

  /** Whether a pass compacts level `l` when it comes to it. */
  predicate CompactsAt(cfg: Config, s: State, l: nat) {
    if l == 0 then |TablesAt(s.levels, 0)| >= cfg.l0CompactionThreshold
    else NeedsCompaction(cfg, PassUpTo(cfg, s, l), l)
  }

  lemma PassIsSound(cfg: Config, s: State, upto: nat)
    requires Inv(cfg, s) && Quiet(s) && 2 <= cfg.maxLevels && upto + 1 <= cfg.maxLevels
    ensures Inv(cfg, PassUpTo(cfg, s, upto)) && Quiet(PassUpTo(cfg, s, upto))
  {
    hide Inv, SameAnswers, PassUpTo;
    PassUpToOk(cfg, s, upto);
  }

  /** A step of the pass touches no level but its own and the next. */
  lemma StepKeepsOthers(cfg: Config, s: State, l: nat, i: nat)
    requires Inv(cfg, s) && Quiet(s) && l + 1 < cfg.maxLevels && i != l && i != l + 1
    ensures TablesAt(CompactIfNeeded(cfg, s, l).levels, i) == TablesAt(s.levels, i)
    ensures l == 0 ==> TablesAt(CompactL0IfNeeded(cfg, s).levels, i) == TablesAt(s.levels, i)
  {
    hide Inv, Compact, SameAnswers, NeedsCompaction;
    CompactOk(cfg, s, l);
  }

  /** The levels below the last one a pass has fed are as they were. */
  lemma {:induction false} PassLeavesDeeper(cfg: Config, s: State, upto: nat, l: nat)
    requires Inv(cfg, s) && Quiet(s) && 1 <= upto < l && upto + 1 <= cfg.maxLevels
    ensures TablesAt(PassUpTo(cfg, s, upto).levels, l) == TablesAt(s.levels, l)
  {
    hide Inv, CompactIfNeeded, CompactL0IfNeeded;
    if upto == 1 {
      StepKeepsOthers(cfg, s, 0, l);
    } else {
      PassLeavesDeeper(cfg, s, upto - 1, l);
      PassIsSound(cfg, s, upto - 1);
      StepKeepsOthers(cfg, PassUpTo(cfg, s, upto - 1), upto - 1, l);
    }
  }

  /** What a pass has gone past it does not touch again. */
  lemma {:induction false} PassLeavesDone(cfg: Config, s: State, from: nat, upto: nat, l: nat)
    requires Inv(cfg, s) && Quiet(s) && 1 <= from <= upto && l < from && upto + 1 <= cfg.maxLevels
    ensures TablesAt(PassUpTo(cfg, s, upto).levels, l) == TablesAt(PassUpTo(cfg, s, from).levels, l)
    decreases upto
  {
    hide Inv, CompactIfNeeded, CompactL0IfNeeded;
    if from < upto {
      PassLeavesDone(cfg, s, from, upto - 1, l);
      PassIsSound(cfg, s, upto - 1);
      StepKeepsOthers(cfg, PassUpTo(cfg, s, upto - 1), upto - 1, l);
    }
  }

  /** A level within its size, and not fed from the level above, keeps its tables in a pass. */
  lemma PassKeepsLevel(cfg: Config, s: State, l: nat)
    requires Inv(cfg, s) && Quiet(s) && 1 <= l < cfg.maxLevels
    requires !CompactsAt(cfg, s, l - 1)
    requires l <= cfg.maxLevels - 2 ==> LevelSize(TablesAt(s.levels, l)) <= LevelTargetSize(cfg, l)
    ensures TablesAt(CompactionPass(cfg, s).levels, l) == TablesAt(s.levels, l)
  {
    hide Inv, Compact, LevelSize, LevelTargetSize;
    assert PassUpTo(cfg, s, l) == if l == 1 then s else PassUpTo(cfg, s, l - 1);
    if l > 1 { PassLeavesDeeper(cfg, s, l - 1, l); }
    if l <= cfg.maxLevels - 2 {
      assert PassUpTo(cfg, s, l + 1) == PassUpTo(cfg, s, l);
      PassLeavesDone(cfg, s, l + 1, cfg.maxLevels - 1, l);
    }
  }

  lemma PassKeepsLevelZero(cfg: Config, s: State)
    requires Inv(cfg, s) && Quiet(s) && cfg.maxLevels >= 2 && !CompactsAt(cfg, s, 0)
    ensures TablesAt(CompactionPass(cfg, s).levels, 0) == TablesAt(s.levels, 0)
  {
    hide Inv, Compact;
    PassLeavesDone(cfg, s, 1, cfg.maxLevels - 1, 0);
  }

  /** Level 0 below its threshold and the levels `1 .. n` within their sizes: a pass leaves all of them alone. */
  ghost predicate NothingToDo(cfg: Config, levels: Levels, n: nat) {
    && |TablesAt(levels, 0)| < cfg.l0CompactionThreshold
    && forall l: nat :: 1 <= l <= n && l <= cfg.maxLevels - 2 ==> LevelSize(TablesAt(levels, l)) <= LevelTargetSize(cfg, l)
  }

  lemma {:induction false} PassDoesNothing(cfg: Config, s: State, n: nat)
    requires NothingToDo(cfg, s.levels, n) && n + 2 <= cfg.maxLevels
    ensures PassUpTo(cfg, s, n + 1) == s
  {
    hide LevelSize, LevelTargetSize, Compact;
    if n > 0 {
      PassDoesNothing(cfg, s, n - 1);
    }
  }

  lemma PassKeepsQuietLevels(cfg: Config, s: State, n: nat, l: nat)
    requires Inv(cfg, s) && Quiet(s) && NothingToDo(cfg, s.levels, n) && l <= n && l < cfg.maxLevels
    ensures TablesAt(CompactionPass(cfg, s).levels, l) == TablesAt(s.levels, l)
  {
    assert cfg.Valid();
    hide Inv, Compact, LevelSize, LevelTargetSize, PassUpTo;
    if l == 0 {
      PassKeepsLevelZero(cfg, s);
    } else {
      QuietAbove(cfg, s, n, l);
      PassKeepsLevel(cfg, s, l);
    }
  }

  lemma QuietAbove(cfg: Config, s: State, n: nat, l: nat)
    requires NothingToDo(cfg, s.levels, n) && 1 <= l <= n && l < cfg.maxLevels
    ensures !CompactsAt(cfg, s, l - 1)
  {
    hide LevelSize, LevelTargetSize, Compact;
    if l > 1 {
      PassDoesNothing(cfg, s, l - 2);
    }
  }

  /**
    After a compaction pass level 0 holds fewer tables than the threshold and every level from 1 to
    `maxLevels - 2` is within its target size; no answer changed.
   */
  lemma CompactionPassSettles(cfg: Config, s: State)
    requires Inv(cfg, s) && Quiet(s)
    ensures Inv(cfg, CompactionPass(cfg, s)) && Quiet(CompactionPass(cfg, s))
    ensures SameAnswers(cfg, s, CompactionPass(cfg, s))
    ensures |TablesAt(CompactionPass(cfg, s).levels, 0)| < cfg.l0CompactionThreshold
    ensures forall l: nat :: 1 <= l <= cfg.maxLevels - 2 ==>
      LevelSize(TablesAt(CompactionPass(cfg, s).levels, l)) <= LevelTargetSize(cfg, l)
  {
    assert cfg.Valid();
    hide Inv, PassUpTo, LevelSize, LevelTargetSize;
    PassUpToOk(cfg, s, cfg.maxLevels - 1);
    PassSettles(cfg, s, cfg.maxLevels - 1);
    forall l: nat | 1 <= l <= cfg.maxLevels - 2
      ensures LevelSize(TablesAt(CompactionPass(cfg, s).levels, l)) <= LevelTargetSize(cfg, l)
    {
      assert !NeedsCompaction(cfg, CompactionPass(cfg, s), l);
    }
  }

  /** Level 0 is below its threshold and the levels `1 .. n` that a pass looks at are within the given sizes. */
  ghost predicate QuietUpTo(cfg: Config, levels: Levels, sizes: seq<nat>, n: nat) {
    && |TablesAt(levels, 0)| < cfg.l0CompactionThreshold
    && forall l: nat :: 1 <= l <= n && l <= cfg.maxLevels - 2 && l < |sizes| ==> LevelSize(TablesAt(levels, l)) <= sizes[l]
  }

  /** A pass against explicit sizes: every level it looks at ends within its size, and what was quiet is left alone. */
  lemma PassAgainstSizes(cfg: Config, s: State, sizes: seq<nat>)
    requires Inv(cfg, s) && Quiet(s) && TargetSizes(cfg, sizes)
    ensures QuietUpTo(cfg, CompactionPass(cfg, s).levels, sizes, cfg.maxLevels)
    ensures forall n: nat, l: nat :: QuietUpTo(cfg, s.levels, sizes, n) && l <= n && l < cfg.maxLevels ==>
      TablesAt(CompactionPass(cfg, s).levels, l) == TablesAt(s.levels, l)
  {
    assert cfg.Valid();
    hide Inv, PassUpTo, LevelSize, LevelTargetSize, SameAnswers, TargetSizes;
    TargetSizesExactly(cfg, sizes);
    CompactionPassSettles(cfg, s);
    forall n: nat, l: nat | QuietUpTo(cfg, s.levels, sizes, n) && l <= n && l < cfg.maxLevels
      ensures TablesAt(CompactionPass(cfg, s).levels, l) == TablesAt(s.levels, l)
    {
      PassKeepsQuietLevels(cfg, s, n, l);
    }
  }
}
