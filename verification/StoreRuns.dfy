/** The store as its clients use it, over any sequence of operations and restarts. */
module StoreRuns {
  import opened Basics
  import opened ByteOrder
  import opened Sorting
  import opened Layers
  import opened EngineModel
  import opened EngineRuns
  import opened EngineOps
  import opened Scanning
  import opened Reopening

  datatype Op = Put(key: Key, value: Value) | Delete(key: Key) | RunCompaction | Restart

  /** Close, list the directory, open again: numbering resumes above everything stored. */
  function RestartState(cfg: Config, s: State): State {
    var levels := ClosedLevels(cfg, s);
    Reopened(cfg, levels, ClosedClock(cfg, s), NextNumber(LevelEntries(TablesBelow(levels, cfg.maxLevels))))
  }

  /** Writes beyond the size limits are refused and change nothing. */
  function Do(cfg: Config, s: State, op: Op): State
    requires cfg.maxLevels >= 1
  {
    match op
    case Put(k, v) => if WithinLimits(k, Some(v)) then WriteOp(cfg, s, k, Some(v)) else s
    case Delete(k) => if WithinLimits(k, None) then WriteOp(cfg, s, k, None) else s
    case RunCompaction => CompactionPass(cfg, s)
    case Restart => RestartState(cfg, s)
  }

  function DoAll(cfg: Config, ops: seq<Op>): State
    requires cfg.maxLevels >= 1
  {
    if ops == [] then Init(cfg) else Do(cfg, DoAll(cfg, ops[..|ops| - 1]), ops[|ops| - 1])
  }

  /** The reference: a plain map that accepts keys of a kilobyte and values of a megabyte at most. */
  function Reference(ops: seq<Op>): map<Key, Value> {
    if ops == [] then map[] else Refer(Reference(ops[..|ops| - 1]), ops[|ops| - 1])
  }

  function Refer(m: map<Key, Value>, op: Op): map<Key, Value> {
    match op
    case Put(k, v) => if |k| <= 1024 && |v| <= 1048576 then m[k := v] else m
    case Delete(k) => if |k| <= 1024 then m - {k} else m
    case RunCompaction => m
    case Restart => m
  }

  ghost predicate Good(cfg: Config, s: State) {
    Inv(cfg, s) && Quiet(s) && MemBounded(cfg, s)
  }

  lemma RestartOk(cfg: Config, s: State)
    requires Inv(cfg, s) && Quiet(s)
    ensures Good(cfg, RestartState(cfg, s)) && SameAnswers(cfg, s, RestartState(cfg, s))
  {
    var levels, clock := ClosedLevels(cfg, s), ClosedClock(cfg, s);
    hide Inv, Get, ClosedLevels, ClosedClock, LevelEntries;
    CloseMakesDurable(cfg, s);
    NextNumberIsAbove(cfg, levels, clock);
    ReopenedExactly(cfg, levels, clock, s.mem.next, NextNumber(LevelEntries(TablesBelow(levels, cfg.maxLevels))));
  }

  lemma DoOk(cfg: Config, s: State, op: Op)
    requires Good(cfg, s) && cfg.maxLevels >= 1
    ensures Good(cfg, Do(cfg, s, op))
    ensures forall m :: (forall k :: Get(cfg, s, k) == PlainGet(m, k)) ==>
      (forall k :: Get(cfg, Do(cfg, s, op), k) == PlainGet(Refer(m, op), k))
  {
    hide Inv, Get, WriteOp, PassUpTo, RestartState, MemBounded;
    match op
    case Put(k, v) => WriteOpOk(cfg, s, k, Some(v));
    case Delete(k) => WriteOpOk(cfg, s, k, None);
    case RunCompaction => PassKeepsMemory(cfg, s);
    case Restart => RestartOk(cfg, s);
  }

  lemma PassKeepsMemory(cfg: Config, s: State)
    requires Good(cfg, s) && cfg.maxLevels >= 1
    ensures Good(cfg, CompactionPass(cfg, s)) && SameAnswers(cfg, s, CompactionPass(cfg, s))
  {
    hide Inv, PassUpTo, Get;
    InvAccounts(cfg, s);
    CompactionPassSettles(cfg, s);
    PassUpToOk(cfg, s, cfg.maxLevels - 1);
  }

  lemma InitGood(cfg: Config)
    requires cfg.Valid()
    ensures Good(cfg, Init(cfg))
    ensures forall k :: Get(cfg, Init(cfg), k) == None
  {
    hide Inv, Get;
    InitInv(cfg);
  }

  /**
    Over any sequence of puts, deletes, compaction passes and restarts, the store reads as a plain map that saw
    only the puts and deletes, and the memtable stays below its threshold plus one maximal entry.
   */
  lemma {:induction false} StoreIsPlainMap(cfg: Config, ops: seq<Op>)
    requires cfg.Valid()
    ensures Good(cfg, DoAll(cfg, ops))
    ensures forall k :: Get(cfg, DoAll(cfg, ops), k) == PlainGet(Reference(ops), k)
  {
    hide Good, Get, Do, Init, Refer;
    if ops == [] {
      InitGood(cfg);
    } else {
      StoreIsPlainMap(cfg, ops[..|ops| - 1]);
      DoOk(cfg, DoAll(cfg, ops[..|ops| - 1]), ops[|ops| - 1]);
    }
  }

  /**
    In every reachable state of the interleaved engine, also halfway through a flush or a compaction, what a scan
    collects by highest sequence number is the plain map's non-empty values of the range, in key order.
   */
  lemma ScanOverAnyRun(cfg: Config, run: seq<Step>, lo: Key, hi: Key)
    requires cfg.Valid()
    ensures var s := Exec(cfg, run);
      var all := MemEntries(s, 0) + LevelEntries(TablesBelow(s.levels, cfg.maxLevels));
      var r := Report(Recorded(HighestPerKey(Slice(all, lo, hi))));
      && (forall i, j :: 0 <= i < j < |r| ==> Before(r[i].0, r[j].0))
      && (forall k, v :: (k, v) in r <==> InRange(k, lo, hi) && k in Plain(run) && Plain(run)[k] == v && v != [])
  {
    hide Probe, Exec, Inv, InRange, Before, Plain, MemEntries;
    hide LevelEntries, TablesBelow, Report, Recorded, HighestPerKey, Slice;
    EngineIsPlainMap(cfg, run);
    var s := Exec(cfg, run);
    ScanReports(cfg, s, lo, hi);
    forall k ensures Visible(Probe(cfg, s), k) == PlainGet(Plain(run), k) {
      assert Get(cfg, s, k) == PlainGet(Plain(run), k);
    }
  }

  /** A scan of the store lists the plain map's non-empty values of the range, in key order. */
  lemma ScanIsPlainRange(cfg: Config, ops: seq<Op>, lo: Key, hi: Key, r: seq<(Key, Value)>)
    requires cfg.Valid() && IsScan(Probe(cfg, DoAll(cfg, ops)), lo, hi, r)
    ensures forall k, v :: (k, v) in r <==> InRange(k, lo, hi) && k in Reference(ops) && Reference(ops)[k] == v && v != []
  {
    hide Probe, DoAll, Good, InRange, Reference;
    StoreIsPlainMap(cfg, ops);
    forall k ensures Visible(Probe(cfg, DoAll(cfg, ops)), k) == PlainGet(Reference(ops), k) {
      assert Get(cfg, DoAll(cfg, ops), k) == PlainGet(Reference(ops), k);
    }
  }
}
