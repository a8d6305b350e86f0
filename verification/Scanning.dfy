/** What a range scan collects, and how it relates to point reads. */
module Scanning {
  import opened Basics
  import opened ByteOrder
  import opened Sorting
  import opened Layers
  import opened MemTables
  import opened Packing
  import opened EngineModel
  import opened EngineProofs

  type Found = map<Key, (Value, nat)>

  /** How `scan` records a version: a tombstone becomes an empty value. */
  function Recorded(m: Layer): Found {
    map k | k in m :: (OrEmpty(m[k].value), m[k].sequence)
  }

  /** Recording one more version. */
  lemma RecordOffer(m: Layer, e: Entry)
    ensures Recorded(Offer(m, e)) ==
      if e.key in m && e.sequence <= m[e.key].sequence then Recorded(m)
      else Recorded(m)[e.key := (OrEmpty(e.value), e.sequence)]
  {
  }

  function OrEmpty(v: Option<Value>): Value {
    if v.Some? then v.value else []
  }

  /** `r` lists, by ascending key, exactly the non-empty values in the range that `get` returns. */
  ghost predicate IsScan(ls: seq<Layer>, lo: Key, hi: Key, r: seq<(Key, Value)>) {
    && (forall i, j :: 0 <= i < j < |r| ==> Before(r[i].0, r[j].0))
    && (forall k, v :: (k, v) in r <==> InRange(k, lo, hi) && Visible(ls, k) == Some(v) && v != [])
  }

  /** Collecting the highest sequence number per key agrees with probing by position. */
  lemma CollectAgreesWithLookup(ls: seq<Layer>, all: seq<Entry>, lo: Key, hi: Key)
    requires FirstIsHighest(ls)
    requires forall e :: e in all <==> Stored(ls, e)
    ensures var m := HighestPerKey(Slice(all, lo, hi));
      && WellKeyed(m)
      && (forall k :: k in m <==> Within(k, lo, hi) && Lookup(ls, k).Some?)
      && (forall k :: k in m ==> Lookup(ls, k) == Some(m[k]))
  {
    var part := Slice(all, lo, hi);
    var m := HighestPerKey(part);
    SliceMembers(all, lo, hi);
    HighestPerKeyCorrect(part);
    forall k ensures k in m <==> Within(k, lo, hi) && Lookup(ls, k).Some?
             ensures k in m ==> Lookup(ls, k) == Some(m[k])
    {
      LookupIsStored(ls, k);
      if k in m { assert m[k] in part && Stored(ls, m[k]); }
      if Within(k, lo, hi) && Lookup(ls, k).Some? { assert Lookup(ls, k).value in part; }
    }
  }

  /** The list `scan` returns, given what it recorded: empty values are filtered out. */
  function Report(found: Found): seq<(Key, Value)> {
    Pairs(SortedEntries(Reported(found)))
  }

  function Reported(found: Found): Layer {
    map k | k in found && found[k].0 != [] :: Entry(k, Some(found[k].0), 0, found[k].1)
  }

  function Pairs(es: seq<Entry>): seq<(Key, Value)> {
    seq(|es|, i requires 0 <= i < |es| => (es[i].key, OrEmpty(es[i].value)))
  }

  lemma ReportMembers(live: Layer, k: Key, v: Value)
    requires WellKeyed(live)
    ensures (k, v) in Pairs(SortedEntries(live)) <==> k in live && OrEmpty(live[k].value) == v
  {
    hide SortedEntries, Sorted, ToMap;
    var es := SortedEntries(live);
    SortedEntriesCorrect(live);
    SortedMembers(es, live);
    PairMembers(es, k, v);
    assert k in live ==> live[k].key == k;
  }

  lemma PairMembers(es: seq<Entry>, k: Key, v: Value)
    ensures (k, v) in Pairs(es) <==> exists e :: e in es && e.key == k && OrEmpty(e.value) == v
  {
    var r := Pairs(es);
    if (k, v) in r {
      var i :| 0 <= i < |r| && r[i] == (k, v);
      assert es[i] in es;
    }
    if e :| e in es && e.key == k && OrEmpty(e.value) == v {
      var i :| 0 <= i < |es| && es[i] == e;
      assert r[i] == (k, v);
    }
  }

  lemma ReportIsScan(ls: seq<Layer>, all: seq<Entry>, lo: Key, hi: Key)
    requires FirstIsHighest(ls)
    requires forall e :: e in all <==> Stored(ls, e)
    ensures IsScan(ls, lo, hi, Report(Recorded(HighestPerKey(Slice(all, lo, hi)))))
  {
    hide FirstIsHighest, HighestPerKey, Slice, Stored, Report, Within, Less, InRange, Before;
    WithinIsInRange(lo, hi);
    LessIsLexicographic();
    var m := HighestPerKey(Slice(all, lo, hi));
    CollectAgreesWithLookup(ls, all, lo, hi);
    ReportAscends(Recorded(m));
    forall k, v ensures (k, v) in Report(Recorded(m)) <==> InRange(k, lo, hi) && Visible(ls, k) == Some(v) && v != [] {
      ReportHas(Recorded(m), k, v);
    }
  }

  lemma ReportAscends(found: Found)
    ensures forall i, j :: 0 <= i < j < |Report(found)| ==> Less(Report(found)[i].0, Report(found)[j].0)
  {
    hide Less, SortedEntries, ToMap;
    SortedEntriesCorrect(Reported(found));
  }

  lemma ReportHas(found: Found, k: Key, v: Value)
    ensures (k, v) in Report(found) <==> k in found && found[k].0 == v && v != []
  {
    hide SortedEntries, Pairs;
    ReportMembers(Reported(found), k, v);
  }

  /**
    `scan` returns every pair in the range that `get` would return exactly when no key in the range
    currently holds an empty value: the scan cannot tell an empty value from a deletion.
   */
  lemma ScanIsCompleteExactly(ls: seq<Layer>, lo: Key, hi: Key, r: seq<(Key, Value)>)
    requires IsScan(ls, lo, hi, r)
    ensures (forall k, v :: (k, v) in r <==> InRange(k, lo, hi) && Visible(ls, k) == Some(v))
      <==> (forall k :: InRange(k, lo, hi) ==> Visible(ls, k) != Some([]))
  {
    hide InRange;
    if forall k, v :: (k, v) in r <==> InRange(k, lo, hi) && Visible(ls, k) == Some(v) {
      forall k | InRange(k, lo, hi) ensures Visible(ls, k) != Some([]) {
        assert (k, []) !in r;
      }
    }
  }

  /** A scan is determined by what point reads return. */
  lemma ScanIsUnique(ls: seq<Layer>, lo: Key, hi: Key, a: seq<(Key, Value)>, b: seq<(Key, Value)>)
    requires IsScan(ls, lo, hi, a) && IsScan(ls, lo, hi, b)
    ensures a == b
  {
    hide InRange, Less, Before;
    LessIsLexicographic();
    forall p ensures p in a <==> p in b {
      assert (p.0, p.1) in a <==> (p.0, p.1) in b;
    }
    SamePairs(a, b);
  }

  lemma HasMember<T>(s: seq<T>)
    requires s != []
    ensures exists x :: x in s
  {
    assert s[0] in s;
  }

  lemma {:induction false} SamePairs(a: seq<(Key, Value)>, b: seq<(Key, Value)>)
    requires forall i, j :: 0 <= i < j < |a| ==> Less(a[i].0, a[j].0)
    requires forall i, j :: 0 <= i < j < |b| ==> Less(b[i].0, b[j].0)
    requires forall p :: p in a <==> p in b
    ensures a == b
    decreases |a|
  {
    if a != [] { HasMember(a); }
    if b != [] { HasMember(b); }
    if a != [] && b != [] {
      assert a[0] in b;
      assert b[0] in a;
      LessIsStrictTotalOrder();
      assert a[0] == b[0];
      forall p ensures p in a[1..] <==> p in b[1..] {
        if p in a[1..] { assert p in a && Less(a[0].0, p.0); assert p in b; }
        if p in b[1..] { assert p in b && Less(b[0].0, p.0); assert p in a; }
      }
      SamePairs(a[1..], b[1..]);
    }
  }

  // ---------- everything a scan visits ----------

  /** The tables of levels `0 .. limit - 1`, in the order a scan visits them. */
  function TablesBelow(levels: Levels, limit: nat): seq<Table> {
    if limit == 0 then [] else TablesBelow(levels, limit - 1) + TablesAt(levels, limit - 1)
  }

  lemma {:induction false} StoredBelow(cfg: Config, levels: Levels, clock: nat, limit: nat, e: Entry)
    requires LevelsOk(cfg, levels, clock) && 1 <= limit <= cfg.maxLevels
    ensures e in LevelEntries(TablesBelow(levels, limit)) <==> Stored(Disk(levels, limit), e)
    decreases limit
  {
    hide Sorted, Flatten, EntryLists, ToMap, NewestTables, Stored;
    var ts, l := TablesAt(levels, limit - 1), limit - 1;
    if l == 0 {
      assert TablesBelow(levels, 0) == [];
      assert TablesBelow(levels, 1) == TablesAt(levels, 0);
      StoredInTables(TablesAt(levels, 0), e);
      assert Disk(levels, 1) == NewestTables(TablesAt(levels, 0));
    } else {
      StoredBelow(cfg, levels, clock, l, e);
      LevelEntriesAppend(TablesBelow(levels, l), ts);
      DeepSplit(levels, 1, l, limit);
      assert DeepLayers(levels, l, limit) == [LevelLayer(ts)];
      assert Disk(levels, limit) == Disk(levels, l) + [LevelLayer(ts)];
      StoredAppend(Disk(levels, l), [LevelLayer(ts)], e);
      assert DeepLevelOk(ts);
      StoredInList(LevelEntries(ts), e);
    }
  }

  lemma StoredInMem(m: Layer, e: Entry)
    requires WellKeyed(m)
    ensures e in SortedEntries(m) <==> Stored([m], e)
  {
    SortedEntriesCorrect(m);
    StoredInList(SortedEntries(m), e);
  }

  /** The entries of the memtable and the immutable memtables from number `from` on, in the order a scan visits them. */
  function MemEntries(s: State, from: nat): seq<Entry>
    requires from <= |s.imm|
    decreases |s.imm| - from
  {
    if from == |s.imm| then SortedEntries(s.mem.data)
    else MemEntries(s, from + 1) + SortedEntries(s.imm[from].data)
  }

  lemma {:induction false} StoredInMemory(s: State, from: nat, e: Entry)
    requires MemsOk(s) && from <= |s.imm|
    ensures e in MemEntries(s, from) <==> Stored([s.mem.data] + NewestMems(s.imm[from..]), e)
    decreases |s.imm| - from
  {
    hide SortedEntries, Stored, ToMap;
    if from == |s.imm| {
      assert Accounted(s.mem);
      StoredInMem(s.mem.data, e);
      assert [s.mem.data] + NewestMems(s.imm[from..]) == [s.mem.data];
    } else {
      var m := s.imm[from];
      assert Accounted(m);
      StoredInMemory(s, from + 1, e);
      StoredInMem(m.data, e);
      assert s.imm[from..] == [m] + s.imm[from + 1..];
      NewestMemsAppend([m], s.imm[from + 1..]);
      var above := [s.mem.data] + NewestMems(s.imm[from + 1..]);
      assert NewestMems([m]) == [m.data];
      assert [s.mem.data] + NewestMems(s.imm[from..]) == above + [m.data];
      StoredAppend(above, [m.data], e);
    }
  }

  /** Everything a scan visits is exactly everything `get` could probe. */
  lemma ScanVisitsEverything(cfg: Config, s: State, e: Entry)
    requires Inv(cfg, s)
    ensures e in MemEntries(s, 0) + LevelEntries(TablesBelow(s.levels, cfg.maxLevels)) <==> Stored(Probe(cfg, s), e)
  {
    hide MemEntries, LevelEntries, TablesBelow, Stored, Disk, StackOk, FlushOk, CompactionOk;
    var mems, disk := [s.mem.data] + NewestMems(s.imm), Disk(s.levels, cfg.maxLevels);
    StoredInMemory(s, 0, e);
    assert s.imm[0..] == s.imm;
    StoredBelow(cfg, s.levels, s.clock, cfg.maxLevels, e);
    assert Probe(cfg, s) == mems + disk;
    StoredAppend(mems, disk, e);
  }

  /** In every sound state, also in the middle of a flush or a compaction, a scan lists what point reads return. */
  lemma ScanReports(cfg: Config, s: State, lo: Key, hi: Key)
    requires Inv(cfg, s)
    ensures var all := MemEntries(s, 0) + LevelEntries(TablesBelow(s.levels, cfg.maxLevels));
      IsScan(Probe(cfg, s), lo, hi, Report(Recorded(HighestPerKey(Slice(all, lo, hi)))))
  {
    hide MemEntries, LevelEntries, TablesBelow, Stored, Disk;
    hide FlushOk, CompactionOk, IsScan, HighestPerKey, MemsOk, LevelsOk;
    var all := MemEntries(s, 0) + LevelEntries(TablesBelow(s.levels, cfg.maxLevels));
    forall e ensures e in all <==> Stored(Probe(cfg, s), e) { ScanVisitsEverything(cfg, s, e); }
    ProbeIsFirstHighest(cfg, s);
    ReportIsScan(Probe(cfg, s), all, lo, hi);
  }

  // ---------- numbering after a restart ----------

  /** The first number above every sequence in the list. */
  function NextNumber(es: seq<Entry>): (n: nat)
    ensures forall e :: e in es ==> e.sequence < n
  {
    if es == [] then 0 else Max(NextNumber(es[..|es| - 1]), es[|es| - 1].sequence + 1)
  }

  lemma NextNumberIsAbove(cfg: Config, levels: Levels, clock: nat)
    requires LevelsOk(cfg, levels, clock) && cfg.maxLevels >= 1
    ensures Below(Disk(levels, cfg.maxLevels), NextNumber(LevelEntries(TablesBelow(levels, cfg.maxLevels))))
  {
    hide LevelEntries, TablesBelow, LevelsOk, Disk;
    var disk: seq<Layer>, n := Disk(levels, cfg.maxLevels), NextNumber(LevelEntries(TablesBelow(levels, cfg.maxLevels)));
    DiskWellKeyed(levels, cfg.maxLevels);
    forall i: nat, k: Key | i < |disk| && k in disk[i] ensures disk[i][k].sequence < n {
      assert disk[i][k].key == k;
      StoredBelow(cfg, levels, clock, cfg.maxLevels, disk[i][k]);
    }
    forall i | 0 <= i < |disk| ensures LayerBelow(disk[i], n) {
    }
  }

  lemma DiskWellKeyed(levels: Levels, limit: nat)
    ensures forall i :: 0 <= i < |Disk(levels, limit)| ==> WellKeyed(Disk(levels, limit)[i])
  {
    var l0, deep := NewestTables(TablesAt(levels, 0)), DeepLayers(levels, 1, limit);
    DeepWellKeyed(levels, 1, limit);
    forall i | 0 <= i < |Disk(levels, limit)| ensures WellKeyed(Disk(levels, limit)[i]) {
      assert Disk(levels, limit)[i] == if i < |l0| then l0[i] else deep[i - |l0|];
      if i < |l0| {
        var t := TablesAt(levels, 0)[|l0| - 1 - i];
        assert WellKeyed(ToMap(t.entries));
      }
    }
  }

  lemma {:induction false} DeepWellKeyed(levels: Levels, from: nat, limit: nat)
    ensures forall i :: 0 <= i < |DeepLayers(levels, from, limit)| ==> WellKeyed(DeepLayers(levels, from, limit)[i])
    decreases if from < limit then limit - from else 0
  {
    if from < limit {
      DeepWellKeyed(levels, from + 1, limit);
    }
  }
}
