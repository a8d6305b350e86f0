/**
  The engine's reads through table files. The engine object holds tables as entry lists; here every table of a
  state is written to the bytes of a file and opened, and `get` goes through the readers.
 */
module FileReads {
  import opened Basics
  import opened ByteOrder
  import opened Sorting
  import opened MemTables
  import opened EngineModel
  import EngineRuns
  import opened Probing
  import opened Bloom
  import opened TableFormat
  import opened TableOpening
  import opened TableContents
  import opened TableReader
  import opened TableObjects

  // ---------- readers and the entries they stand for ----------

  /** The reader is sound, answers from exactly these entries, and knows their key range. */
  ghost predicate Holds(r: SSTableReader, es: seq<Entry>)
    reads r, r.bloomFilter, if r.bloomFilter == null then {} else {r.bloomFilter.bits}
  {
    && r.Valid() && Readable(r.View()) && Contents(r.View()) == es
    && es != [] && r.minKey == es[0].key && r.maxKey == es[|es| - 1].key
  }

  ghost predicate AllHold(held: map<SSTableReader, seq<Entry>>)
    reads held.Keys, set r | r in held && r.bloomFilter != null :: r.bloomFilter,
          set r | r in held && r.bloomFilter != null :: r.bloomFilter.bits
  {
    forall r :: r in held ==> Holds(r, held[r])
  }

  /** These readers stand for these tables, one by one. */
  ghost predicate Backs(held: map<SSTableReader, seq<Entry>>, files: seq<SSTableReader>, ts: seq<Table>) {
    |files| == |ts| && forall i :: 0 <= i < |files| ==> files[i] in held && held[files[i]] == ts[i].entries
  }

  /** One table, as `get` asks it: the filter first, then the table. No read of a sound table fails. */
  method GetFromTable(r: SSTableReader, key: Key, ghost held: map<SSTableReader, seq<Entry>>)
    returns (e: Result<Option<Entry>>)
    requires AllHold(held) && r in held
    modifies r`blockCache
    ensures AllHold(held)
    ensures e == Ok(Find(held[r], key))
  {
    hide Readable, Contents, SSTableReader.Valid, Find, MightContain;
    assert Holds(r, held[r]);
    var maybe := r.MightContainKey(key);
    if maybe {
      e := r.Get(key);
    } else {
      DeniedKey(r.View(), key);
      e := Ok(None);
    }
    assert Holds(r, held[r]);
  }

  // ---------- the one table of a deeper level ----------

  lemma {:induction false} FirstCovering(ts: seq<Table>, k: Key, i: nat)
    requires i <= |ts| && forall j :: 0 <= j < |ts| ==> ts[j].entries != []
    requires forall j :: 0 <= j < i ==> !EngineRuns.Covers(ts[j], k)
    ensures i < |ts| && EngineRuns.Covers(ts[i], k) ==> EngineRuns.FindTable(ts, k) == Some(ts[i])
    ensures i == |ts| ==> EngineRuns.FindTable(ts, k) == None
    decreases i
  {
    hide EngineRuns.Covers;
    if i > 0 {
      assert forall j :: 0 <= j < |ts| - 1 ==> ts[1..][j] == ts[j + 1];
      FirstCovering(ts[1..], k, i - 1);
    }
  }

  /** `find_sstable_for_key` on the readers' key ranges. */
  method FindReader(files: seq<SSTableReader>, key: Key, ghost held: map<SSTableReader, seq<Entry>>, ghost ts: seq<Table>)
    returns (i: nat)
    requires AllHold(held) && Backs(held, files, ts) && forall j :: 0 <= j < |ts| ==> ts[j].entries != []
    ensures i <= |files|
    ensures EngineRuns.FindTable(ts, key) == if i < |files| then Some(ts[i]) else None
  {
    hide Readable, Contents, SSTableReader.Valid, Less, EngineRuns.FindTable;
    i := 0;
    while i < |files|
      invariant i <= |files| && forall j :: 0 <= j < i ==> !EngineRuns.Covers(ts[j], key)
    {
      assert Holds(files[i], held[files[i]]);
      if !Less(key, files[i].minKey) && !Less(files[i].maxKey, key) {
        break;
      }
      i := i + 1;
    }
    FirstCovering(ts, key, i);
  }

  // ---------- the whole search ----------

  method FindInMemory(cfg: Config, s: State, key: Key) returns (e: Option<Entry>)
    ensures e.Some? ==> Get(cfg, s, key) == e.value.value
    ensures e == None ==> NotInMemory(s, key)
  {
    hide Get;
    if key in s.mem.data {
      FoundInMem(cfg, s, key);
      return Some(s.mem.data[key]);
    }
    for i := |s.imm| downto 0
      invariant forall j :: i <= j < |s.imm| ==> key !in s.imm[j].data
    {
      if key in s.imm[i].data {
        FoundInImmutable(cfg, s, key, i);
        return Some(s.imm[i].data[key]);
      }
    }
    e := None;
  }

  /** Level 0, newest first. */
  method FindInLevelZero(files: seq<SSTableReader>, key: Key, ghost held: map<SSTableReader, seq<Entry>>,
      ghost ts: seq<Table>)
    returns (e: Result<Option<Entry>>, ghost at: nat)
    requires AllHold(held) && Backs(held, files, ts)
    modifies held.Keys
    ensures AllHold(held) && e.Ok?
    ensures match e.value
      case Some(x) =>
        && at < |ts| && key in ToMap(ts[at].entries) && x == ToMap(ts[at].entries)[key]
        && forall j :: at < j < |ts| ==> key !in ToMap(ts[j].entries)
      case None => forall j :: 0 <= j < |ts| ==> key !in ToMap(ts[j].entries)
  {
    hide AllHold, ToMap, Find;
    at := 0;
    for i := |files| downto 0
      invariant AllHold(held) && forall j :: i <= j < |ts| ==> key !in ToMap(ts[j].entries)
    {
      e := GetFromTable(files[i], key, held);
      FoundOrNot(ts[i].entries, key);
      if e.value.Some? {
        return e, i;
      }
    }
    e := Ok(None);
  }

  lemma FoundOrNot(es: seq<Entry>, k: Key)
    ensures k in ToMap(es) <==> Find(es, k).Some?
    ensures k in ToMap(es) ==> ToMap(es)[k] == Find(es, k).value
  {
  }

  lemma AtLeastTwoLevels(cfg: Config, s: State)
    requires Inv(cfg, s)
    ensures cfg.maxLevels >= 2
  {
  }

  /** `get` of a state whose tables are all files: memtables first, then the readers level by level. */
  method GetThroughFiles(cfg: Config, s: State, files: map<nat, seq<SSTableReader>>, key: Key,
      ghost held: map<SSTableReader, seq<Entry>>)
    returns (r: Result<Option<Value>>)
    requires Inv(cfg, s) && AllHold(held)
    requires files.Keys == s.levels.Keys && forall l :: l in files ==> Backs(held, files[l], s.levels[l])
    modifies held.Keys
    ensures AllHold(held)
    ensures r == Ok(Get(cfg, s, key))
  {
    hide Inv, Accounted, Find, ToMap, Holds, AllHold, Get, EngineRuns.FindTable;
    var memory := FindInMemory(cfg, s, key);
    if memory.Some? {
      return Ok(memory.value.value);
    }
    AtLeastTwoLevels(cfg, s);
    for level := 0 to cfg.maxLevels
      invariant NotAbove(cfg, s, key, level) && AllHold(held)
    {
      if level in files {
        if level == 0 {
          var e, at := FindInLevelZero(files[0], key, held, s.levels[0]);
          if e.value.Some? {
            FoundInL0(cfg, s, key, at);
            return Ok(e.value.value.value);
          }
        } else {
          DeepTables(cfg, s, level);
          var i := FindReader(files[level], key, held, s.levels[level]);
          EngineRuns.OneTablePerLevel(s.levels[level], key);
          if i < |files[level]| {
            var e := GetFromTable(files[level][i], key, held);
            if e.value.Some? {
              HitEntries(LevelEntries(s.levels[level]), key);
              FoundDeep(cfg, s, key, level);
              return Ok(e.value.value.value);
            }
          }
        }
      }
      NextLevel(cfg, s, key, level);
    }
    FoundNowhere(cfg, s, key);
    r := Ok(None);
  }

  // ---------- writing the tables of a state ----------

  /** The widths of the format, and the decompression cap, suffice for the table written with these parameters. */
  ghost predicate Storable(p: Params, t: Table) {
    TableFits(p, t.entries) && p.codec.Sound() && EntriesDecompress(p, t.entries)
  }

  ghost predicate AllStorable(params: Table -> Params, ts: seq<Table>) {
    forall i :: 0 <= i < |ts| ==> TableOk(ts[i]) && Storable(params(ts[i]), ts[i])
  }

  /** Every table of a level through a file of its own. */
  method OpenLevel(params: Table -> Params, ts: seq<Table>)
    returns (files: seq<SSTableReader>, ghost held: map<SSTableReader, seq<Entry>>)
    requires AllStorable(params, ts)
    ensures AllHold(held) && Backs(held, files, ts)
    ensures fresh(held.Keys)
  {
    hide Readable, Contents, SSTableReader.Valid, Sorted, TableFits, EntriesDecompress, Codec.Sound, AllHold;
    files, held := [], map[];
    NobodyHolds();
    for i := 0 to |ts|
      invariant fresh(held.Keys) && AllHold(held) && Backs(held, files, ts[..i])
    {
      assert TableOk(ts[i]) && Storable(params(ts[i]), ts[i]);
      var reader := WriteAndOpen(params(ts[i]), ts[i].entries);
      OneMoreHolds(held, reader, ts[i].entries);
      files, held := files + [reader], held[reader := ts[i].entries];
    }
    assert ts[..|ts|] == ts;
  }

  lemma NobodyHolds()
    ensures AllHold(map[])
  {
  }

  lemma OneMoreHolds(held: map<SSTableReader, seq<Entry>>, r: SSTableReader, es: seq<Entry>)
    requires AllHold(held) && Holds(r, es)
    ensures AllHold(held[r := es])
  {
    hide Holds;
  }

  /** Every table of every level. */
  method OpenLevels(params: Table -> Params, levels: Levels)
    returns (files: map<nat, seq<SSTableReader>>, ghost held: map<SSTableReader, seq<Entry>>)
    requires forall l :: l in levels ==> AllStorable(params, levels[l])
    ensures AllHold(held) && fresh(held.Keys)
    ensures files.Keys == levels.Keys && forall l :: l in files ==> Backs(held, files[l], levels[l])
  {
    hide Holds, AllStorable;
    files, held := map[], map[];
    var todo := levels.Keys;
    while todo != {}
      invariant fresh(held.Keys) && AllHold(held)
      invariant todo <= levels.Keys && files.Keys == levels.Keys - todo
      invariant forall l :: l in files ==> Backs(held, files[l], levels[l])
      decreases |todo|
    {
      var l :| l in todo;
      todo := todo - {l};
      var more, new_ := OpenLevel(params, levels[l]);
      files, held := files[l := more], held + new_;
    }
  }

  /**
    One table through a file: point reads, range reads and iteration over the bytes give what a search,
    a slice and the list of its entries give.
   */
  method TableThroughFile(p: Params, t: Table, key: Key, start: Key, end: Key)
    returns (found: Result<Option<Entry>>, part: Result<seq<Entry>>, all: Result<seq<Entry>>)
    requires TableOk(t) && Storable(p, t)
    ensures found == Ok(Find(t.entries, key))
    ensures part == Ok(Slice(t.entries, start, end))
    ensures all == Ok(t.entries)
  {
    hide Readable, Contents, SSTableReader.Valid, Sorted, TableFits, EntriesDecompress, Codec.Sound;
    var reader := WriteAndOpen(p, t.entries);
    found := reader.Get(key);
    part := reader.Range(start, end);
    all := CollectEntries(reader);
  }

  /**
    Any run of the interleaved engine, every table of its state written to a file and opened again:
    reading through the files gives what a plain map updated by the same writes holds.
   */
  method ReadThroughFiles(cfg: Config, params: Table -> Params, run: seq<EngineModel.Step>, key: Key)
    returns (r: Result<Option<Value>>)
    requires cfg.Valid()
    requires forall l: nat, i :: 0 <= i < |TablesAt(EngineRuns.Exec(cfg, run).levels, l)| ==>
      Storable(params(TablesAt(EngineRuns.Exec(cfg, run).levels, l)[i]), TablesAt(EngineRuns.Exec(cfg, run).levels, l)[i])
    ensures r == Ok(EngineRuns.PlainGet(EngineRuns.Plain(run), key))
  {
    hide Storable, Inv, Get, EngineRuns.Exec, AllHold;
    var s := EngineRuns.Exec(cfg, run);
    EngineRuns.EngineIsPlainMap(cfg, run);
    forall l | l in s.levels ensures AllStorable(params, s.levels[l]) {
      TablesAreOk(cfg, s, l);
      assert s.levels[l] == TablesAt(s.levels, l);
    }
    var files, held := OpenLevels(params, s.levels);
    r := GetThroughFiles(cfg, s, files, key, held);
  }

  lemma TablesAreOk(cfg: Config, s: State, l: nat)
    requires Inv(cfg, s)
    ensures forall i :: 0 <= i < |TablesAt(s.levels, l)| ==> TableOk(TablesAt(s.levels, l)[i])
  {
    if 1 <= l < cfg.maxLevels { assert DeepLevelOk(TablesAt(s.levels, l)); }
    if l >= cfg.maxLevels { assert TablesAt(s.levels, l) == []; }
  }
}
