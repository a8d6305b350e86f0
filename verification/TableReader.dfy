/** The table reader: open, point lookup, range, block cache and iteration over the bytes of a file. */
module TableReader {
  import opened Basics
  import opened ByteOrder
  import opened Sorting
  import opened Packing
  import opened Serialization
  import opened Bloom
  import opened TableFormat
  import opened TableOpening
  import opened TableContents

  // ---------- decoding with a cursor ----------

  method ReadKey(d: Deserializer) returns (r: Result<Key>)
    requires d.Valid()
    modifies d
    ensures d.Valid()
    ensures r == match GetKey(old(d.Rest())) { case Ok(p) => Ok(p.0) case Err(e) => Err(e) }
    ensures r.Ok? ==> d.Rest() == GetKey(old(d.Rest())).value.1
  {
    hide FromLittleEndian;
    var n :- d.ReadInt(4);
    r := d.ReadBytes(n);
  }

  method ReadValue(d: Deserializer, key: Key) returns (r: Result<Entry>)
    requires d.Valid()
    modifies d
    ensures d.Valid()
    ensures r == match GetValue(key, old(d.Rest())) { case Ok(p) => Ok(p.0) case Err(e) => Err(e) }
    ensures r.Ok? ==> d.Rest() == GetValue(key, old(d.Rest())).value.1
  {
    hide FromLittleEndian;
    var has :- d.ReadInt(1);
    var value: Option<Value> := None;
    if has != 0 {
      var n :- d.ReadInt(4);
      var v :- d.ReadBytes(n);
      value := Some(v);
    }
    var timestamp :- d.ReadInt(8);
    var sequence :- d.ReadInt(8);
    r := Ok(Entry(key, value, timestamp, sequence));
  }

  method PassValue(d: Deserializer) returns (r: Result<()>)
    requires d.Valid()
    modifies d
    ensures d.Valid()
    ensures r == match SkipValue(old(d.Rest())) { case Ok(_) => Ok(()) case Err(e) => Err(e) }
    ensures r.Ok? ==> d.Rest() == SkipValue(old(d.Rest())).value
  {
    hide FromLittleEndian;
    var has :- d.ReadInt(1);
    if has != 0 {
      var n :- d.ReadInt(4);
      var _ :- d.Skip(n);
    }
    r := d.Skip(16);
  }

  /** Scan a block for a key, skipping over the other entries. */
  method SearchInBlock(data: seq<byte>, target: Key) returns (r: Result<Option<Entry>>)
    ensures r == SearchBlock(data, target)
  {
    hide FromLittleEndian, GetKey, GetValue, SkipValue;
    var d := new Deserializer(data);
    var count :- d.ReadInt(4);
    for i := 0 to count
      invariant fresh(d) && d.Valid()
      invariant SearchEntries(count - i, d.Rest(), target) == SearchBlock(data, target)
    {
      var key :- ReadKey(d);
      if key == target {
        var e :- ReadValue(d, key);
        return Ok(Some(e));
      } else {
        var _ :- PassValue(d);
      }
    }
    r := Ok(None);
  }

  function Prepend(es: seq<Entry>, r: Result<seq<Entry>>): Result<seq<Entry>> {
    match r
    case Ok(fs) => Ok(es + fs)
    case Err(e) => Err(e)
  }

  /** The entries of a block with `start <= key < end`, skipping over the others. */
  method EntriesInRangeFromBlock(data: seq<byte>, start: Key, end: Key) returns (r: Result<seq<Entry>>)
    ensures r == SelectBlock(data, start, end)
  {
    hide FromLittleEndian, GetKey, GetValue, SkipValue, Within, SelectEntries, Prepend;
    var d := new Deserializer(data);
    var count :- d.ReadInt(4);
    var results: seq<Entry> := [];
    PrependNothing(SelectEntries(count, d.Rest(), start, end));
    for i := 0 to count
      invariant fresh(d) && d.Valid()
      invariant Prepend(results, SelectEntries(count - i, d.Rest(), start, end)) == SelectBlock(data, start, end)
    {
      SelectUnfold(count - i, d.Rest(), start, end, results);
      var key :- ReadKey(d);
      if Within(key, start, end) {
        var e :- ReadValue(d, key);
        PrependOne(results, e, SelectEntries(count - i - 1, d.Rest(), start, end));
        results := results + [e];
      } else {
        var _ :- PassValue(d);
      }
    }
    NoneSelected(d.Rest(), start, end, results);
    r := Ok(results);
  }

  /** One round of the range scan of a block. */
  lemma SelectUnfold(n: nat, s: seq<byte>, lo: Key, hi: Key, results: seq<Entry>)
    requires n > 0
    ensures var all := Prepend(results, SelectEntries(n, s, lo, hi));
      match GetKey(s) {
        case Err(e) => all == Err(e)
        case Ok((key, s1)) =>
          if Within(key, lo, hi) then
            match GetValue(key, s1) {
              case Err(e) => all == Err(e)
              case Ok((e, rest)) => all == Prepend(results, Prepend([e], SelectEntries(n - 1, rest, lo, hi)))
            }
          else
            match SkipValue(s1) {
              case Err(e) => all == Err(e)
              case Ok(rest) => all == Prepend(results, SelectEntries(n - 1, rest, lo, hi))
            }
      }
  {
    hide GetKey, GetValue, SkipValue, Within;
  }

  lemma NoneSelected(s: seq<byte>, lo: Key, hi: Key, results: seq<Entry>)
    ensures Prepend(results, SelectEntries(0, s, lo, hi)) == Ok(results)
  {
    assert results + [] == results;
  }

  /** All entries of a block. */
  method DecodeBlock(data: seq<byte>) returns (r: Result<seq<Entry>>)
    ensures r == ParseBlock(data)
  {
    hide FromLittleEndian, GetKey, GetValue;
    var d := new Deserializer(data);
    var count :- d.ReadInt(4);
    var entries: seq<Entry> := [];
    PrependNothing(GetEntries(count, d.Rest()));
    for i := 0 to count
      invariant fresh(d) && d.Valid()
      invariant Prepend(entries, GetEntries(count - i, d.Rest())) == ParseBlock(data)
    {
      var key :- ReadKey(d);
      var e :- ReadValue(d, key);
      PrependOne(entries, e, GetEntries(count - i - 1, d.Rest()));
      entries := entries + [e];
    }
    assert entries + [] == entries;
    r := Ok(entries);
  }

  lemma PrependNothing(r: Result<seq<Entry>>)
    ensures Prepend([], r) == r
  {
    if r.Ok? { assert [] + r.value == r.value; }
  }

  lemma PrependOne(es: seq<Entry>, e: Entry, r: Result<seq<Entry>>)
    ensures Prepend(es + [e], r) == Prepend(es, Prepend([e], r))
  {
    if r.Ok? { assert es + [e] + r.value == es + ([e] + r.value); }
  }

  // ---------- the reader object ----------

  const CACHE_LIMIT: nat := 100

  /** The stored bytes of a block do not match the checksum in front of them. */
  ghost predicate Damaged(codec: Codec, file: seq<byte>, e: IndexEntry) {
    && e.offset + e.size <= |file| && e.size >= 4
    && var stored := file[e.offset..e.offset + e.size];
      FromLittleEndian(stored[..4]) != codec.crc(stored[4..])
  }

  /** The error that tells both checksums. */
  ghost function Mismatch(codec: Codec, file: seq<byte>, e: IndexEntry): Error
    requires Damaged(codec, file, e)
  {
    var stored := file[e.offset..e.offset + e.size];
    ChecksumMismatch(FromLittleEndian(stored[..4]), codec.crc(stored[4..]))
  }

  lemma DamagedIsRefused(h: Handle, i: nat)
    requires i < |h.toc.index|
    ensures var e := h.toc.index[i];
      && (e.offset + e.size > |h.file| || e.size < 4 ==> RawBlock(h, i) == Err(Corruption))
      && (Damaged(h.codec, h.file, e) ==> RawBlock(h, i) == Err(Mismatch(h.codec, h.file, e)))
      && (e.offset + e.size <= |h.file| && e.size >= 4 && !Damaged(h.codec, h.file, e) ==>
            RawBlock(h, i) == Decompress(h.codec, h.toc.meta.compression, h.file[e.offset..e.offset + e.size][4..]))
  {
    hide FromLittleEndian, Decompress;
    var e := h.toc.index[i];
    if e.offset + e.size <= |h.file| {
      DamageIsRefused(h.codec, h.toc.meta.compression, h.file[e.offset..e.offset + e.size]);
    }
  }

  /** By the first keys alone, the block may hold a key of the range. */
  ghost predicate MayHold(idx: seq<IndexEntry>, lo: Key, hi: Key, i: nat) {
    i < |idx| && Less(idx[i].key, hi) && (i + 1 < |idx| ==> Less(lo, idx[i + 1].key))
  }

  ghost predicate NoDamage(codec: Codec, file: seq<byte>, idx: seq<IndexEntry>, from: nat, upto: nat) {
    forall i :: from <= i < upto && i < |idx| ==> !Damaged(codec, file, idx[i])
  }

  /** A range read that stops at block `stop` has visited every block that may hold a key of the range. */
  lemma AllVisited(idx: seq<IndexEntry>, lo: Key, hi: Key, first: Option<nat>, stop: nat)
    requires IsBlockFor(idx, lo, first) && stop <= |idx| && (stop < |idx| ==> !Less(idx[stop].key, hi))
    ensures KeysAscend(idx) ==>
      forall i: nat :: MayHold(idx, lo, hi, i) ==> (if first.Some? then first.value else 0) <= i < stop
  {
    hide Less;
    LessIsStrictTotalOrder();
  }

  /** With ascending first keys only one block can be the one for a key. */
  lemma BlockForIsUnique(idx: seq<IndexEntry>, k: Key, a: Option<nat>, b: Option<nat>)
    requires KeysAscend(idx) && IsBlockFor(idx, k, a) && IsBlockFor(idx, k, b)
    ensures a == b
  {
    hide Less;
    LessIsStrictTotalOrder();
  }

  class SSTableReader {
    const codec: Codec
    const hashes: Hashes
    const file: seq<byte>
    const meta: Meta
    const index: seq<IndexEntry>
    const bloomFilter: BloomFilter?
    var minKey: Key
    var maxKey: Key
    var blockCache: map<nat, seq<byte>>

    ghost function FilterView(): Option<Filter>
      reads bloomFilter, if bloomFilter == null then {} else {bloomFilter.bits}
    {
      if bloomFilter == null then None else Some(bloomFilter.View())
    }

    /** The table as a value. */
    ghost function View(): Handle
      reads bloomFilter, if bloomFilter == null then {} else {bloomFilter.bits}
    {
      Handle(codec, hashes, file, Opened(meta, index, FilterView()))
    }

    /** Whatever is cached under an offset was read for an index entry with that offset. */
    ghost predicate CacheOk()
      reads this`blockCache, bloomFilter, if bloomFilter == null then {} else {bloomFilter.bits}
    {
      forall o :: o in blockCache ==>
        exists i :: 0 <= i < |index| && index[i].offset == o && RawBlock(View(), i) == Ok(blockCache[o])
    }

    /** A filter without bits would make the source divide by zero at the first lookup. */
    ghost predicate Valid()
      reads this`blockCache, bloomFilter, if bloomFilter == null then {} else {bloomFilter.bits}
    {
      CacheOk() && (bloomFilter != null ==> bloomFilter.Valid() && bloomFilter.hashes == hashes)
    }

    constructor (codec: Codec, hashes: Hashes, file: seq<byte>, meta: Meta, index: seq<IndexEntry>,
        bloomFilter: BloomFilter?)
      ensures this.codec == codec && this.hashes == hashes && this.file == file
      ensures this.meta == meta && this.index == index && this.bloomFilter == bloomFilter
      ensures blockCache == map[] && CacheOk()
    {
      this.codec, this.hashes, this.file := codec, hashes, file;
      this.meta, this.index, this.bloomFilter := meta, index, bloomFilter;
      minKey, maxKey := [], [];
      blockCache := map[];
    }

    // ---------- opening ----------

    static method LoadMetadata(file: seq<byte>) returns (r: Result<Meta>)
      ensures r == if |file| < FOOTER_SIZE then Err(Corruption) else ParseFooter(file[|file| - FOOTER_SIZE..])
      ensures |file| < 64 ==> r == Err(Corruption)
      ensures |file| >= 64 ==> var f := file[|file| - 64..];
        && (r.Ok? <==> f[48] <= 2 && FromLittleEndian(f[49..53]) == 1 && FromLittleEndian(f[53..57]) == 0x53533454)
        && (r.Err? ==> r.error == Corruption)
        && (r.Ok? ==> r.value == Meta(
              FromLittleEndian(f[0..8]), FromLittleEndian(f[8..16]), FromLittleEndian(f[16..24]),
              FromLittleEndian(f[24..32]), FromLittleEndian(f[32..40]), FromLittleEndian(f[40..48]),
              if f[48] == 0 then NoCompression else if f[48] == 1 then Lz4 else Zstd, 1))
    {
      hide FromLittleEndian, ParseFooter;
      if |file| < FOOTER_SIZE {
        return Err(Corruption);
      }
      FooterExactly(file[|file| - FOOTER_SIZE..]);
      r := ReadFooter(file[|file| - FOOTER_SIZE..]);
    }

    static method ReadFooter(bytes: seq<byte>) returns (r: Result<Meta>)
      ensures r == ParseFooter(bytes)
    {
      hide FromLittleEndian;
      var d := new Deserializer(bytes);
      var entryCount :- d.ReadInt(8);
      var dataSize :- d.ReadInt(8);
      var indexSize :- d.ReadInt(8);
      var bloomOffset :- d.ReadInt(8);
      var bloomSize :- d.ReadInt(8);
      var createdAt :- d.ReadInt(8);
      var compressionByte :- d.ReadInt(1);
      var compression :- CompressionOf(compressionByte);
      var version :- d.ReadInt(4);
      var magic :- d.ReadInt(4);
      if magic != SSTABLE_MAGIC {
        return Err(Corruption);
      }
      if version != SSTABLE_VERSION {
        return Err(Corruption);
      }
      r := Ok(Meta(entryCount, dataSize, indexSize, bloomOffset, bloomSize, createdAt, compression, version));
    }

    static method LoadIndex(file: seq<byte>, m: Meta) returns (r: Result<seq<IndexEntry>>)
      ensures r == OpenIndex(file, m)
    {
      hide FromLittleEndian, GetKey;
      var bytes :- ReadAt(file, m.bloomOffset + m.bloomSize, m.indexSize);
      var d := new Deserializer(bytes);
      var count :- d.ReadInt(4);
      var index: seq<IndexEntry> := [];
      PrependNoIndex(GetIndexEntries(count, d.Rest()));
      for i := 0 to count
        invariant fresh(d) && d.Valid()
        invariant PrependIndex(index, GetIndexEntries(count - i, d.Rest())) == ParseIndex(bytes)
      {
        var key :- ReadKey(d);
        var offset :- d.ReadInt(8);
        var size :- d.ReadInt(8);
        PrependOneIndex(index, IndexEntry(key, offset, size), GetIndexEntries(count - i - 1, d.Rest()));
        index := index + [IndexEntry(key, offset, size)];
      }
      assert index + [] == index;
      r := Ok(index);
    }

    /** The filter the bytes hold; a file may have none. */
    static method LoadBloomFilter(hashes: Hashes, file: seq<byte>, m: Meta) returns (r: Result<BloomFilter?>)
      ensures OpenFilter(file, m).Err? ==> r == Err(OpenFilter(file, m).error)
      ensures OpenFilter(file, m).Ok? ==> r.Ok? && match OpenFilter(file, m).value
        case None => r.value == null
        case Some(f) =>
          && r.value != null && fresh(r.value) && fresh(r.value.bits) && r.value.hashes == hashes
          && r.value.View() == f && (f.bitCount > 0 ==> r.value.Valid())
    {
      hide FromBytes, FromLittleEndian;
      if m.bloomSize == 0 {
        return Ok(null);
      }
      var bytes :- ReadAt(file, m.bloomOffset, m.bloomSize);
      var f: BloomFilter :- BloomFilter.Load(hashes, bytes);
      LoadedIsWellFormed(bytes);
      r := Ok(f);
    }

    /** The smallest key is the first block's; the largest is the last key of the last block, which has to be read. */
    method LoadKeyRange() returns (r: Result<()>)
      requires Valid()
      modifies this
      ensures Valid()
      ensures old(blockCache) == map[] ==> (r.Ok? <==> index == [] || BlockAt(View(), |index| - 1).Ok?)
      ensures r.Ok? && Readable(View()) && index != [] ==>
        minKey == Contents(View())[0].key && maxKey == Contents(View())[|Contents(View())| - 1].key
      ensures Readable(View()) ==> r.Ok?
    {
      hide FromLittleEndian, OpenBlock, ParseBlock, Less, CacheOk, BlockList, MightContain, Decompress, Damaged;
      if index == [] {
        return Ok(());
      }
      ghost var h := View();
      var last := |index| - 1;
      if Readable(h) { KeyRange(h); BlockReads(h, last); }
      minKey := index[0].key;
      var data := ReadBlock(last);
      if data.Err? {
        return Err(data.error);
      }
      var entries := DecodeBlock(data.value);
      if entries.Err? {
        return Err(entries.error);
      }
      if entries.value != [] {
        maxKey := entries.value[|entries.value| - 1].key;
      }
      r := Ok(());
    }

    /** Open the bytes of a file. The result represents exactly what the footer, index and filter bytes say. */
    static method OpenTable(codec: Codec, hashes: Hashes, file: seq<byte>) returns (r: Result<SSTableReader>)
      requires OpenFile(file).Ok? && OpenFile(file).value.filter.Some? ==> OpenFile(file).value.filter.value.bitCount > 0
      ensures OpenFile(file).Err? ==> r == Err(OpenFile(file).error)
      ensures OpenFile(file).Ok? ==>
        var h := Handle(codec, hashes, file, OpenFile(file).value);
        (r.Ok? <==> h.toc.index == [] || BlockAt(h, |h.toc.index| - 1).Ok?)
      ensures r.Ok? ==> fresh(r.value) && r.value.Valid()
      ensures r.Ok? ==> r.value.View() == Handle(codec, hashes, file, OpenFile(file).value)
      ensures OpenFile(file).Ok? && Readable(Handle(codec, hashes, file, OpenFile(file).value)) ==>
        && r.Ok?
        && (r.value.index != [] ==>
              var es := Contents(r.value.View());
              es != [] && r.value.minKey == es[0].key && r.value.maxKey == es[|es| - 1].key)
    {
      hide ParseFooter, OpenIndex, OpenFilter, Readable, Contents, SSTableReader.CacheOk, FromLittleEndian, BlockAt;
      var meta :- LoadMetadata(file);
      var index :- LoadIndex(file, meta);
      var bloom: BloomFilter? :- LoadBloomFilter(hashes, file, meta);
      var reader := new SSTableReader(codec, hashes, file, meta, index, bloom);
      assert reader.View() == Handle(codec, hashes, file, OpenFile(file).value);
      var _ :- reader.LoadKeyRange();
      if Readable(reader.View()) && index != [] { KeyRange(reader.View()); }
      r := Ok(reader);
    }

    // ---------- blocks ----------

    /** Read a block through the cache, which is emptied when it holds more than a hundred blocks. */
    method ReadBlock(i: nat) returns (r: Result<seq<byte>>)
      requires Valid() && i < |index|
      modifies this`blockCache
      ensures Valid() && |blockCache| <= Max(|old(blockCache)|, CACHE_LIMIT)
      ensures Coherent(index) || index[i].offset !in old(blockCache) ==> r == RawBlock(View(), i)
      ensures r.Ok? ==> exists j :: 0 <= j < |index| && index[j].offset == index[i].offset && RawBlock(View(), j) == r
      ensures var e, hit := index[i], index[i].offset in old(blockCache);
        && (hit ==> r == Ok(old(blockCache)[e.offset]))
        && (!hit && (e.offset + e.size > |file| || e.size < 4) ==> r == Err(Corruption))
        && ((!hit || Coherent(index)) && Damaged(codec, file, e) ==> r == Err(Mismatch(codec, file, e)))
        && (!hit && e.offset + e.size <= |file| && e.size >= 4 && !Damaged(codec, file, e) ==>
              r == Decompress(codec, meta.compression, file[e.offset..e.offset + e.size][4..]))
      ensures blockCache ==
        if index[i].offset in old(blockCache) || r.Err? then old(blockCache)
        else if |old(blockCache)[index[i].offset := r.value]| > 100 then map[]
        else old(blockCache)[index[i].offset := r.value]
    {
      hide OpenBlock, FromLittleEndian, Decompress, Damaged;
      DamagedIsRefused(View(), i);
      var offset := index[i].offset;
      if offset in blockCache {
        var cached := blockCache[offset];
        return Ok(cached);
      }
      var stored :- ReadAt(file, offset, index[i].size);
      var data :- OpenBlock(codec, meta.compression, stored);
      assert RawBlock(View(), i) == Ok(data);
      blockCache := blockCache[offset := data];
      if |blockCache| > CACHE_LIMIT {
        blockCache := map[];
      }
      r := Ok(data);
    }

    // ---------- point lookup ----------

    /** Binary search for the last block whose first key is at most the key. */
    method FindBlockForKey(key: Key) returns (r: Option<nat>)
      ensures IsBlockFor(index, key, r)
    {
      var left, right := 0, |index|;
      while left < right
        invariant 0 <= left <= right <= |index|
        invariant left > 0 ==> !Less(key, index[left - 1].key)
        invariant right < |index| ==> Less(key, index[right].key)
      {
        var mid := left + (right - left) / 2;
        if Less(key, index[mid].key) {
          right := mid;
        } else {
          left := mid + 1;
        }
      }
      r := None;
      if left > 0 {
        r := Some(left - 1);
      } else if index != [] && !Less(key, index[0].key) {
        assert false;  // the loop leaves `left` at 0 only when the key is before the first block
      }
    }

    method MightContainKey(key: Key) returns (b: bool)
      requires Valid()
      ensures b <==> (FilterView().Some? ==> MightContain(hashes, FilterView().value, key))
    {
      if bloomFilter != null {
        b := bloomFilter.Contains(key);
      } else {
        b := true;
      }
    }

    /** Bloom check, binary search, one block: the entry with the key, exactly when the table holds one. */
    method Get(key: Key) returns (r: Result<Option<Entry>>)
      requires Valid()
      modifies this`blockCache
      ensures Valid()
      ensures Readable(View()) ==> r == Ok(Find(Contents(View()), key))
      ensures forall i: nat ::
        && KeysAscend(index) && Coherent(index) && IsBlockFor(index, key, Some(i)) && Damaged(codec, file, index[i])
        && (FilterView().Some? ==> MightContain(hashes, FilterView().value, key)) ==>
          r == Err(Mismatch(codec, file, index[i]))
    {
      hide FromLittleEndian, OpenBlock, ParseBlock, SearchBlock, MightContain, Less, Find, CacheOk, Readable, Contents;
      hide Damaged, KeysAscend, Coherent;
      var maybe := MightContainKey(key);
      if !maybe {
        if Readable(View()) { DeniedKey(View(), key); }
        return Ok(None);
      }
      var at := FindBlockForKey(key);
      forall i: nat | KeysAscend(index) && IsBlockFor(index, key, Some(i)) ensures at == Some(i) {
        BlockForIsUnique(index, key, at, Some(i));
      }
      if at == None {
        if Readable(View()) { KeyBeforeTable(View(), key); }
        return Ok(None);
      }
      var i := at.value;
      if Readable(View()) { ReadableBlockReads(View(), i); }
      var data := ReadBlock(i);
      if data.Err? {
        return Err(data.error);
      }
      r := SearchInBlock(data.value, key);
      if Readable(View()) { KeyInBlock(View(), key, i); }
    }

    // ---------- range ----------

    /**
      The entries with `start <= key < end`, in order: from the block for `start` on, until a block starts
      at or after `end`. The loop is bounded by the number of blocks, not by the length of `end`.
     */
    method Range(start: Key, end: Key) returns (r: Result<seq<Entry>>)
      requires Valid()
      modifies this`blockCache
      ensures Valid()
      ensures Readable(View()) ==> r == Ok(Slice(Contents(View()), start, end))
      ensures Readable(View()) ==>
        && (forall i, j :: 0 <= i < j < |r.value| ==> Before(r.value[i].key, r.value[j].key))
        && (forall e :: e in r.value <==> e in Contents(View()) && InRange(e.key, start, end))
      ensures KeysAscend(index) && Coherent(index) && r.Ok? ==>
        forall i: nat :: MayHold(index, start, end, i) ==> !Damaged(codec, file, index[i])
    {
      hide FromLittleEndian, OpenBlock, ParseBlock, SelectBlock, Less, Slice, CacheOk;
      hide BlockList, Within, Readable, Contents, RawBlock, Flatten, Coherent, Before, InRange;
      hide Decompress, Damaged, KeysAscend;
      var results: seq<Entry> := [];
      var first := FindBlockForKey(start);
      var startBlock := if first.Some? then first.value else 0;
      ghost var h := View();
      if Readable(h) {
        RangeStarts(h, start, end, first);
        SliceOfTable(h, start, end);
      }
      var i := startBlock;
      while i < |index|
        invariant startBlock <= i <= |index| && Valid() && View() == h
        invariant Coherent(index) ==> NoDamage(codec, file, index, startBlock, i)
        invariant Readable(h) ==> i <= |BlockList(h)| == |index| && results == Slice(Flatten(BlockList(h)[..i]), start, end)
      {
        if !Less(index[i].key, end) {
          AllVisited(index, start, end, first, i);
          if Readable(h) { RangeEnds(h, start, end, i); }
          return Ok(results);
        }
        if Readable(h) { ReadableBlockReads(h, i); }
        var data := ReadBlock(i);
        if data.Err? {
          return Err(data.error);
        }
        var entries := EntriesInRangeFromBlock(data.value, start, end);
        if Readable(h) { RangeGrows(h, start, end, i); }
        if entries.Err? {
          return Err(entries.error);
        }
        results := results + entries.value;
        i := i + 1;
      }
      if Readable(h) { WholeTable(h); }
      AllVisited(index, start, end, first, i);
      r := Ok(results);
    }
  }

  // ---------- iteration ----------

  class SSTableIterator {
    const reader: SSTableReader
    var currentBlock: nat
    var currentEntry: nat
    var currentBlockData: Option<seq<byte>>
    var currentBlockEntries: seq<Entry>

    ghost predicate Valid()
      reads this, reader, reader.bloomFilter, if reader.bloomFilter == null then {} else {reader.bloomFilter.bits}
    {
      && reader.Valid()
      && (currentBlockData == None ==> currentBlockEntries == [])
      && (currentBlockData.Some? ==>
            && currentBlock < |reader.index| && currentEntry <= |currentBlockEntries|
            && (BlocksOk(reader.View()) && Coherent(reader.index) ==>
                  currentBlockEntries == BlockList(reader.View())[currentBlock]))
    }

    /** The entries still to come. */
    ghost function Remaining(): seq<Entry>
      reads this, reader, reader.bloomFilter, if reader.bloomFilter == null then {} else {reader.bloomFilter.bits}
      requires Valid()
    {
      var blocks := BlockList(reader.View());
      if currentBlock >= |blocks| then []
      else if currentBlockData == None then Flatten(blocks[currentBlock..])
      else currentBlockEntries[currentEntry..] + Flatten(blocks[currentBlock + 1..])
    }

    /** The position has moved on from the given one, within or beyond its block. */
    ghost predicate Advanced(block: nat, data: Option<seq<byte>>, entries: seq<Entry>, entry: nat)
      reads this
    {
      && currentBlock < |reader.index| && currentBlockData.Some? && currentEntry <= |currentBlockEntries|
      && (currentBlock > block
          || (currentBlock == block && (data == None || (currentBlockEntries == entries && currentEntry > entry))))
    }

    constructor (reader: SSTableReader)
      requires reader.Valid()
      ensures Valid() && this.reader == reader
      ensures Remaining() == Contents(reader.View())
    {
      this.reader := reader;
      currentBlock, currentEntry := 0, 0;
      currentBlockData, currentBlockEntries := None, [];
      new;
      assert BlockList(reader.View())[0..] == BlockList(reader.View());
    }

    /** The block to be loaded next is damaged. */
    ghost predicate AtDamage()
      reads this, reader
    {
      && Coherent(reader.index) && currentBlockData == None && currentBlock < |reader.index|
      && Damaged(reader.codec, reader.file, reader.index[currentBlock])
    }

    /** Load the current block, if there is one. */
    method LoadCurrentBlock() returns (r: Result<()>)
      requires Valid() && currentBlockData == None
      modifies this`currentEntry, this`currentBlockData, this`currentBlockEntries, reader`blockCache
      ensures Valid()
      ensures r.Ok? <==> currentBlock >= |reader.index| || currentBlockData.Some?
      ensures r.Err? ==> currentBlockData == None
      ensures BlocksOk(reader.View()) && Coherent(reader.index) ==> r.Ok? && Remaining() == old(Remaining())
      ensures old(AtDamage()) ==> r == Err(Mismatch(reader.codec, reader.file, reader.index[old(currentBlock)]))
    {
      hide RawBlock, ParseBlock, BlocksOk, BlockList, Flatten, SSTableReader.CacheOk, Decompress, Damaged;
      ghost var h := reader.View();
      BlockListLength(h);
      if currentBlock >= |reader.index| {
        return Ok(());
      }
      BlocksFrom(h, currentBlock);
      if BlocksOk(h) { BlockReads(h, currentBlock); }
      var data :- reader.ReadBlock(currentBlock);
      var entries :- DecodeBlock(data);
      currentBlockData := Some(data);
      currentBlockEntries := entries;
      currentEntry := 0;
      assert currentBlockEntries[0..] == currentBlockEntries;
      r := Ok(());
    }

    /** Deliver the entry under the cursor. */
    method TakeEntry() returns (e: Entry)
      requires Valid() && currentEntry < |currentBlockEntries|
      modifies this`currentEntry
      ensures Valid() && currentEntry == old(currentEntry) + 1
      ensures old(Remaining()) != [] && e == old(Remaining())[0] && Remaining() == old(Remaining())[1..]
    {
      hide BlocksOk, BlockList, Flatten, Coherent, SSTableReader.Valid;
      BlockListLength(reader.View());
      e := currentBlockEntries[currentEntry];
      currentEntry := currentEntry + 1;
    }

    /** Leave an exhausted block. */
    method LeaveBlock()
      requires Valid() && currentEntry >= |currentBlockEntries|
      requires currentBlockData == None ==> currentBlock >= |reader.index|
      modifies this`currentBlock, this`currentBlockData, this`currentBlockEntries
      ensures Valid() && currentBlock == old(currentBlock) + 1 && currentBlockData == None
      ensures Remaining() == old(Remaining())
      ensures currentBlock >= |reader.index| ==> Remaining() == []
    {
      hide BlocksOk, BlockList, Flatten, Coherent, SSTableReader.Valid;
      BlockListLength(reader.View());
      NothingLeft(reader.View(), currentBlock);
      currentBlock := currentBlock + 1;
      currentBlockData := None;
      currentBlockEntries := [];
    }

    /**
      The next entry; `None` at the end, and for ever after. An unreadable block is reported
      and not passed: the next call reports it again.
     */
    method Next() returns (r: Option<Result<Entry>>)
      requires Valid()
      modifies this`currentBlock, this`currentEntry, this`currentBlockData, this`currentBlockEntries, reader`blockCache
      ensures Valid()
      ensures BlocksOk(reader.View()) && Coherent(reader.index) ==>
        if old(Remaining()) == [] then r == None && Remaining() == []
        else r == Some(Ok(old(Remaining())[0])) && Remaining() == old(Remaining())[1..]
      ensures r.Some? && r.value.Ok? ==>
        Advanced(old(currentBlock), old(currentBlockData), old(currentBlockEntries), old(currentEntry))
      ensures old(AtDamage()) ==>
        r == Some(Err(Mismatch(reader.codec, reader.file, reader.index[old(currentBlock)])))
    {
      hide BlocksOk, BlockList, Flatten, Coherent, Remaining, SSTableReader.Valid;
      ghost var h := reader.View();
      ghost var todo := Remaining();
      while true
        invariant Valid() && reader.View() == h
        invariant BlocksOk(h) && Coherent(reader.index) ==> Remaining() == todo
        invariant currentBlock > old(currentBlock) || (currentBlock == old(currentBlock)
          && currentBlockData == old(currentBlockData) && currentBlockEntries == old(currentBlockEntries)
          && currentEntry == old(currentEntry))
        invariant old(AtDamage()) ==> currentBlock == old(currentBlock) && currentBlockData == None
        decreases if currentBlock < |reader.index| then |reader.index| - currentBlock else 0
      {
        if currentBlockData == None {
          var loaded := LoadCurrentBlock();
          if loaded.Err? {
            return Some(Err(loaded.error));
          }
        }
        if currentEntry < |currentBlockEntries| {
          var entry := TakeEntry();
          return Some(Ok(entry));
        }
        LeaveBlock();
        if currentBlock >= |reader.index| {
          return None;
        }
      }
    }
  }

  lemma BlockListLength(h: Handle)
    ensures |BlockList(h)| == |h.toc.index|
  {
  }

  lemma NothingLeft(h: Handle, i: nat)
    ensures i + 1 >= |BlockList(h)| ==> i >= |BlockList(h)| || Flatten(BlockList(h)[i + 1..]) == []
  {
  }

  lemma BlocksFrom(h: Handle, i: nat)
    requires i < |h.toc.index|
    ensures Flatten(BlockList(h)[i..]) == BlockList(h)[i] + Flatten(BlockList(h)[i + 1..])
  {
    hide BlockAt;
    FlattenCons(BlockList(h)[i], BlockList(h)[i + 1..]);
    assert BlockList(h)[i..] == [BlockList(h)[i]] + BlockList(h)[i + 1..];
  }

  // ---------- why those lookups are right ----------

  function PrependIndex(idx: seq<IndexEntry>, r: Result<seq<IndexEntry>>): Result<seq<IndexEntry>> {
    match r
    case Ok(more) => Ok(idx + more)
    case Err(e) => Err(e)
  }

  lemma PrependNoIndex(r: Result<seq<IndexEntry>>)
    ensures PrependIndex([], r) == r
  {
    if r.Ok? { assert [] + r.value == r.value; }
  }

  lemma PrependOneIndex(idx: seq<IndexEntry>, i: IndexEntry, r: Result<seq<IndexEntry>>)
    ensures PrependIndex(idx + [i], r) == PrependIndex(idx, PrependIndex([i], r))
  {
    if r.Ok? { assert idx + [i] + r.value == idx + ([i] + r.value); }
  }

  lemma LoadedIsWellFormed(bytes: seq<byte>)
    ensures FromBytes(bytes).Ok? && FromBytes(bytes).value.bitCount > 0 ==> WellFormed(FromBytes(bytes).value)
  {
  }

  /** First and last key of a readable table, seen from its first and last block. */
  lemma KeyRange(h: Handle)
    requires Readable(h) && h.toc.index != []
    ensures var es, last := Contents(h), BlockList(h)[|h.toc.index| - 1];
      && es != [] && last != []
      && es[0].key == h.toc.index[0].key
      && es[|es| - 1] == last[|last| - 1]
  {
    hide RawBlock, ParseBlock, Less, FilterKnows;
    var blocks, n := BlockList(h), |h.toc.index|;
    BlockReads(h, 0);
    BlockStart(blocks, 0, 0);
    assert blocks[..0] == [];
    assert BlockAt(h, n - 1).Ok?;
  }

  lemma SliceOfTable(h: Handle, lo: Key, hi: Key)
    requires Readable(h)
    ensures var part := Slice(Contents(h), lo, hi);
      && (forall i, j :: 0 <= i < j < |part| ==> Before(part[i].key, part[j].key))
      && (forall e :: e in part <==> e in Contents(h) && InRange(e.key, lo, hi))
  {
    hide BlocksOk, Coherent, FilterKnows, Contents, Slice, Before, InRange, Sorted;
    SliceIsRange(Contents(h), lo, hi);
  }

  lemma WholeTable(h: Handle)
    ensures |BlockList(h)| == |h.toc.index| && Flatten(BlockList(h)[..|h.toc.index|]) == Contents(h)
  {
    assert BlockList(h)[..|h.toc.index|] == BlockList(h);
  }

  /** In a readable table a block reads, from the cache or from the file, to its entries. */
  lemma ReadableBlockReads(h: Handle, i: nat)
    requires Readable(h) && i < |h.toc.index|
    ensures Coherent(h.toc.index) && RawBlock(h, i).Ok?
  {
    hide RawBlock, FilterKnows, Sorted;
    BlockReads(h, i);
  }

  lemma BlockReads(h: Handle, i: nat)
    requires BlocksOk(h) && i < |h.toc.index|
    ensures RawBlock(h, i).Ok? && ParseBlock(RawBlock(h, i).value) == Ok(BlockList(h)[i])
    ensures h.toc.index[i].key == BlockList(h)[i][0].key
  {
    hide ParseBlock, RawBlock;
    assert BlockAt(h, i).Ok?;
  }

  lemma DeniedKey(h: Handle, key: Key)
    requires Readable(h) && h.toc.filter.Some? && !MightContain(h.hashes, h.toc.filter.value, key)
    ensures Find(Contents(h), key) == None
  {
    hide Contents, BlocksOk, Positions, MightContain;
    assert forall e :: e in Contents(h) ==> MightContain(h.hashes, h.toc.filter.value, e.key);
  }

  lemma KeyBeforeTable(h: Handle, key: Key)
    requires Readable(h) && IsBlockFor(h.toc.index, key, None)
    ensures Find(Contents(h), key) == None
  {
    hide ParseBlock, RawBlock, Less, Find, FilterKnows;
    if h.toc.index != [] { BlockReads(h, 0); }
    BeforeFirstBlock(BlockList(h), key);
  }

  lemma KeyInBlock(h: Handle, key: Key, i: nat)
    requires Readable(h) && IsBlockFor(h.toc.index, key, Some(i))
    ensures RawBlock(h, i).Ok?
    ensures SearchBlock(RawBlock(h, i).value, key) == Ok(Find(Contents(h), key))
  {
    hide RawBlock, Less, Find, FilterKnows, GetEntries, SearchEntries;
    BlockReads(h, i);
    var s := RawBlock(h, i).value;
    SearchAgrees(GetInt(s, 4).value.0, GetInt(s, 4).value.1, key);
    if i + 1 < |h.toc.index| { BlockReads(h, i + 1); }
    OneBlockIsEnough(BlockList(h), key, i);
  }

  lemma RangeStarts(h: Handle, start: Key, end: Key, first: Option<nat>)
    requires Readable(h) && IsBlockFor(h.toc.index, start, first)
    ensures var i := if first.Some? then first.value else 0;
      i <= |BlockList(h)| == |h.toc.index| && Slice(Flatten(BlockList(h)[..i]), start, end) == []
  {
    hide RawBlock, ParseBlock, Less, FilterKnows;
    if first.Some? {
      BlockReads(h, first.value);
      SkippedBlocks(BlockList(h), start, end, first.value);
    } else {
      assert BlockList(h)[..0] == [];
    }
  }

  lemma RangeEnds(h: Handle, start: Key, end: Key, i: nat)
    requires Readable(h) && i < |h.toc.index| && !Less(h.toc.index[i].key, end)
    ensures Slice(Flatten(BlockList(h)[..i]), start, end) == Slice(Contents(h), start, end)
  {
    hide RawBlock, ParseBlock, Less, FilterKnows, Slice;
    BlockReads(h, i);
    RemainingBlocks(BlockList(h), start, end, i);
  }

  lemma RangeGrows(h: Handle, start: Key, end: Key, i: nat)
    requires Readable(h) && i < |h.toc.index|
    ensures RawBlock(h, i).Ok?
    ensures SelectBlock(RawBlock(h, i).value, start, end) == Ok(Slice(BlockList(h)[i], start, end))
    ensures Slice(Flatten(BlockList(h)[..i + 1]), start, end)
      == Slice(Flatten(BlockList(h)[..i]), start, end) + Slice(BlockList(h)[i], start, end)
  {
    hide RawBlock, Less, FilterKnows, Slice, GetEntries, SelectEntries;
    BlockReads(h, i);
    var s, blocks := RawBlock(h, i).value, BlockList(h);
    SelectAgrees(GetInt(s, 4).value.0, GetInt(s, 4).value.1, start, end);
    assert blocks[..i + 1] == blocks[..i] + [blocks[i]];
    FlattenSnoc(blocks[..i], blocks[i]);
    SliceAppend(Flatten(blocks[..i]), blocks[i], start, end);
  }
}
