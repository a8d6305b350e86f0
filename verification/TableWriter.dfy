/** The table writer: entries in ascending key order go in, the bytes of a table file come out. */
module TableWriter {
  import opened Basics
  import opened ByteOrder
  import opened Sorting
  import opened Packing
  import opened StableSort
  import opened Serialization
  import opened Bloom
  import opened TableFormat

  lemma EncodeSnoc(es: seq<Entry>, e: Entry)
    ensures EncodeEntries(es + [e]) == EncodeEntries(es) + EncodeEntry(e)
  {
    assert (es + [e])[..|es|] == es;
  }

  lemma EncodedIsNotEmpty(es: seq<Entry>)
    ensures EncodeEntries(es) == [] <==> es == []
  {
  }

  lemma DataSnoc(p: Params, blocks: seq<seq<Entry>>, b: seq<Entry>)
    ensures Data(p, blocks + [b]) == Data(p, blocks) + BlockImage(p.codec, p.compression, p.level, b)
    ensures Index(p, blocks + [b]) == Index(p, blocks)
      + [IndexEntry(FirstKey(b), |Data(p, blocks)|, |BlockImage(p.codec, p.compression, p.level, b)|)]
  {
    assert (blocks + [b])[..|blocks|] == blocks;
  }

  lemma BlockImageIs(p: Params, es: seq<Entry>, data: seq<byte>, compressed: seq<byte>)
    requires data == LittleEndian(|es|, 4) + EncodeEntries(es)
    requires compressed == Compress(p.codec, p.compression, p.level, data)
    ensures BlockImage(p.codec, p.compression, p.level, es) == LittleEndian(p.codec.crc(compressed), 4) + compressed
  {
  }

  lemma BlocksSnoc(es: seq<Entry>, e: Entry)
    ensures Blocks(es + [e]) == Place(Blocks(es), e, EncodedSize, BLOCK_SIZE)
  {
    assert (es + [e])[..|es|] == es;
  }

  lemma KeyFilterSnoc(p: Params, es: seq<Entry>, e: Entry)
    requires p.bitCount > 0
    ensures KeyFilter(p, es + [e]) == AddTo(p.hashes, KeyFilter(p, es), e.key)
  {
    assert (es + [e])[..|es|] == es;
  }

  function Open(pending: seq<Entry>): seq<seq<Entry>> {
    if pending == [] then [] else [pending]
  }

  class SSTableWriter {
    const params: Params
    var file: seq<byte>
    var position: nat
    var currentBlock: seq<byte>
    var currentBlockEntries: nat
    var index: seq<IndexEntry>
    var bloomFilter: BloomFilter
    var entryCount: nat
    var minKey: Option<Key>
    var maxKey: Option<Key>

    ghost var written: seq<Entry>          // everything added so far
    ghost var closedBlocks: seq<seq<Entry>>  // blocks already in the file
    ghost var pending: seq<Entry>          // the entries of the open block

    /** The file, the open block and the index agree with the blocks. */
    ghost predicate BlocksValid()
      reads this
    {
      && file == Data(params, closedBlocks) && position == |file|
      && currentBlock == EncodeEntries(pending) && currentBlockEntries == |pending|
      && index == Index(params, closedBlocks)
           + (if pending == [] then [] else [IndexEntry(pending[0].key, position, 0)])
    }

    /** The filter and the key range agree with the entries. */
    ghost predicate KeysValid()
      reads this, bloomFilter, bloomFilter.bits
    {
      && params.bitCount > 0
      && bloomFilter.hashes == params.hashes && bloomFilter.View() == KeyFilter(params, written)
      && minKey == (if written == [] then None else Some(written[0].key))
      && maxKey == (if written == [] then None else Some(written[|written| - 1].key))
      && entryCount == |written|
      && Sorted(written)
    }

    ghost predicate Valid()
      reads this, bloomFilter, bloomFilter.bits
    {
      && BlocksValid() && KeysValid()
      && closedBlocks + Open(pending) == Blocks(written)
      && (pending == [] ==> closedBlocks == [])
    }

    constructor (params: Params)
      requires params.bitCount > 0
      ensures Valid() && written == [] && this.params == params
      ensures fresh(bloomFilter) && fresh(bloomFilter.bits)
    {
      this.params := params;
      file, position := [], 0;
      currentBlock, currentBlockEntries := [], 0;
      index := [];
      bloomFilter := new BloomFilter(params.hashes, params.bitCount, params.hashCount);
      entryCount := 0;
      minKey, maxKey := None, None;
      written, closedBlocks, pending := [], [], [];
    }

    /** Close the open block: checksum, compressed bytes, and its size into the index. */
    method FlushCurrentBlock()
      requires BlocksValid()
      modifies this`file, this`position, this`currentBlock, this`currentBlockEntries, this`index,
        this`closedBlocks, this`pending
      ensures BlocksValid() && pending == []
      ensures closedBlocks == old(closedBlocks) + Open(old(pending))
    {
      hide EncodeEntries, LittleEndian, Data, Index, BlockImage;
      EncodedIsNotEmpty(pending);
      EncodedIsNotEmpty([]);
      if currentBlock == [] {
        return;
      }
      var serializer := new Serializer();
      serializer.WriteInt(currentBlockEntries, 4);
      assert serializer.buffer == LittleEndian(|pending|, 4);
      var blockData := serializer.buffer + currentBlock;
      var compressed := Compress(params.codec, params.compression, params.level, blockData);
      var checksum := params.codec.crc(compressed);
      BlockImageIs(params, pending, blockData, compressed);
      DataSnoc(params, closedBlocks, pending);
      ghost var before := file;
      file := file + LittleEndian(checksum, 4);
      position := position + 4;
      file := file + compressed;
      position := position + |compressed|;
      assert file == before + (LittleEndian(checksum, 4) + compressed);
      if index != [] {
        var last := |index| - 1;
        index := index[last := index[last].(size := |compressed| + 4)];
      }
      assert index == Index(params, closedBlocks + [pending]);
      closedBlocks, pending := closedBlocks + [pending], [];
      currentBlock := [];
      currentBlockEntries := 0;
    }

    /** Note the key of an accepted entry: key range, bloom filter, count. */
    method RecordKey(entry: Entry)
      requires KeysValid() && (written != [] ==> Less(written[|written| - 1].key, entry.key))
      modifies this`minKey, this`maxKey, this`entryCount, this`written, bloomFilter.bits, bloomFilter`elementCount
      ensures KeysValid() && written == old(written) + [entry]
    {
      hide AddTo, KeyFilter, Sorted, Less, MightContain;
      if minKey == None {
        minKey := Some(entry.key);
      }
      maxKey := Some(entry.key);
      bloomFilter.Add(entry.key);
      entryCount := entryCount + 1;
      SortedSnoc(written, entry);
      KeyFilterSnoc(params, written, entry);
      written := written + [entry];
    }

    /** Put the entry into the open block, closing that block first if the entry does not fit. */
    method AppendToBlock(entry: Entry)
      requires BlocksValid() && (pending == [] ==> closedBlocks == [])
      modifies this`file, this`position, this`currentBlock, this`currentBlockEntries, this`index,
        this`closedBlocks, this`pending
      ensures BlocksValid() && pending != []
      ensures closedBlocks + [pending] == Place(old(closedBlocks + Open(pending)), entry, EncodedSize, BLOCK_SIZE)
    {
      hide EncodeEntries, EncodeEntry, Index, Data, Place, Greedy;
      var entryData := EncodeEntry(entry);
      ghost var closed, current := closedBlocks, pending;
      EncodedTotal(current);
      EncodedIsNotEmpty(current);
      PlaceEntry(closed, current, entry);
      if |currentBlock| + |entryData| > BLOCK_SIZE && currentBlockEntries > 0 {
        FlushCurrentBlock();
      }
      if currentBlockEntries == 0 {
        index := index + [IndexEntry(entry.key, position, 0)];
      }
      EncodeSnoc(pending, entry);
      currentBlock := currentBlock + entryData;
      currentBlockEntries := currentBlockEntries + 1;
      pending := pending + [entry];
      assert current == [] || closedBlocks == closed || closedBlocks == closed + [current];
      assert [] + [entry] == [entry];
    }

    /** Append an entry. Keys must come in strictly ascending order; a violation changes nothing. */
    method Add(entry: Entry) returns (r: Result<()>)
      requires Valid()
      modifies this, bloomFilter.bits, bloomFilter`elementCount
      ensures Valid() && bloomFilter == old(bloomFilter) && bloomFilter.bits == old(bloomFilter.bits)
      ensures r == if old(written) != [] && !Less(old(written)[|old(written)| - 1].key, entry.key)
                   then Err(InvalidOperation) else Ok(())
      ensures written == if r.Ok? then old(written) + [entry] else old(written)
    {
      hide EncodeEntries, Index, Data, Place, Greedy, KeyFilter, Sorted, Less, MightContain;
      if maxKey.Some? && !Less(maxKey.value, entry.key) {
        return Err(InvalidOperation);
      }
      BlocksSnoc(written, entry);
      RecordKey(entry);
      AppendToBlock(entry);
      r := Ok(());
    }

    lemma WrittenSorted()
      requires Valid()
      ensures Sorted(written)
    {
    }

    /** Write the open block, the filter, the index and the footer. The file is then complete. */
    method Finish() returns (m: Meta)
      requires Valid()
      modifies this
      ensures file == TableFile(params, written) && m == MetaOf(params, written)
      ensures m.entryCount == |written| && m.createdAt == params.createdAt && m.compression == params.compression
      ensures m.bloomOffset == m.dataSize == |Data(params, Blocks(written))| && m.version == 1
      ensures |file| == m.dataSize + m.bloomSize + m.indexSize + 64
      ensures file[..m.dataSize] == Data(params, Blocks(written))
      ensures written == old(written) && minKey == old(minKey) && maxKey == old(maxKey)
      ensures bloomFilter == old(bloomFilter)
    {
      hide EncodeEntries, Blocks, Data, Index, ToBytes, KeyFilter, EncodeIndex, EncodeFooter;
      ghost var blocks := closedBlocks + Open(pending);
      FlushCurrentBlock();
      assert closedBlocks == blocks;
      assert closedBlocks + [] == closedBlocks;
      assert Open(pending) == [];
      assert index == Index(params, Blocks(written));
      var dataSize := position;
      var bloomOffset := position;
      var bloomData := bloomFilter.Save();
      file := file + bloomData;
      position := position + |bloomData|;
      var indexData := SerializeIndex();
      file := file + indexData;
      position := position + |indexData|;
      m := Meta(entryCount, dataSize, |indexData|, bloomOffset, |bloomData|, params.createdAt,
                params.compression, SSTABLE_VERSION);
      var footer := Footer(m);
      FooterLength(m);
      file := file + footer;
    }

    method SerializeIndex() returns (bytes: seq<byte>)
      ensures bytes == EncodeIndex(index)
    {
      hide LittleEndian;
      var serializer := new Serializer();
      serializer.WriteInt(|index|, 4);
      for i := 0 to |index|
        invariant fresh(serializer)
        invariant serializer.buffer == LittleEndian(|index|, 4) + EncodeIndexEntries(index[..i])
      {
        assert index[..i + 1][..i] == index[..i];
        serializer.WriteInt(|index[i].key|, 4);
        serializer.WriteBytes(index[i].key);
        serializer.WriteInt(index[i].offset, 8);
        serializer.WriteInt(index[i].size, 8);
      }
      assert index[..|index|] == index;
      bytes := serializer.buffer;
    }

    static method Footer(m: Meta) returns (bytes: seq<byte>)
      ensures bytes == EncodeFooter(m)
    {
      hide LittleEndian;
      var serializer := new Serializer();
      serializer.WriteInt(m.entryCount, 8);
      serializer.WriteInt(m.dataSize, 8);
      serializer.WriteInt(m.indexSize, 8);
      serializer.WriteInt(m.bloomOffset, 8);
      serializer.WriteInt(m.bloomSize, 8);
      serializer.WriteInt(m.createdAt, 8);
      serializer.WriteInt(CompressionByte(m.compression), 1);
      serializer.WriteInt(m.version, 4);
      serializer.WriteInt(SSTABLE_MAGIC, 4);
      bytes := serializer.buffer + seq(FOOTER_SIZE - |serializer.buffer|, _ => 0);
    }
  }

  lemma PlaceEntry(closed: seq<seq<Entry>>, pending: seq<Entry>, e: Entry)
    ensures Place(closed + Open(pending), e, EncodedSize, BLOCK_SIZE) ==
      if pending == [] && closed == [] then [[e]]
      else if pending == [] then Place(closed, e, EncodedSize, BLOCK_SIZE)
      else if Total(pending, EncodedSize) + EncodedSize(e) > BLOCK_SIZE then closed + [pending] + [[e]]
      else closed + [pending + [e]]
  {
    hide EncodedSize;
    if pending != [] {
      PlaceNext(closed, pending, e, EncodedSize, BLOCK_SIZE);
    } else {
      assert closed + [] == closed;
    }
  }

  lemma SortedSnoc(es: seq<Entry>, e: Entry)
    requires Sorted(es) && (es != [] ==> Less(es[|es| - 1].key, e.key))
    ensures Sorted(es + [e])
  {
    hide Less;
    var all := es + [e];
    forall i | 0 <= i < |es| ensures Less(es[i].key, e.key) {
      if i < |es| - 1 { LessTransitive(es[i].key, es[|es| - 1].key, e.key); }
    }
  }

  // ---------- building a table from an unsorted list ----------

  predicate KeyBefore(a: Entry, b: Entry) {
    Less(a.key, b.key)
  }

  function SortByKey(es: seq<Entry>): seq<Entry> {
    SortBy(es, KeyBefore)
  }

  ghost predicate DistinctKeys(es: seq<Entry>) {
    forall i, j :: 0 <= i < j < |es| ==> es[i].key != es[j].key
  }

  /** Entries precede each other by key, and keys are totally ordered. */
  lemma KeyBeforeIsOrder(es: seq<Entry>)
    ensures IsOrder(KeyBefore)
    ensures Sorted(es) <==> Ascends(es, KeyBefore)
    ensures DistinctKeys(es) <==> AllDiffer(es, KeyBefore)
  {
    hide Less;
    LessIsStrictTotalOrder();
  }

  /** Sorting by key loses nothing, and gives a strictly ascending list exactly when no key repeats. */
  lemma SortedExactlyWhenDistinct(es: seq<Entry>)
    ensures Sorted(SortByKey(es)) <==> DistinctKeys(es)
    ensures multiset(SortByKey(es)) == multiset(es)
  {
    hide Sorted, DistinctKeys, SortBy;
    KeyBeforeIsOrder(es);
    KeyBeforeIsOrder(SortByKey(es));
    SortByOk(es, KeyBefore);
    AscendsExactlyWhenDifferent(es, KeyBefore);
  }

  /**
    `build_from_vec`: sort by key and add one by one. It succeeds exactly when no key repeats,
    and then writes the table of the sorted entries.
   */
  method BuildFromVec(p: Params, entries: seq<Entry>) returns (r: Result<(Meta, seq<byte>)>)
    requires p.bitCount > 0
    ensures r.Ok? <==> DistinctKeys(entries)
    ensures r.Ok? ==> r.value == (MetaOf(p, SortByKey(entries)), TableFile(p, SortByKey(entries)))
    ensures r.Err? ==> r.error == InvalidOperation
  {
    hide MetaOf, TableFile, Less, SortByKey, Sorted, DistinctKeys;
    hide SSTableWriter.Valid, SSTableWriter.BlocksValid, SSTableWriter.KeysValid;
    var sorted := SortByKey(entries);
    SortedExactlyWhenDistinct(entries);
    var writer := new SSTableWriter(p);
    for i := 0 to |sorted|
      invariant fresh(writer) && fresh(writer.bloomFilter) && fresh(writer.bloomFilter.bits)
      invariant writer.Valid() && writer.params == p && writer.written == sorted[..i]
    {
      var added := writer.Add(sorted[i]);
      if added.Err? {
        NotAscending(sorted, i);
        return Err(added.error);
      }
      assert sorted[..i + 1] == sorted[..i] + [sorted[i]];
    }
    assert sorted[..|sorted|] == sorted;
    writer.WrittenSorted();
    var meta := writer.Finish();
    r := Ok((meta, writer.file));
  }

  lemma NotAscending(es: seq<Entry>, i: nat)
    requires 0 < i < |es| && !Less(es[i - 1].key, es[i].key)
    ensures !Sorted(es)
  {
  }
}
