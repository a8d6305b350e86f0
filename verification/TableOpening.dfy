/** Opening a table file: footer, index and bloom filter; what a written file opens to. */
module TableOpening {
  import opened Basics
  import opened Packing
  import opened Serialization
  import opened Bloom
  import opened TableFormat

  // ---------- index ----------

  function GetIndexEntry(s: seq<byte>): Result<(IndexEntry, seq<byte>)> {
    var (key, s1) :- GetKey(s);
    var (offset, s2) :- GetInt(s1, 8);
    var (size, s3) :- GetInt(s2, 8);
    Ok((IndexEntry(key, offset, size), s3))
  }

  function GetIndexEntries(n: nat, s: seq<byte>): Result<seq<IndexEntry>> {
    if n == 0 then Ok([])
    else
      var (i, rest) :- GetIndexEntry(s);
      var idx :- GetIndexEntries(n - 1, rest);
      Ok([i] + idx)
  }

  function ParseIndex(s: seq<byte>): Result<seq<IndexEntry>> {
    var (n, rest) :- GetInt(s, 4);
    GetIndexEntries(n, rest)
  }

  predicate IndexEntryFits(i: IndexEntry) {
    |i.key| < U32 && i.offset < U64 && i.size < U64
  }

  lemma IndexEntryRoundTrip(i: IndexEntry, tail: seq<byte>)
    requires IndexEntryFits(i)
    ensures GetIndexEntry(EncodeIndexEntry(i) + tail) == Ok((i, tail))
  {
    hide LittleEndian, FromLittleEndian, Capacity;
    Capacity4();
    var t2 := LittleEndian(i.size, 8) + tail;
    var t1 := LittleEndian(i.offset, 8) + t2;
    assert EncodeIndexEntry(i) + tail == LittleEndian(|i.key|, 4) + (i.key + t1);
    GetIntWritten(|i.key|, 4, i.key + t1);
    GetBytesWritten(i.key, t1);
    GetIntWritten(i.offset, 8, t2);
    GetIntWritten(i.size, 8, tail);
  }

  lemma {:induction false} EncodeIndexCons(i: IndexEntry, idx: seq<IndexEntry>)
    ensures EncodeIndexEntries([i] + idx) == EncodeIndexEntry(i) + EncodeIndexEntries(idx)
  {
    hide EncodeIndexEntry;
    if idx == [] {
      assert [i] + idx == [i];
      assert EncodeIndexEntries([i]) == [] + EncodeIndexEntry(i);
    } else {
      var n := |idx| - 1;
      assert ([i] + idx)[..|idx|] == [i] + idx[..n];
      EncodeIndexCons(i, idx[..n]);
    }
  }

  lemma {:induction false} IndexEntriesRoundTrip(idx: seq<IndexEntry>, tail: seq<byte>)
    requires forall i :: i in idx ==> IndexEntryFits(i)
    ensures GetIndexEntries(|idx|, EncodeIndexEntries(idx) + tail) == Ok(idx)
  {
    hide EncodeIndexEntry, GetIndexEntry, IndexEntryFits;
    if idx != [] {
      var after := EncodeIndexEntries(idx[1..]) + tail;
      assert idx == [idx[0]] + idx[1..];
      EncodeIndexCons(idx[0], idx[1..]);
      assert EncodeIndexEntries(idx) + tail == EncodeIndexEntry(idx[0]) + after;
      IndexEntryRoundTrip(idx[0], after);
      IndexEntriesRoundTrip(idx[1..], tail);
    }
  }

  lemma IndexRoundTrip(idx: seq<IndexEntry>)
    requires (forall i :: i in idx ==> IndexEntryFits(i)) && |idx| < U32
    ensures ParseIndex(EncodeIndex(idx)) == Ok(idx)
  {
    hide LittleEndian, EncodeIndexEntries, GetIndexEntries;
    Capacity4();
    GetIntWritten(|idx|, 4, EncodeIndexEntries(idx));
    IndexEntriesRoundTrip(idx, []);
    assert EncodeIndexEntries(idx) + [] == EncodeIndexEntries(idx);
  }

  // ---------- footer ----------

  function CompressionOf(n: nat): Result<Compression> {
    if n == 0 then Ok(NoCompression)
    else if n == 1 then Ok(Lz4)
    else if n == 2 then Ok(Zstd)
    else Err(Corruption)
  }

  function ParseFooter(s: seq<byte>): Result<Meta> {
    var (entryCount, s1) :- GetInt(s, 8);
    var (dataSize, s2) :- GetInt(s1, 8);
    var (indexSize, s3) :- GetInt(s2, 8);
    var (bloomOffset, s4) :- GetInt(s3, 8);
    var (bloomSize, s5) :- GetInt(s4, 8);
    var (createdAt, s6) :- GetInt(s5, 8);
    ParseFooterTail(Meta(entryCount, dataSize, indexSize, bloomOffset, bloomSize, createdAt, NoCompression, 0), s6)
  }

  function ParseFooterTail(m: Meta, s: seq<byte>): Result<Meta> {
    var (b, s1) :- GetInt(s, 1);
    var compression :- CompressionOf(b);
    var (version, s2) :- GetInt(s1, 4);
    var (magic, _) :- GetInt(s2, 4);
    if magic != SSTABLE_MAGIC then Err(Corruption)
    else if version != SSTABLE_VERSION then Err(Corruption)
    else Ok(m.(compression := compression, version := version))
  }

  lemma GetIntAt(s: seq<byte>, at: nat, width: nat)
    requires at + width <= |s|
    ensures GetInt(s[at..], width) == Ok((FromLittleEndian(s[at..at + width]), s[at + width..]))
  {
    assert s[at..][..width] == s[at..at + width] && s[at..][width..] == s[at + width..];
  }

  /**
    A footer byte by byte: six numbers of eight bytes, one byte for the compression, four for the version, four for
    the magic number. An unknown compression, version or magic number is refused.
   */
  lemma FooterExactly(s: seq<byte>)
    requires |s| == 64
    ensures ParseFooter(s) ==
      if s[48] > 2 || FromLittleEndian(s[49..53]) != 1 || FromLittleEndian(s[53..57]) != 0x53533454 then Err(Corruption)
      else Ok(Meta(FromLittleEndian(s[0..8]), FromLittleEndian(s[8..16]), FromLittleEndian(s[16..24]),
                   FromLittleEndian(s[24..32]), FromLittleEndian(s[32..40]), FromLittleEndian(s[40..48]),
                   if s[48] == 0 then NoCompression else if s[48] == 1 then Lz4 else Zstd, 1))
  {
    hide FromLittleEndian, GetInt;
    assert s[0..] == s;
    GetIntAt(s, 0, 8);
    GetIntAt(s, 8, 8);
    GetIntAt(s, 16, 8);
    GetIntAt(s, 24, 8);
    GetIntAt(s, 32, 8);
    GetIntAt(s, 40, 8);
    GetIntAt(s, 48, 1);
    GetIntAt(s, 49, 4);
    GetIntAt(s, 53, 4);
    ByteValue(s[48..49]);
  }

  /** Where the bytes of an index entry are: key length, key, offset, size. */
  lemma IndexEntryLayout(i: IndexEntry)
    requires IndexEntryFits(i)
    ensures var b, k := EncodeIndexEntry(i), |i.key|;
      && |b| == k + 20 && FromLittleEndian(b[..4]) == k && b[4..4 + k] == i.key
      && FromLittleEndian(b[4 + k..12 + k]) == i.offset && FromLittleEndian(b[12 + k..]) == i.size
  {
    hide LittleEndian, FromLittleEndian, Capacity;
    Capacity4();
    var b, k := EncodeIndexEntry(i), |i.key|;
    IntRoundTrip(k, 4);
    IntRoundTrip(i.offset, 8);
    IntRoundTrip(i.size, 8);
    assert b[..4] == LittleEndian(k, 4) && b[4..4 + k] == i.key;
    assert b[4 + k..12 + k] == LittleEndian(i.offset, 8) && b[12 + k..] == LittleEndian(i.size, 8);
  }

  predicate MetaFits(m: Meta) {
    && m.entryCount < U64 && m.dataSize < U64 && m.indexSize < U64
    && m.bloomOffset < U64 && m.bloomSize < U64 && m.createdAt < U64
    && m.version == SSTABLE_VERSION
  }

  function FooterTail(m: Meta): seq<byte> {
    LittleEndian(CompressionByte(m.compression), 1)
    + (LittleEndian(m.version, 4) + (LittleEndian(SSTABLE_MAGIC, 4) + seq(7, _ => 0)))
  }

  lemma FooterTailRoundTrip(m: Meta, start: Meta)
    requires MetaFits(m)
    ensures ParseFooterTail(start, FooterTail(m)) == Ok(start.(compression := m.compression, version := m.version))
  {
    hide LittleEndian;
    Capacity4();
    var pad: seq<byte> := seq(7, _ => 0);
    var t2 := LittleEndian(SSTABLE_MAGIC, 4) + pad;
    var t1 := LittleEndian(m.version, 4) + t2;
    GetIntWritten(CompressionByte(m.compression), 1, t1);
    GetIntWritten(m.version, 4, t2);
    GetIntWritten(SSTABLE_MAGIC, 4, pad);
  }

  lemma FooterRoundTrip(m: Meta)
    requires MetaFits(m)
    ensures |EncodeFooter(m)| == FOOTER_SIZE
    ensures ParseFooter(EncodeFooter(m)) == Ok(m)
  {
    hide LittleEndian, FromLittleEndian, Capacity, ParseFooterTail;
    Capacity4();
    var t6 := FooterTail(m);
    var t5 := LittleEndian(m.createdAt, 8) + t6;
    var t4 := LittleEndian(m.bloomSize, 8) + t5;
    var t3 := LittleEndian(m.bloomOffset, 8) + t4;
    var t2 := LittleEndian(m.indexSize, 8) + t3;
    var t1 := LittleEndian(m.dataSize, 8) + t2;
    assert EncodeFooter(m) == LittleEndian(m.entryCount, 8) + t1;
    GetIntWritten(m.entryCount, 8, t1);
    GetIntWritten(m.dataSize, 8, t2);
    GetIntWritten(m.indexSize, 8, t3);
    GetIntWritten(m.bloomOffset, 8, t4);
    GetIntWritten(m.bloomSize, 8, t5);
    GetIntWritten(m.createdAt, 8, t6);
    FooterTailRoundTrip(m, Meta(m.entryCount, m.dataSize, m.indexSize, m.bloomOffset, m.bloomSize, m.createdAt,
                                NoCompression, 0));
  }

  // ---------- the file ----------

  datatype Opened = Opened(meta: Meta, index: seq<IndexEntry>, filter: Option<Filter>)

  function OpenIndex(file: seq<byte>, m: Meta): Result<seq<IndexEntry>> {
    var bytes :- ReadAt(file, m.bloomOffset + m.bloomSize, m.indexSize);
    ParseIndex(bytes)
  }

  function OpenFilter(file: seq<byte>, m: Meta): Result<Option<Filter>> {
    if m.bloomSize == 0 then Ok(None)
    else
      var bytes :- ReadAt(file, m.bloomOffset, m.bloomSize);
      var f :- FromBytes(bytes);
      Ok(Some(f))
  }

  function OpenFile(file: seq<byte>): Result<Opened> {
    if |file| < FOOTER_SIZE then Err(Corruption)
    else
      var m :- ParseFooter(file[|file| - FOOTER_SIZE..]);
      var index :- OpenIndex(file, m);
      var filter :- OpenFilter(file, m);
      Ok(Opened(m, index, filter))
  }

  /** The widths of the format suffice for the table. */
  ghost predicate TableFits(p: Params, es: seq<Entry>) {
    && 0 < p.bitCount < U32 && p.hashCount < U32 && p.createdAt < U64
    && (forall e :: e in es ==> Fits(e))
    && |es| < U64
    && |Blocks(es)| < U32
    && |TableFile(p, es)| < U64
  }

  lemma {:induction false} DataSplit(p: Params, blocks: seq<seq<Entry>>, i: nat)
    requires i < |blocks|
    ensures var start, image := |Data(p, blocks[..i])|, BlockImage(p.codec, p.compression, p.level, blocks[i]);
      && start + |image| <= |Data(p, blocks)|
      && Data(p, blocks)[start..start + |image|] == image
    decreases |blocks|
  {
    hide BlockImage;
    var n := |blocks| - 1;
    if i < n {
      DataSplit(p, blocks[..n], i);
      assert blocks[..n][..i] == blocks[..i];
    }
  }

  lemma {:induction false} IndexAt(p: Params, blocks: seq<seq<Entry>>, i: nat)
    requires i < |blocks|
    ensures |Index(p, blocks)| == |blocks|
    ensures Index(p, blocks)[i] == IndexEntry(FirstKey(blocks[i]), |Data(p, blocks[..i])|,
                                              |BlockImage(p.codec, p.compression, p.level, blocks[i])|)
    decreases |blocks|
  {
    hide BlockImage;
    var n := |blocks| - 1;
    IndexLength(p, blocks[..n]);
    if i < n {
      IndexAt(p, blocks[..n], i);
      assert blocks[..n][..i] == blocks[..i];
    }
  }

  lemma {:induction false} IndexLength(p: Params, blocks: seq<seq<Entry>>)
    ensures |Index(p, blocks)| == |blocks|
  {
    if blocks != [] {
      IndexLength(p, blocks[..|blocks| - 1]);
    }
  }

  /** The index entries tile the data: each starts where the previous one ends, the last ends at its end. */
  lemma {:induction false} IndexTilesData(p: Params, blocks: seq<seq<Entry>>)
    ensures var idx := Index(p, blocks);
      && |idx| == |blocks|
      && (idx != [] ==> idx[0].offset == 0 && idx[|idx| - 1].offset + idx[|idx| - 1].size == |Data(p, blocks)|)
      && (forall i :: 0 <= i < |idx| - 1 ==> idx[i].offset + idx[i].size == idx[i + 1].offset)
      && (forall i :: 0 <= i < |idx| ==> idx[i].size >= 4)
  {
    hide Data, BlockImage, Index;
    IndexLength(p, blocks);
    forall i | 0 <= i < |blocks| - 1
      ensures Index(p, blocks)[i].offset + Index(p, blocks)[i].size == Index(p, blocks)[i + 1].offset
    {
      IndexAt(p, blocks, i);
      IndexAt(p, blocks, i + 1);
      DataNext(p, blocks, i);
    }
    forall i | 0 <= i < |blocks| ensures Index(p, blocks)[i].size >= 4 {
      IndexAt(p, blocks, i);
      ImageLength(p, blocks[i]);
    }
    if blocks != [] {
      IndexAt(p, blocks, 0);
      IndexAt(p, blocks, |blocks| - 1);
      DataNext(p, blocks, |blocks| - 1);
      assert blocks[..0] == [] && blocks[..|blocks|] == blocks;
      NoData(p);
    }
  }

  lemma ImageLength(p: Params, es: seq<Entry>)
    ensures |BlockImage(p.codec, p.compression, p.level, es)| >= 4
  {
    hide BlockBytes;
  }

  lemma NoData(p: Params)
    ensures Data(p, []) == []
  {
  }

  lemma DataNext(p: Params, blocks: seq<seq<Entry>>, i: nat)
    requires i < |blocks|
    ensures Data(p, blocks[..i + 1]) == Data(p, blocks[..i]) + BlockImage(p.codec, p.compression, p.level, blocks[i])
  {
    assert blocks[..i + 1][..i] == blocks[..i];
  }

  lemma WrittenIndexFits(p: Params, es: seq<Entry>)
    requires TableFits(p, es)
    ensures forall i :: i in Index(p, Blocks(es)) ==> IndexEntryFits(i)
  {
    var blocks := Blocks(es);
    GreedyLegal(es, EncodedSize, BLOCK_SIZE);
    IndexLength(p, blocks);
    forall x | 0 <= x < |blocks| ensures IndexEntryFits(Index(p, blocks)[x]) {
      hide Data, BlockImage, TableFile, Greedy;
      IndexAt(p, blocks, x);
      DataSplit(p, blocks, x);
      DataInFile(p, es);
      assert LegalPiece(blocks[x], EncodedSize, BLOCK_SIZE);
      FlattenMember(blocks, x, blocks[x][0]);
    }
  }

  lemma DataInFile(p: Params, es: seq<Entry>)
    requires p.bitCount > 0
    ensures |Data(p, Blocks(es))| <= |TableFile(p, es)|
  {
  }

  /** The file cut into its four parts. */
  lemma FileParts(p: Params, es: seq<Entry>)
    requires p.bitCount > 0
    ensures var m, file := MetaOf(p, es), TableFile(p, es);
      && |file| == m.dataSize + m.bloomSize + m.indexSize + FOOTER_SIZE
      && file[|file| - FOOTER_SIZE..] == EncodeFooter(m)
      && ReadAt(file, m.bloomOffset, m.bloomSize) == Ok(ToBytes(KeyFilter(p, es)))
      && ReadAt(file, m.bloomOffset + m.bloomSize, m.indexSize) == Ok(EncodeIndex(Index(p, Blocks(es))))
      && file[..m.dataSize] == Data(p, Blocks(es))
  {
    hide Data, KeyFilter, EncodeIndex, Index, Blocks, EncodeFooter, ToBytes;
    var m := MetaOf(p, es);
    var a, b, c, d := Data(p, Blocks(es)), ToBytes(KeyFilter(p, es)), EncodeIndex(Index(p, Blocks(es))), EncodeFooter(m);
    FooterLength(m);
    var file := a + b + c + d;
    assert file == TableFile(p, es);
    assert file[|a|..|a| + |b|] == b;
    assert file[|a| + |b|..|a| + |b| + |c|] == c;
    assert file[|a| + |b| + |c|..] == d;
  }

  /** The filter as it comes back: its element count is stored in 32 bits. */
  function StoredFilter(p: Params, es: seq<Entry>): Filter
    requires p.bitCount > 0
  {
    KeyFilter(p, es).(elementCount := |es| % U32)
  }

  lemma WrittenIndexOpens(p: Params, es: seq<Entry>)
    requires TableFits(p, es)
    ensures OpenIndex(TableFile(p, es), MetaOf(p, es)) == Ok(Index(p, Blocks(es)))
  {
    hide ParseIndex, EncodeIndex, TableFile, Blocks, MetaOf, KeyFilter;
    FileParts(p, es);
    WrittenIndexFits(p, es);
    IndexLength(p, Blocks(es));
    IndexRoundTrip(Index(p, Blocks(es)));
  }

  lemma WrittenFilterOpens(p: Params, es: seq<Entry>)
    requires TableFits(p, es)
    ensures OpenFilter(TableFile(p, es), MetaOf(p, es)) == Ok(Some(StoredFilter(p, es)))
  {
    hide FromBytes, ToBytes, TableFile, Data, EncodeIndex, Index, Blocks, KeyFilter;
    FileParts(p, es);
    FilterReloads(KeyFilter(p, es));
  }

  lemma FilterReloads(f: Filter)
    requires WellFormed(f) && f.bitCount < U32 && f.hashCount < U32
    ensures FromBytes(ToBytes(f)) == Ok(f.(elementCount := f.elementCount % U32))
    ensures |ToBytes(f)| >= 12
  {
    ReloadGives(f);
  }

  lemma WrittenFooterOpens(p: Params, es: seq<Entry>)
    requires TableFits(p, es)
    ensures |TableFile(p, es)| >= FOOTER_SIZE
    ensures ParseFooter(TableFile(p, es)[|TableFile(p, es)| - FOOTER_SIZE..]) == Ok(MetaOf(p, es))
  {
    hide ParseFooter, EncodeFooter, TableFile, Data, EncodeIndex, Index, Blocks, KeyFilter, ToBytes;
    FileParts(p, es);
    FooterRoundTrip(MetaOf(p, es));
  }

  /** Every written table opens, to the metadata, index and filter it was written with. */
  lemma WrittenTableOpens(p: Params, es: seq<Entry>)
    requires TableFits(p, es)
    ensures OpenFile(TableFile(p, es))
      == Ok(Opened(MetaOf(p, es), Index(p, Blocks(es)), Some(StoredFilter(p, es))))
  {
    hide ParseFooter, OpenIndex, OpenFilter, TableFile, MetaOf, Index, Blocks, StoredFilter;
    WrittenFooterOpens(p, es);
    WrittenIndexOpens(p, es);
    WrittenFilterOpens(p, es);
  }
}
