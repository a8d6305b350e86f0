/** What an opened table holds, and why looking in one block, or in a run of blocks, is enough. */
module TableContents {
  import opened Basics
  import opened ByteOrder
  import opened Sorting
  import opened Packing
  import opened Serialization
  import opened Bloom
  import opened TableFormat
  import opened TableOpening

  /** A table file together with what opening it gave. */
  datatype Handle = Handle(codec: Codec, hashes: Hashes, file: seq<byte>, toc: Opened)

  /** The uncompressed bytes of a block, read from the file. */
  function RawBlock(h: Handle, i: nat): Result<seq<byte>>
    requires i < |h.toc.index|
  {
    var stored :- ReadAt(h.file, h.toc.index[i].offset, h.toc.index[i].size);
    OpenBlock(h.codec, h.toc.meta.compression, stored)
  }

  function BlockAt(h: Handle, i: nat): Result<seq<Entry>>
    requires i < |h.toc.index|
  {
    var bytes :- RawBlock(h, i);
    ParseBlock(bytes)
  }

  function BlockList(h: Handle): seq<seq<Entry>> {
    seq(|h.toc.index|, i requires 0 <= i < |h.toc.index| => if BlockAt(h, i).Ok? then BlockAt(h, i).value else [])
  }

  /** All entries of the table, in file order. */
  function Contents(h: Handle): seq<Entry> {
    Flatten(BlockList(h))
  }

  /** Equal offsets mean equal blocks, so a cache keyed by offset cannot mix blocks up. */
  ghost predicate Coherent(idx: seq<IndexEntry>) {
    forall i, j :: 0 <= i < |idx| && 0 <= j < |idx| && idx[i].offset == idx[j].offset ==> idx[i].size == idx[j].size
  }

  ghost predicate FilterKnows(h: Handle) {
    h.toc.filter.Some? ==>
      && WellFormed(h.toc.filter.value)
      && forall e :: e in Contents(h) ==> MightContain(h.hashes, h.toc.filter.value, e.key)
  }

  ghost predicate BlocksOk(h: Handle) {
    forall i :: 0 <= i < |h.toc.index| ==>
      BlockAt(h, i).Ok? && BlockAt(h, i).value != [] && h.toc.index[i].key == BlockAt(h, i).value[0].key
  }

  /** A sound table: every block reads, keys ascend, the index holds first keys, the filter denies no stored key. */
  ghost predicate Readable(h: Handle) {
    BlocksOk(h) && Sorted(Contents(h)) && Coherent(h.toc.index) && FilterKnows(h)
  }

  // ---------- written tables are readable ----------

  function WrittenHandle(p: Params, es: seq<Entry>): Handle
    requires p.bitCount > 0
  {
    Handle(p.codec, p.hashes, TableFile(p, es), Opened(MetaOf(p, es), Index(p, Blocks(es)), Some(StoredFilter(p, es))))
  }

  lemma WrittenRawBlock(p: Params, es: seq<Entry>, i: nat)
    requires TableFits(p, es) && p.codec.Sound() && i < |Blocks(es)|
    ensures |Index(p, Blocks(es))| == |Blocks(es)|
    ensures RawBlock(WrittenHandle(p, es), i)
      == if Decompressible(p.compression, Blocks(es)[i]) then Ok(BlockBytes(Blocks(es)[i])) else Err(Decompression)
  {
    hide Data, BlockImage, TableFile, OpenBlock, Blocks, BlockBytes, TableFits;
    PositiveBits(p, es);
    var blocks, file := Blocks(es), TableFile(p, es);
    IndexAt(p, blocks, i);
    DataSplit(p, blocks, i);
    FileParts(p, es);
    var start, image := |Data(p, blocks[..i])|, BlockImage(p.codec, p.compression, p.level, blocks[i]);
    assert file[start..start + |image|] == Data(p, blocks)[start..start + |image|];
    assert ReadAt(file, start, |image|) == Ok(image);
    BlockImageOpens(p.codec, p.compression, p.level, blocks[i]);
  }

  lemma PositiveBits(p: Params, es: seq<Entry>)
    requires TableFits(p, es)
    ensures p.bitCount > 0
  {
  }

  lemma {:induction false} PieceIsShort(es: seq<Entry>)
    ensures |es| <= Total(es, EncodedSize)
  {
    if es != [] {
      PieceIsShort(es[..|es| - 1]);
    }
  }

  lemma BlockOfTable(es: seq<Entry>, i: nat)
    requires i < |Blocks(es)|
    ensures LegalPiece(Blocks(es)[i], EncodedSize, BLOCK_SIZE)
    ensures |Blocks(es)[i]| < U32
    ensures forall e :: e in Blocks(es)[i] ==> e in es
  {
    var blocks := Blocks(es);
    GreedyLegal(es, EncodedSize, BLOCK_SIZE);
    PieceIsShort(blocks[i]);
    forall e | e in blocks[i] ensures e in es { FlattenMember(blocks, i, e); }
  }

  lemma WrittenBlock(p: Params, es: seq<Entry>, i: nat)
    requires TableFits(p, es) && p.codec.Sound() && i < |Blocks(es)|
    ensures |Index(p, Blocks(es))| == |Blocks(es)|
    ensures BlockAt(WrittenHandle(p, es), i)
      == if Decompressible(p.compression, Blocks(es)[i]) then Ok(Blocks(es)[i]) else Err(Decompression)
  {
    hide Blocks, BlockBytes, ParseBlock, RawBlock, Decompressible, Fits;
    WrittenRawBlock(p, es, i);
    BlockOfTable(es, i);
    BlockRoundTrip(Blocks(es)[i]);
  }

  /** Zstd refuses to decompress more than four block sizes, so no entry may need more than that on its own. */
  ghost predicate EntriesDecompress(p: Params, es: seq<Entry>) {
    p.compression == Zstd ==> forall e :: e in es ==> 4 + EncodedSize(e) <= 0x4000
  }

  lemma BlockDecompresses(p: Params, es: seq<Entry>, i: nat)
    requires i < |Blocks(es)|
    ensures Decompressible(p.compression, Blocks(es)[i]) <==> EntriesDecompress(p, Blocks(es)[i])
  {
    hide EncodeEntry;
    var b := Blocks(es)[i];
    BlockOfTable(es, i);
    EncodedTotal(b);
    forall e | e in b ensures EncodedSize(e) <= Total(b, EncodedSize) { MemberSize(b, e); }
    if |b| == 1 {
      assert Total(b, EncodedSize) == EncodedSize(b[0]);
    }
  }

  lemma {:induction false} MemberSize(es: seq<Entry>, e: Entry)
    requires e in es
    ensures EncodedSize(e) <= Total(es, EncodedSize)
  {
    hide EncodedSize;
    var n := |es| - 1;
    if e != es[n] {
      assert e in es[..n];
      MemberSize(es[..n], e);
    }
  }

  /** A written table reads back completely exactly when no entry exceeds the decompression cap. */
  lemma ReadsBackExactly(p: Params, es: seq<Entry>)
    requires TableFits(p, es) && p.codec.Sound()
    ensures |Index(p, Blocks(es))| == |Blocks(es)|
    ensures (forall i :: 0 <= i < |Blocks(es)| ==> BlockAt(WrittenHandle(p, es), i) == Ok(Blocks(es)[i]))
      <==> EntriesDecompress(p, es)
  {
    hide EncodedSize, Blocks, BlockAt, Decompressible;
    IndexLength(p, Blocks(es));
    forall i | 0 <= i < |Blocks(es)|
      ensures BlockAt(WrittenHandle(p, es), i) == Ok(Blocks(es)[i]) <==> EntriesDecompress(p, Blocks(es)[i])
    {
      WrittenBlock(p, es, i);
      BlockDecompresses(p, es, i);
    }
    BlocksCoverEntries(p, es);
  }

  lemma BlocksCoverEntries(p: Params, es: seq<Entry>)
    ensures (forall i :: 0 <= i < |Blocks(es)| ==> EntriesDecompress(p, Blocks(es)[i])) <==> EntriesDecompress(p, es)
  {
    hide EncodedSize;
    GreedyLegal(es, EncodedSize, BLOCK_SIZE);
    var blocks := Blocks(es);
    if EntriesDecompress(p, es) {
      forall i | 0 <= i < |blocks| ensures EntriesDecompress(p, blocks[i]) {
        BlockOfTable(es, i);
      }
    }
    if forall i :: 0 <= i < |blocks| ==> EntriesDecompress(p, blocks[i]) {
      forall e | e in es && p.compression == Zstd ensures 4 + EncodedSize(e) <= 0x4000 {
        var i := MemberPiece(blocks, e);
        assert EntriesDecompress(p, blocks[i]);
      }
    }
  }

  lemma {:induction false} MemberPiece(pieces: seq<seq<Entry>>, e: Entry) returns (i: nat)
    requires e in Flatten(pieces)
    ensures i < |pieces| && e in pieces[i]
  {
    var n := |pieces| - 1;
    if e in pieces[n] {
      i := n;
    } else {
      i := MemberPiece(pieces[..n], e);
    }
  }

  lemma TiledIsCoherent(idx: seq<IndexEntry>)
    requires forall i :: 0 <= i < |idx| - 1 ==> idx[i].offset + idx[i].size == idx[i + 1].offset
    requires forall i :: 0 <= i < |idx| ==> idx[i].size >= 4
    ensures forall i, j :: 0 <= i < j < |idx| ==> idx[i].offset < idx[j].offset
    ensures Coherent(idx)
  {
    forall i, j | 0 <= i < j < |idx| ensures idx[i].offset < idx[j].offset {
      OffsetsAscend(idx, i, j);
    }
  }

  lemma {:induction false} OffsetsAscend(idx: seq<IndexEntry>, i: nat, j: nat)
    requires i < j < |idx|
    requires forall i :: 0 <= i < |idx| - 1 ==> idx[i].offset + idx[i].size == idx[i + 1].offset
    requires forall i :: 0 <= i < |idx| ==> idx[i].size >= 4
    ensures idx[i].offset < idx[j].offset
    decreases j
  {
    assert idx[j - 1].offset + idx[j - 1].size == idx[j].offset;
    if i < j - 1 {
      OffsetsAscend(idx, i, j - 1);
    }
  }

  lemma {:induction false} FilterKnowsKeys(p: Params, es: seq<Entry>, e: Entry)
    requires p.bitCount > 0 && e in es
    ensures MightContain(p.hashes, KeyFilter(p, es), e.key)
  {
    var n := |es| - 1;
    if e.key != es[n].key {
      assert e in es[..n];
      FilterKnowsKeys(p, es[..n], e);
    }
    AddKeepsMembers(p.hashes, KeyFilter(p, es[..n]), es[n].key, e.key);
  }

  lemma WrittenFilterKnows(p: Params, es: seq<Entry>)
    requires p.bitCount > 0 && Contents(WrittenHandle(p, es)) == es
    ensures FilterKnows(WrittenHandle(p, es))
  {
    forall e | e in es ensures MightContain(p.hashes, StoredFilter(p, es), e.key) {
      FilterKnowsKeys(p, es, e);
      SamePositions(p.hashes, KeyFilter(p, es), StoredFilter(p, es), e.key);
    }
  }

  lemma WrittenBlockList(p: Params, es: seq<Entry>)
    requires TableFits(p, es) && p.codec.Sound() && EntriesDecompress(p, es)
    ensures BlockList(WrittenHandle(p, es)) == Blocks(es)
    ensures BlocksOk(WrittenHandle(p, es))
  {
    hide EncodedSize, BlockAt, Data, TableFile, MetaOf, KeyFilter, EntriesDecompress, Blocks, TableFits;
    PositiveBits(p, es);
    ReadsBackExactly(p, es);
    forall i | 0 <= i < |Blocks(es)| ensures Blocks(es)[i] != [] && Index(p, Blocks(es))[i].key == Blocks(es)[i][0].key {
      BlockOfTable(es, i);
      IndexAt(p, Blocks(es), i);
    }
  }

  lemma WrittenIsCoherent(p: Params, es: seq<Entry>)
    ensures Coherent(Index(p, Blocks(es)))
  {
    hide Data, Blocks;
    IndexTilesData(p, Blocks(es));
    TiledIsCoherent(Index(p, Blocks(es)));
  }

  /** Every written table is readable and holds exactly what was written. */
  lemma WrittenIsReadable(p: Params, es: seq<Entry>)
    requires TableFits(p, es) && p.codec.Sound() && Sorted(es) && EntriesDecompress(p, es)
    ensures Readable(WrittenHandle(p, es))
    ensures BlockList(WrittenHandle(p, es)) == Blocks(es)
    ensures Contents(WrittenHandle(p, es)) == es
  {
    hide EncodedSize, BlockAt, BlockList, BlocksOk, Data;
    hide TableFile, FilterKnows, Sorted, MetaOf, KeyFilter, EntriesDecompress;
    PositiveBits(p, es);
    WrittenBlockList(p, es);
    GreedyLegal(es, EncodedSize, BLOCK_SIZE);
    WrittenIsCoherent(p, es);
    WrittenFilterKnows(p, es);
  }

  // ---------- one block is enough for a point lookup ----------

  /** Block `i` is the last one whose first key is at most `k`; `None` means the key is before the first block. */
  ghost predicate IsBlockFor(idx: seq<IndexEntry>, k: Key, r: Option<nat>) {
    match r
    case None => idx == [] || Less(k, idx[0].key)
    case Some(i) => i < |idx| && !Less(k, idx[i].key) && (i + 1 < |idx| ==> Less(k, idx[i + 1].key))
  }

  ghost predicate KeysAscend(idx: seq<IndexEntry>) {
    forall i, j :: 0 <= i < j < |idx| ==> Less(idx[i].key, idx[j].key)
  }

  /** The first entry of block `i` sits after all entries of earlier blocks. */
  lemma BlockStart(blocks: seq<seq<Entry>>, i: nat, j: nat)
    requires i < |blocks| && j < |blocks[i]|
    ensures |Flatten(blocks[..i])| + j < |Flatten(blocks)|
    ensures Flatten(blocks)[|Flatten(blocks[..i])| + j] == blocks[i][j]
  {
    FlattenSplit(blocks, i);
  }

  lemma ReadableIndexAscends(h: Handle)
    requires Readable(h)
    ensures KeysAscend(h.toc.index)
  {
    hide BlockAt, FilterKnows, Coherent, Less;
    var idx, blocks := h.toc.index, BlockList(h);
    forall i, j | 0 <= i < j < |idx| ensures Less(idx[i].key, idx[j].key) {
      assert blocks[i] != [] && blocks[j] != [];
      BlockStart(blocks, i, 0);
      BlockStart(blocks, j, 0);
      FlattenSplit(blocks[..j], i);
      assert blocks[..j][..i] == blocks[..i];
    }
  }

  lemma KeyBeforeBlock(all: seq<Entry>, n: nat, k: Key)
    requires Sorted(all) && n < |all| && Less(k, all[n].key)
    ensures forall e :: e in all[n..] ==> Less(k, e.key)
  {
    LessIsStrictTotalOrder();
  }

  lemma KeyAfterBlock(all: seq<Entry>, n: nat, k: Key)
    requires Sorted(all) && n < |all| && !Less(k, all[n].key)
    ensures forall e :: e in all[..n] ==> Less(e.key, k)
  {
    forall e | e in all[..n] ensures Less(e.key, k) {
      var i :| 0 <= i < n && all[i] == e;
      assert Less(all[i].key, all[n].key);
      LessTotal(k, all[n].key);
      LessIsStrictTotalOrder();
    }
  }

  lemma NotFound(es: seq<Entry>, k: Key)
    requires (forall e :: e in es ==> Less(k, e.key)) || (forall e :: e in es ==> Less(e.key, k))
    ensures Find(es, k) == None
  {
    if Find(es, k).Some? {
      LessIrreflexive(k);
    }
  }

  /** Searching only that block finds what searching the whole table finds. */
  lemma OneBlockIsEnough(blocks: seq<seq<Entry>>, k: Key, i: nat)
    requires Sorted(Flatten(blocks)) && i < |blocks| && blocks[i] != [] && !Less(k, blocks[i][0].key)
    requires i + 1 < |blocks| ==> blocks[i + 1] != [] && Less(k, blocks[i + 1][0].key)
    ensures Find(Flatten(blocks), k) == Find(blocks[i], k)
  {
    hide Less, Find;
    var a, b, c := Flatten(blocks[..i]), blocks[i], Flatten(blocks[i + 1..]);
    var all := Flatten(blocks);
    FlattenSplit(blocks, i);
    assert all == a + b + c;
    assert all[|a|] == b[0] && all[..|a|] == a;
    KeyAfterBlock(all, |a|, k);
    NotFound(a, k);
    if i + 1 < |blocks| {
      FlattenSplit(blocks[i + 1..], 0);
      assert blocks[i + 1..][..0] == [];
      assert c[0] == blocks[i + 1][0];
      assert all[|a| + |b|] == c[0] && all[|a| + |b|..] == c;
      KeyBeforeBlock(all, |a| + |b|, k);
    } else {
      assert c == [];
    }
    NotFound(c, k);
    FindAppend(a + b, c, k);
    FindAppend(a, b, k);
  }

  lemma BeforeFirstBlock(blocks: seq<seq<Entry>>, k: Key)
    requires Sorted(Flatten(blocks)) && (blocks == [] || (blocks[0] != [] && Less(k, blocks[0][0].key)))
    ensures Find(Flatten(blocks), k) == None
  {
    hide Less, Find;
    var all := Flatten(blocks);
    if blocks != [] {
      BlockStart(blocks, 0, 0);
      assert blocks[..0] == [];
      KeyBeforeBlock(all, 0, k);
      assert all[0..] == all;
    }
    NotFound(all, k);
  }

  // ---------- a run of blocks is enough for a range ----------

  lemma {:induction false} NothingInRange(es: seq<Entry>, lo: Key, hi: Key)
    requires forall e :: e in es ==> !Within(e.key, lo, hi)
    ensures Slice(es, lo, hi) == []
  {
    if es != [] {
      assert es[0] in es;
      assert forall e :: e in es[1..] ==> e in es;
      NothingInRange(es[1..], lo, hi);
    }
  }

  /** Blocks before the one for `lo` hold nothing in the range. */
  lemma SkippedBlocks(blocks: seq<seq<Entry>>, lo: Key, hi: Key, i: nat)
    requires Sorted(Flatten(blocks)) && i < |blocks| && blocks[i] != [] && !Less(lo, blocks[i][0].key)
    ensures Slice(Flatten(blocks[..i]), lo, hi) == []
  {
    hide Less, Slice;
    var all, n := Flatten(blocks), |Flatten(blocks[..i])|;
    FlattenSplit(blocks, i);
    BlockStart(blocks, i, 0);
    KeyAfterBlock(all, n, lo);
    assert all[..n] == Flatten(blocks[..i]);
    NothingInRange(Flatten(blocks[..i]), lo, hi);
  }

  /** From the first block that starts at or after `hi` on, nothing is in the range. */
  lemma RemainingBlocks(blocks: seq<seq<Entry>>, lo: Key, hi: Key, i: nat)
    requires Sorted(Flatten(blocks)) && i < |blocks| && blocks[i] != [] && !Less(blocks[i][0].key, hi)
    ensures Slice(Flatten(blocks), lo, hi) == Slice(Flatten(blocks[..i]), lo, hi)
  {
    hide Less, Slice;
    var all, n := Flatten(blocks), |Flatten(blocks[..i])|;
    FlattenAppend(blocks[..i], blocks[i..]);
    assert blocks == blocks[..i] + blocks[i..];
    BlockStart(blocks, i, 0);
    assert all[..n] + all[n..] == all && all[..n] == Flatten(blocks[..i]);
    forall e | e in all[n..] ensures !Within(e.key, lo, hi) {
      var x :| n <= x < |all| && all[x] == e;
      LessIsStrictTotalOrder();
      assert x == n || Less(all[n].key, all[x].key);
    }
    NothingInRange(all[n..], lo, hi);
    SliceAppend(all[..n], all[n..], lo, hi);
  }
}
