/** The table file: entries in checksummed, compressed blocks, then a bloom filter, an index and a footer. */
module TableFormat {
  import opened Basics
  import opened Bits
  import opened Sorting
  import opened Packing
  import opened Serialization
  import opened Bloom

  const SSTABLE_MAGIC: nat := 0x53533454
  const SSTABLE_VERSION: nat := 1
  const BLOCK_SIZE: nat := 4096
  const FOOTER_SIZE: nat := 64

  datatype Compression = NoCompression | Lz4 | Zstd

  /** The code the file format relies on and this model does not look into. */
  datatype Codec = Codec(
    lz4: seq<byte> -> seq<byte>,
    unlz4: seq<byte> -> Option<seq<byte>>,
    zstd: (seq<byte>, int) -> seq<byte>,
    unzstd: (seq<byte>, nat) -> Option<seq<byte>>,  // refuses output beyond a capacity
    crc: seq<byte> -> nat)
  {
    ghost predicate Sound() {
      && (forall x :: unlz4(lz4(x)) == Some(x))
      && (forall x, level, cap :: unzstd(zstd(x, level), cap) == if |x| <= cap then Some(x) else None)
      && (forall x :: crc(x) < U32)
    }
  }

  // ---------- entries ----------

  function EncodeValue(e: Entry): seq<byte> {
    (if e.value.Some? then [1] + LittleEndian(|e.value.value|, 4) + e.value.value else [0])
    + LittleEndian(e.timestamp, 8) + LittleEndian(e.sequence, 8)
  }

  function EncodeEntry(e: Entry): seq<byte> {
    LittleEndian(|e.key|, 4) + e.key + EncodeValue(e)
  }

  function EncodedSize(e: Entry): nat {
    |EncodeEntry(e)|
  }

  function EncodeEntries(es: seq<Entry>): seq<byte> {
    if es == [] then [] else EncodeEntries(es[..|es| - 1]) + EncodeEntry(es[|es| - 1])
  }

  lemma {:induction false} EncodedTotal(es: seq<Entry>)
    ensures |EncodeEntries(es)| == Total(es, EncodedSize)
  {
    hide EncodeEntry;
    if es != [] {
      EncodedTotal(es[..|es| - 1]);
    }
  }

  function BlockBytes(es: seq<Entry>): seq<byte> {
    LittleEndian(|es|, 4) + EncodeEntries(es)
  }

  function GetKey(s: seq<byte>): Result<(Key, seq<byte>)> {
    var (n, s1) :- GetInt(s, 4);
    GetBytes(s1, n)
  }

  /** What follows the key of an entry. */
  function GetValue(key: Key, s: seq<byte>): Result<(Entry, seq<byte>)> {
    var (has, s1) :- GetInt(s, 1);
    var (value, s2) :- GetOptional(has, s1);
    var (timestamp, s3) :- GetInt(s2, 8);
    var (sequence, s4) :- GetInt(s3, 8);
    Ok((Entry(key, value, timestamp, sequence), s4))
  }

  function GetOptional(has: nat, s: seq<byte>): Result<(Option<Value>, seq<byte>)> {
    if has == 0 then Ok((None, s))
    else
      var (n, s1) :- GetInt(s, 4);
      var (v, s2) :- GetBytes(s1, n);
      Ok((Some(v), s2))
  }

  function GetEntry(s: seq<byte>): Result<(Entry, seq<byte>)> {
    var (key, s1) :- GetKey(s);
    GetValue(key, s1)
  }

  function GetEntries(n: nat, s: seq<byte>): Result<seq<Entry>> {
    if n == 0 then Ok([])
    else
      var (e, rest) :- GetEntry(s);
      var es :- GetEntries(n - 1, rest);
      Ok([e] + es)
  }

  function ParseBlock(s: seq<byte>): Result<seq<Entry>> {
    var (n, rest) :- GetInt(s, 4);
    GetEntries(n, rest)
  }

  /** The lengths and numbers of the entry fit the widths they are written with. */
  predicate Fits(e: Entry) {
    |e.key| < U32 && (e.value.Some? ==> |e.value.value| < U32) && e.timestamp < U64 && e.sequence < U64
  }

  lemma OptionalRoundTrip(v: Option<Value>, tail: seq<byte>)
    requires v.Some? ==> |v.value| < U32
    ensures var s := (if v.Some? then [1] + LittleEndian(|v.value|, 4) + v.value else [0]) + tail;
      && GetInt(s, 1).Ok?
      && GetOptional(GetInt(s, 1).value.0, GetInt(s, 1).value.1) == Ok((v, tail))
  {
    Capacity4();
    if v.Some? {
      var s := [1] + LittleEndian(|v.value|, 4) + v.value + tail;
      ByteValue(s[..1]);
      assert s[1..] == LittleEndian(|v.value|, 4) + (v.value + tail);
      GetIntWritten(|v.value|, 4, v.value + tail);
      GetBytesWritten(v.value, tail);
    } else {
      ByteValue(([0] + tail)[..1]);
      assert ([0] + tail)[1..] == tail;
    }
  }

  lemma ValueRoundTrip(e: Entry, tail: seq<byte>)
    requires Fits(e)
    ensures GetValue(e.key, EncodeValue(e) + tail) == Ok((e, tail))
  {
    hide LittleEndian;
    Capacity4();
    var numbers := LittleEndian(e.timestamp, 8) + (LittleEndian(e.sequence, 8) + tail);
    var front := if e.value.Some? then [1] + LittleEndian(|e.value.value|, 4) + e.value.value else [0];
    assert EncodeValue(e) + tail == front + numbers;
    OptionalRoundTrip(e.value, numbers);
    GetIntWritten(e.timestamp, 8, LittleEndian(e.sequence, 8) + tail);
    GetIntWritten(e.sequence, 8, tail);
  }

  /** An entry whose fields fit their widths comes back unchanged, with the bytes after it untouched. */
  lemma EntryRoundTrip(e: Entry, tail: seq<byte>)
    requires Fits(e)
    ensures GetEntry(EncodeEntry(e) + tail) == Ok((e, tail))
  {
    hide LittleEndian, EncodeValue, GetValue;
    Capacity4();
    var after := EncodeValue(e) + tail;
    assert EncodeEntry(e) + tail == LittleEndian(|e.key|, 4) + (e.key + after);
    GetIntWritten(|e.key|, 4, e.key + after);
    GetBytesWritten(e.key, after);
    ValueRoundTrip(e, tail);
  }

  /** Where the bytes of an entry are: key length, key, a flag, value length and value, timestamp, sequence. */
  lemma EntryLayout(e: Entry)
    requires Fits(e)
    ensures var b, k, n := EncodeEntry(e), |e.key|, |EncodeEntry(e)|;
      && n == k + 21 + (if e.value.Some? then 4 + |e.value.value| else 0)
      && FromLittleEndian(b[..4]) == k && b[4..4 + k] == e.key
      && b[4 + k] == (if e.value.Some? then 1 else 0)
      && (e.value.Some? ==> FromLittleEndian(b[5 + k..9 + k]) == |e.value.value| && b[9 + k..n - 16] == e.value.value)
      && FromLittleEndian(b[n - 16..n - 8]) == e.timestamp && FromLittleEndian(b[n - 8..]) == e.sequence
  {
    hide LittleEndian, FromLittleEndian, Capacity;
    Capacity4();
    var b, k, n := EncodeEntry(e), |e.key|, |EncodeEntry(e)|;
    IntRoundTrip(k, 4);
    IntRoundTrip(e.timestamp, 8);
    IntRoundTrip(e.sequence, 8);
    assert b[..4] == LittleEndian(k, 4) && b[4..4 + k] == e.key;
    assert b[n - 16..n - 8] == LittleEndian(e.timestamp, 8) && b[n - 8..] == LittleEndian(e.sequence, 8);
    if e.value.Some? {
      IntRoundTrip(|e.value.value|, 4);
      assert b[5 + k..9 + k] == LittleEndian(|e.value.value|, 4);
      assert b[9 + k..n - 16] == e.value.value;
    }
  }

  lemma {:induction false} EncodeCons(e: Entry, es: seq<Entry>)
    ensures EncodeEntries([e] + es) == EncodeEntry(e) + EncodeEntries(es)
  {
    hide EncodeEntry;
    if es == [] {
      assert [e] + es == [e];
      assert EncodeEntries([e]) == [] + EncodeEntry(e);
    } else {
      var n := |es| - 1;
      assert ([e] + es)[..|es|] == [e] + es[..n];
      EncodeCons(e, es[..n]);
    }
  }

  lemma {:induction false} EntriesRoundTrip(es: seq<Entry>, tail: seq<byte>)
    requires forall e :: e in es ==> Fits(e)
    ensures GetEntries(|es|, EncodeEntries(es) + tail) == Ok(es)
  {
    hide EncodeEntry, GetEntry, Fits;
    if es != [] {
      var after := EncodeEntries(es[1..]) + tail;
      assert es == [es[0]] + es[1..];
      EncodeCons(es[0], es[1..]);
      assert EncodeEntries(es) + tail == EncodeEntry(es[0]) + after;
      EntryRoundTrip(es[0], after);
      EntriesRoundTrip(es[1..], tail);
    }
  }

  lemma BlockRoundTrip(es: seq<Entry>)
    requires (forall e :: e in es ==> Fits(e)) && |es| < U32
    ensures ParseBlock(BlockBytes(es)) == Ok(es)
  {
    hide LittleEndian, EncodeEntries, GetEntries;
    Capacity4();
    GetIntWritten(|es|, 4, EncodeEntries(es));
    EntriesRoundTrip(es, []);
    assert EncodeEntries(es) + [] == EncodeEntries(es);
  }

  // ---------- searching a block without decoding what is skipped ----------

  function SkipValue(s: seq<byte>): Result<seq<byte>> {
    var (has, s1) :- GetInt(s, 1);
    var s2 :- SkipOptional(has, s1);
    SkipBytes(s2, 16)
  }

  function SkipOptional(has: nat, s: seq<byte>): Result<seq<byte>> {
    if has == 0 then Ok(s)
    else
      var (n, s1) :- GetInt(s, 4);
      SkipBytes(s1, n)
  }

  function SkipBytes(s: seq<byte>, n: nat): Result<seq<byte>> {
    if |s| < n then Err(Corruption) else Ok(s[n..])
  }

  function SearchEntries(n: nat, s: seq<byte>, target: Key): Result<Option<Entry>> {
    if n == 0 then Ok(None)
    else
      var (key, s1) :- GetKey(s);
      if key == target then
        var (e, _) :- GetValue(key, s1);
        Ok(Some(e))
      else
        var rest :- SkipValue(s1);
        SearchEntries(n - 1, rest, target)
  }

  function SearchBlock(s: seq<byte>, target: Key): Result<Option<Entry>> {
    var (n, rest) :- GetInt(s, 4);
    SearchEntries(n, rest, target)
  }

  function SelectEntries(n: nat, s: seq<byte>, lo: Key, hi: Key): Result<seq<Entry>> {
    if n == 0 then Ok([])
    else
      var (key, s1) :- GetKey(s);
      if Within(key, lo, hi) then
        var (e, rest) :- GetValue(key, s1);
        var es :- SelectEntries(n - 1, rest, lo, hi);
        Ok([e] + es)
      else
        var rest :- SkipValue(s1);
        SelectEntries(n - 1, rest, lo, hi)
  }

  function SelectBlock(s: seq<byte>, lo: Key, hi: Key): Result<seq<Entry>> {
    var (n, rest) :- GetInt(s, 4);
    SelectEntries(n, rest, lo, hi)
  }

  /** Skipping an entry's value lands where decoding it would, and fails where decoding would. */
  lemma SkipAgrees(key: Key, s: seq<byte>)
    ensures SkipValue(s) == match GetValue(key, s) { case Ok(p) => Ok(p.1) case Err(e) => Err(e) }
    ensures GetValue(key, s).Ok? ==> GetValue(key, s).value.0.key == key
  {
    hide FromLittleEndian;
    if GetInt(s, 1).Ok? {
      var (has, s1) := GetInt(s, 1).value;
      var o := GetOptional(has, s1);
      if o.Ok? {
        var s2 := o.value.1;
        assert |s2| >= 16 ==> s2[8..][8..] == s2[16..];
      }
    }
  }

  /** The skipping search of a well-formed block finds exactly what a search of its entries finds. */
  lemma {:induction false} SearchAgrees(n: nat, s: seq<byte>, target: Key)
    requires GetEntries(n, s).Ok?
    ensures SearchEntries(n, s, target) == Ok(Find(GetEntries(n, s).value, target))
  {
    hide GetValue, SkipValue;
    if n > 0 {
      var (key, s1) := GetKey(s).value;
      SkipAgrees(key, s1);
      var (e, rest) := GetEntry(s).value;
      var es := GetEntries(n - 1, rest).value;
      assert ([e] + es)[1..] == es;
      SearchAgrees(n - 1, rest, target);
    }
  }

  lemma {:induction false} SelectAgrees(n: nat, s: seq<byte>, lo: Key, hi: Key)
    requires GetEntries(n, s).Ok?
    ensures SelectEntries(n, s, lo, hi) == Ok(Slice(GetEntries(n, s).value, lo, hi))
  {
    hide GetValue, SkipValue, Within;
    if n > 0 {
      var (key, s1) := GetKey(s).value;
      SkipAgrees(key, s1);
      var (e, rest) := GetEntry(s).value;
      var es := GetEntries(n - 1, rest).value;
      assert ([e] + es)[1..] == es;
      SelectAgrees(n - 1, rest, lo, hi);
      assert [] + Slice(es, lo, hi) == Slice(es, lo, hi);
    }
  }

  // ---------- blocks on disk ----------

  function Compress(c: Codec, comp: Compression, level: int, data: seq<byte>): seq<byte> {
    match comp
    case NoCompression => data
    case Lz4 => c.lz4(data)
    case Zstd => c.zstd(data, level)
  }

  function Decompress(c: Codec, comp: Compression, data: seq<byte>): Result<seq<byte>> {
    match comp
    case NoCompression => Ok(data)
    case Lz4 => var r := c.unlz4(data); if r.Some? then Ok(r.value) else Err(Decompression)
    case Zstd => var r := c.unzstd(data, BLOCK_SIZE * 4); if r.Some? then Ok(r.value) else Err(Decompression)
  }

  function BlockImage(c: Codec, comp: Compression, level: int, es: seq<Entry>): seq<byte> {
    var data := Compress(c, comp, level, BlockBytes(es));
    LittleEndian(c.crc(data), 4) + data
  }

  function ReadAt(file: seq<byte>, offset: nat, size: nat): Result<seq<byte>> {
    if offset + size > |file| then Err(Corruption) else Ok(file[offset..offset + size])
  }

  /** Check and decompress what was stored for a block. */
  function OpenBlock(c: Codec, comp: Compression, stored: seq<byte>): Result<seq<byte>> {
    if |stored| < 4 then Err(Corruption)
    else
      var expected, actual := FromLittleEndian(stored[..4]), c.crc(stored[4..]);
      if expected != actual then Err(ChecksumMismatch(expected, actual))
      else Decompress(c, comp, stored[4..])
  }

  /** What stored bytes are refused: too few of them, or data that does not match the checksum before it. */
  lemma DamageIsRefused(c: Codec, comp: Compression, stored: seq<byte>)
    ensures |stored| < 4 ==> OpenBlock(c, comp, stored) == Err(Corruption)
    ensures |stored| >= 4 ==>
      var expected, actual := FromLittleEndian(stored[..4]), c.crc(stored[4..]);
      OpenBlock(c, comp, stored) ==
        if expected != actual then Err(ChecksumMismatch(expected, actual)) else Decompress(c, comp, stored[4..])
  {
  }

  /** What decompression gives, method by method; Zstd is given room for sixteen kilobytes. */
  lemma DecompressExactly(c: Codec, data: seq<byte>)
    ensures Decompress(c, NoCompression, data) == Ok(data)
    ensures Decompress(c, Lz4, data) == match c.unlz4(data) { case Some(x) => Ok(x) case None => Err(Decompression) }
    ensures Decompress(c, Zstd, data) ==
      match c.unzstd(data, 0x4000) { case Some(x) => Ok(x) case None => Err(Decompression) }
  {
  }

  /** Zstd decompression is capped, the other methods are not. */
  predicate Decompressible(comp: Compression, es: seq<Entry>) {
    comp == Zstd ==> |BlockBytes(es)| <= 0x4000
  }

  /** A written block opens to its bytes exactly when decompression is allowed that many. */
  lemma BlockImageOpens(c: Codec, comp: Compression, level: int, es: seq<Entry>)
    requires c.Sound()
    ensures OpenBlock(c, comp, BlockImage(c, comp, level, es))
      == if Decompressible(comp, es) then Ok(BlockBytes(es)) else Err(Decompression)
  {
    hide LittleEndian, FromLittleEndian, BlockBytes;
    Capacity4();
    var data := Compress(c, comp, level, BlockBytes(es));
    var image := BlockImage(c, comp, level, es);
    IntRoundTrip(c.crc(data), 4);
    assert image[..4] == LittleEndian(c.crc(data), 4) && image[4..] == data;
  }

  // ---------- the whole file ----------

  datatype IndexEntry = IndexEntry(key: Key, offset: nat, size: nat)

  datatype Meta = Meta(
    entryCount: nat, dataSize: nat, indexSize: nat, bloomOffset: nat, bloomSize: nat, createdAt: nat,
    compression: Compression, version: nat)

  /** What the writer is told besides the entries. */
  datatype Params = Params(
    codec: Codec, hashes: Hashes, compression: Compression, level: int,
    bitCount: nat, hashCount: nat, createdAt: nat)

  function Blocks(es: seq<Entry>): seq<seq<Entry>> {
    Greedy(es, EncodedSize, BLOCK_SIZE)
  }

  /**
    The blocks of a table: the entries in order and without loss, none empty, none beyond four kilobytes unless it
    holds a single entry, and none with room for the entry that begins the next one.
   */
  lemma BlocksAreCut(es: seq<Entry>)
    ensures Flatten(Blocks(es)) == es
    ensures forall i :: 0 <= i < |Blocks(es)| ==> var b := Blocks(es)[i];
      b != [] && (|EncodeEntries(b)| <= 4096 || |b| == 1)
    ensures forall i, j :: 0 <= i && i + 1 == j < |Blocks(es)| ==>
      Blocks(es)[j] != [] && |EncodeEntries(Blocks(es)[i])| + |EncodeEntry(Blocks(es)[j][0])| > 4096
  {
    hide EncodeEntries, EncodeEntry, Greedy, Total;
    var blocks := Blocks(es);
    GreedyLegal(es, EncodedSize, BLOCK_SIZE);
    GreedyFull(es, EncodedSize, BLOCK_SIZE);
    forall i | 0 <= i < |blocks| ensures |EncodeEntries(blocks[i])| == Total(blocks[i], EncodedSize) {
      EncodedTotal(blocks[i]);
    }
    forall i, j | 0 <= i && i + 1 == j < |blocks|
      ensures blocks[j] != [] && |EncodeEntries(blocks[i])| + |EncodeEntry(blocks[j][0])| > 4096
    {
      assert Overflows(blocks[i], blocks[j], EncodedSize, BLOCK_SIZE);
    }
    forall i | 0 <= i < |blocks| ensures blocks[i] != [] && (|EncodeEntries(blocks[i])| <= 4096 || |blocks[i]| == 1) {
      assert LegalPiece(blocks[i], EncodedSize, BLOCK_SIZE);
    }
  }

  function Data(p: Params, blocks: seq<seq<Entry>>): seq<byte> {
    if blocks == [] then []
    else
      var n := |blocks| - 1;
      Data(p, blocks[..n]) + BlockImage(p.codec, p.compression, p.level, blocks[n])
  }

  function FirstKey(es: seq<Entry>): Key {
    if es == [] then [] else es[0].key
  }

  function Index(p: Params, blocks: seq<seq<Entry>>): seq<IndexEntry> {
    if blocks == [] then []
    else
      var n := |blocks| - 1;
      Index(p, blocks[..n]) + [IndexEntry(FirstKey(blocks[n]), |Data(p, blocks[..n])|,
                                          |BlockImage(p.codec, p.compression, p.level, blocks[n])|)]
  }

  function EncodeIndexEntry(i: IndexEntry): seq<byte> {
    LittleEndian(|i.key|, 4) + i.key + LittleEndian(i.offset, 8) + LittleEndian(i.size, 8)
  }

  function EncodeIndexEntries(idx: seq<IndexEntry>): seq<byte> {
    if idx == [] then [] else EncodeIndexEntries(idx[..|idx| - 1]) + EncodeIndexEntry(idx[|idx| - 1])
  }

  function EncodeIndex(idx: seq<IndexEntry>): seq<byte> {
    LittleEndian(|idx|, 4) + EncodeIndexEntries(idx)
  }

  function CompressionByte(comp: Compression): nat {
    match comp
    case NoCompression => 0
    case Lz4 => 1
    case Zstd => 2
  }

  function EncodeFooter(m: Meta): seq<byte> {
    LittleEndian(m.entryCount, 8) + LittleEndian(m.dataSize, 8) + LittleEndian(m.indexSize, 8)
    + LittleEndian(m.bloomOffset, 8) + LittleEndian(m.bloomSize, 8) + LittleEndian(m.createdAt, 8)
    + LittleEndian(CompressionByte(m.compression), 1) + LittleEndian(m.version, 4) + LittleEndian(SSTABLE_MAGIC, 4)
    + seq(7, _ => 0)
  }

  lemma FooterLength(m: Meta)
    ensures |EncodeFooter(m)| == FOOTER_SIZE
  {
    hide LittleEndian;
  }

  /** The filter after adding the keys in order. */
  function KeyFilter(p: Params, es: seq<Entry>): (f: Filter)
    requires p.bitCount > 0
    ensures WellFormed(f) && f.bitCount == p.bitCount && f.hashCount == p.hashCount && f.elementCount == |es|
  {
    if es == [] then EmptyFilter(p.bitCount, p.hashCount)
    else AddTo(p.hashes, KeyFilter(p, es[..|es| - 1]), es[|es| - 1].key)
  }

  function MetaOf(p: Params, es: seq<Entry>): Meta
    requires p.bitCount > 0
  {
    var data := Data(p, Blocks(es));
    Meta(|es|, |data|, |EncodeIndex(Index(p, Blocks(es)))|, |data|, |ToBytes(KeyFilter(p, es))|, p.createdAt,
         p.compression, SSTABLE_VERSION)
  }

  /** The bits of the filter are those of the entries' keys and no others. */
  lemma {:induction false} KeyFilterBits(p: Params, es: seq<Entry>, x: nat)
    requires p.bitCount > 0
    ensures IsSet(KeyFilter(p, es).bits, x) <==>
      exists e :: e in es && IsProbed(p.hashes.blake(e.key), p.hashes.sip(e.key), p.hashCount, p.bitCount, x)
  {
    hide IsProbed, GetBit, IsSet, Positions, AddTo;
    GetBitIs(KeyFilter(p, es).bits, x);
    if es == [] {
      NothingSet(p.bitCount, p.hashCount, x);
    } else {
      var n := |es| - 1;
      var f := KeyFilter(p, es[..n]);
      KeyFilterBits(p, es[..n], x);
      AddSetsPositions(p.hashes, f, es[n].key);
      PositionsAreProbed(p.hashes, f, es[n].key);
      GetBitIs(f.bits, x);
      assert forall e :: e in es <==> e in es[..n] || e == es[n];
    }
  }

  lemma NothingSet(bitCount: nat, hashCount: nat, x: nat)
    ensures !GetBit(EmptyFilter(bitCount, hashCount).bits, x)
  {
    ZeroBits(x % 8);
  }

  /** The bytes of a finished table with the given entries. */
  function TableFile(p: Params, es: seq<Entry>): seq<byte>
    requires p.bitCount > 0
  {
    Data(p, Blocks(es)) + ToBytes(KeyFilter(p, es)) + EncodeIndex(Index(p, Blocks(es))) + EncodeFooter(MetaOf(p, es))
  }
}
