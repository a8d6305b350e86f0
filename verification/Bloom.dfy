/** The bloom filter: a bit array probed at positions computed by double hashing. */
module Bloom {
  import opened Basics
  import opened Bits
  import opened Serialization

  // ---------- bits of a byte ----------

  function OrByte(a: byte, b: byte): (r: byte)
    ensures forall i :: Bit(r, i) <==> Bit(a, i) || Bit(b, i)
  {
    assert Pow2(8) == 256 by { assert Pow2(4) == 16; Pow2Add(4, 4); }
    OrBelow(a, b, 8);
    forall i ensures Bit(Or(a, b), i) <==> Bit(a, i) || Bit(b, i) { OrBits(a, b, i); }
    Or(a, b)
  }

  lemma PowerIsByte(i: nat)
    requires i < 8
    ensures Pow2(i) < 256
  {
    assert Pow2(4) == 16 && Pow2(7) == 128;
    assert i == 0 || i == 1 || i == 2 || i == 3 || i == 4 || i == 5 || i == 6 || i == 7;
  }

  /** The byte with only bit `i` set. */
  function Mask(i: nat): (m: byte)
    requires i < 8
    ensures forall j :: Bit(m, j) <==> i == j
  {
    PowerIsByte(i);
    forall j ensures Bit(Pow2(i), j) <==> i == j { PowerBits(i, j); }
    Pow2(i)
  }

  // ---------- the filter as a value ----------

  /** The two hashes of an element; nothing is assumed about them but that they are functions. */
  datatype Hashes = Hashes(blake: seq<byte> -> nat, sip: seq<byte> -> nat)

  datatype Filter = Filter(bits: seq<byte>, bitCount: nat, hashCount: nat, elementCount: nat)

  predicate WellFormed(f: Filter) {
    f.bitCount > 0 && |f.bits| == (f.bitCount + 7) / 8
  }

  predicate GetBit(bits: seq<byte>, index: nat) {
    index / 8 < |bits| && Bit(bits[index / 8], index % 8)
  }

  function SetBit(bits: seq<byte>, index: nat): (r: seq<byte>)
    requires index / 8 < |bits|
    ensures |r| == |bits|
    ensures forall i :: GetBit(r, i) <==> i == index || GetBit(bits, i)
  {
    var r := bits[index / 8 := OrByte(bits[index / 8], Mask(index % 8))];
    assert forall i: nat :: i / 8 == index / 8 && i % 8 == index % 8 ==> i == index;
    r
  }

  /** The hash of round `i`: the first plus `i` times the second, wrapping at 64 bits. */
  function HashAt(h: Hashes, element: seq<byte>, i: nat): nat {
    (h.blake(element) + i * h.sip(element) % U64) % U64
  }

  function Position(h: Hashes, f: Filter, element: seq<byte>, i: nat): nat
    requires f.bitCount > 0
  {
    HashAt(h, element, i) % f.bitCount
  }

  /** The positions that belong to an element. */
  function Positions(h: Hashes, f: Filter, element: seq<byte>): set<nat>
    requires f.bitCount > 0
  {
    set i | 0 <= i < f.hashCount :: Position(h, f, element, i)
  }

  ghost predicate MightContain(h: Hashes, f: Filter, element: seq<byte>)
    requires f.bitCount > 0
  {
    forall p :: p in Positions(h, f, element) ==> GetBit(f.bits, p)
  }

  // ---------- the same in plain arithmetic ----------

  /** Double hashing, then the position within the filter: round `i` adds `i` times the second hash to the first. */
  function ProbedBit(hash1: nat, hash2: nat, i: nat, bitCount: nat): nat
    requires bitCount > 0
  {
    (hash1 + i * hash2) % U64 % bitCount
  }

  ghost predicate IsProbed(hash1: nat, hash2: nat, rounds: nat, bitCount: nat, p: nat)
    requires bitCount > 0
  {
    exists i :: 0 <= i < rounds && p == ProbedBit(hash1, hash2, i, bitCount)
  }

  /** Bit `p` of the array: in byte `p / 8`, counted from the least significant end. */
  ghost predicate IsSet(bits: seq<byte>, p: nat) {
    p / 8 < |bits| && bits[p / 8] / Pow2(p % 8) % 2 == 1
  }

  lemma HashRound(h: Hashes, element: seq<byte>, i: nat)
    ensures i * h.sip(element) >= 0
    ensures HashAt(h, element, i) == (h.blake(element) + i * h.sip(element) % U64) % U64
  {
    MulNonNegative(i, h.sip(element));
  }

  lemma AddMod(a: nat, x: nat)
    ensures (a + x % U64) % U64 == (a + x) % U64
    ensures (a % U64 + x) % U64 == (a + x) % U64
  {
  }

  lemma PositionIsProbedBit(h: Hashes, f: Filter, element: seq<byte>, i: nat)
    requires f.bitCount > 0
    ensures Position(h, f, element, i) == ProbedBit(h.blake(element), h.sip(element), i, f.bitCount)
  {
    MulNonNegative(i, h.sip(element));
    AddMod(h.blake(element), i * h.sip(element));
  }

  /** Each round adds the second hash once more, within 64 bits. */
  lemma NextHash(h: Hashes, element: seq<byte>, i: nat)
    ensures HashAt(h, element, 0) == h.blake(element) % U64
    ensures HashAt(h, element, i + 1) == (HashAt(h, element, i) + h.sip(element)) % U64
  {
    hide HashAt;
    HashRound(h, element, 0);
    HashRound(h, element, i);
    HashRound(h, element, i + 1);
    OneMoreTime(i, h.sip(element));
    AddOnce(h.blake(element), i * h.sip(element), h.sip(element));
  }

  lemma OneMoreTime(i: nat, b: nat)
    ensures 0 * b == 0 && i * b >= 0 && (i + 1) * b == i * b + b
  {
    MulNonNegative(i, b);
  }

  lemma AddOnce(a: nat, x: nat, b: nat)
    ensures (a + (x + b) % U64) % U64 == ((a + x % U64) % U64 + b) % U64
  {
    AddMod(a, x);
    AddMod(a, x + b);
    AddMod(a + x, b);
  }

  lemma HashesFollow(h: Hashes, element: seq<byte>, hs: seq<nat>)
    requires forall i :: 0 <= i < |hs| ==> hs[i] == HashAt(h, element, i)
    ensures |hs| > 0 ==> hs[0] == h.blake(element) % U64
    ensures forall i :: 0 <= i < |hs| - 1 ==> hs[i + 1] == (hs[i] + h.sip(element)) % U64
  {
    hide HashAt;
    NextHash(h, element, 0);
    forall i | 0 <= i < |hs| - 1 ensures hs[i + 1] == (hs[i] + h.sip(element)) % U64 {
      NextHash(h, element, i);
    }
  }

  lemma GetBitIs(bits: seq<byte>, p: nat)
    ensures GetBit(bits, p) <==> IsSet(bits, p)
  {
    if p / 8 < |bits| { BitIs(bits[p / 8], p % 8); }
  }

  lemma PositionsAreProbed(h: Hashes, f: Filter, element: seq<byte>)
    requires f.bitCount > 0
    ensures forall p :: p in Positions(h, f, element) <==>
      IsProbed(h.blake(element), h.sip(element), f.hashCount, f.bitCount, p)
  {
    hide ProbedBit, Position;
    forall i: nat ensures Position(h, f, element, i) == ProbedBit(h.blake(element), h.sip(element), i, f.bitCount) {
      PositionIsProbedBit(h, f, element, i);
    }
  }

  /** The filter admits an element exactly when the bit of every round is set. */
  lemma AdmitsExactly(h: Hashes, f: Filter, element: seq<byte>)
    requires f.bitCount > 0
    ensures MightContain(h, f, element) <==>
      forall i :: 0 <= i < f.hashCount ==> IsSet(f.bits, ProbedBit(h.blake(element), h.sip(element), i, f.bitCount))
  {
    hide ProbedBit, Positions, IsSet, GetBit;
    PositionsAreProbed(h, f, element);
    forall p: nat ensures GetBit(f.bits, p) <==> IsSet(f.bits, p) { GetBitIs(f.bits, p); }
    if MightContain(h, f, element) {
      forall i | 0 <= i < f.hashCount ensures IsSet(f.bits, ProbedBit(h.blake(element), h.sip(element), i, f.bitCount)) {
        assert ProbedBit(h.blake(element), h.sip(element), i, f.bitCount) in Positions(h, f, element);
      }
    }
  }

  predicate SameConfig(f: Filter, g: Filter) {
    f.bitCount == g.bitCount && f.hashCount == g.hashCount
  }

  function EmptyFilter(bitCount: nat, hashCount: nat): Filter {
    Filter(seq((bitCount + 7) / 8, _ => 0), bitCount, hashCount, 0)
  }

  /** The bits after the first `n` rounds of an `add`. */
  function SetRounds(h: Hashes, f: Filter, element: seq<byte>, n: nat): (bits: seq<byte>)
    requires WellFormed(f)
    ensures |bits| == |f.bits|
  {
    if n == 0 then f.bits else SetBit(SetRounds(h, f, element, n - 1), Position(h, f, element, n - 1))
  }

  function AddTo(h: Hashes, f: Filter, element: seq<byte>): Filter
    requires WellFormed(f)
  {
    f.(bits := SetRounds(h, f, element, f.hashCount), elementCount := f.elementCount + 1)
  }

  /** An `add` sets exactly the element's positions and clears nothing. */
  lemma {:induction false} SetRoundsBits(h: Hashes, f: Filter, element: seq<byte>, n: nat, p: nat)
    requires WellFormed(f)
    ensures GetBit(SetRounds(h, f, element, n), p)
      <==> GetBit(f.bits, p) || exists i :: 0 <= i < n && Position(h, f, element, i) == p
  {
    if n > 0 {
      SetRoundsBits(h, f, element, n - 1, p);
    }
  }

  lemma AddSetsPositions(h: Hashes, f: Filter, element: seq<byte>)
    requires WellFormed(f)
    ensures WellFormed(AddTo(h, f, element))
    ensures forall p: nat :: GetBit(AddTo(h, f, element).bits, p) <==> GetBit(f.bits, p) || p in Positions(h, f, element)
    ensures SameConfig(AddTo(h, f, element), f) && AddTo(h, f, element).elementCount == f.elementCount + 1
  {
    forall p: nat ensures GetBit(AddTo(h, f, element).bits, p) <==> GetBit(f.bits, p) || p in Positions(h, f, element) {
      SetRoundsBits(h, f, element, f.hashCount, p);
    }
  }

  function MergeBits(a: seq<byte>, b: seq<byte>): seq<byte> {
    seq(|a|, i requires 0 <= i < |a| => if i < |b| then OrByte(a[i], b[i]) else a[i])
  }

  function MergeWith(f: Filter, g: Filter): Filter {
    f.(bits := MergeBits(f.bits, g.bits), elementCount := f.elementCount + g.elementCount)
  }

  lemma MergeIsUnion(f: Filter, g: Filter)
    requires WellFormed(f) && WellFormed(g) && SameConfig(f, g)
    ensures WellFormed(MergeWith(f, g))
    ensures forall p: nat :: GetBit(MergeWith(f, g).bits, p) <==> GetBit(f.bits, p) || GetBit(g.bits, p)
    ensures SameConfig(MergeWith(f, g), f) && MergeWith(f, g).elementCount == f.elementCount + g.elementCount
  {
  }

  function ToBytes(f: Filter): seq<byte> {
    LittleEndian(f.bitCount, 4) + LittleEndian(f.hashCount, 4) + LittleEndian(f.elementCount, 4) + f.bits
  }

  function FromBytes(data: seq<byte>): Result<Filter> {
    if |data| < 12 then Err(Corruption)
    else
      var bitCount := FromLittleEndian(data[0..4]);
      if |data| != 12 + (bitCount + 7) / 8 then Err(Corruption)
      else Ok(Filter(data[12..], bitCount, FromLittleEndian(data[4..8]), FromLittleEndian(data[8..12])))
  }

  lemma Capacity4()
    ensures Capacity(4) == U32 && Capacity(8) == U64
  {
    assert Capacity(2) == 0x1_0000;
    assert Capacity(4) == 256 * (256 * Capacity(2));
    assert Capacity(6) == 256 * (256 * Capacity(4));
    assert Capacity(8) == 256 * (256 * Capacity(6));
  }

  /** What reading back a written filter gives: its fields modulo 32 bits, or an error if the length disagrees. */
  lemma ReloadGives(f: Filter)
    ensures FromBytes(ToBytes(f)) ==
      if |f.bits| != (f.bitCount % U32 + 7) / 8 then Err(Corruption)
      else Ok(Filter(f.bits, f.bitCount % U32, f.hashCount % U32, f.elementCount % U32))
  {
    Capacity4();
    IntRoundTrip(f.bitCount, 4);
    IntRoundTrip(f.hashCount, 4);
    IntRoundTrip(f.elementCount, 4);
    var d := ToBytes(f);
    assert d[0..4] == LittleEndian(f.bitCount, 4);
    assert d[4..8] == LittleEndian(f.hashCount, 4);
    assert d[8..12] == LittleEndian(f.elementCount, 4);
    assert d[12..] == f.bits;
  }

  /** Where the written bytes put each field. */
  lemma FilterLayout(f: Filter)
    requires f.bitCount < U32 && f.hashCount < U32 && f.elementCount < U32
    ensures var d := ToBytes(f);
      && |d| == 12 + |f.bits|
      && FromLittleEndian(d[0..4]) == f.bitCount && FromLittleEndian(d[4..8]) == f.hashCount
      && FromLittleEndian(d[8..12]) == f.elementCount && d[12..] == f.bits
  {
    hide FromLittleEndian, LittleEndian;
    Capacity4();
    IntRoundTrip(f.bitCount, 4);
    IntRoundTrip(f.hashCount, 4);
    IntRoundTrip(f.elementCount, 4);
    var d := ToBytes(f);
    assert d[0..4] == LittleEndian(f.bitCount, 4);
    assert d[4..8] == LittleEndian(f.hashCount, 4);
    assert d[8..12] == LittleEndian(f.elementCount, 4);
    assert d[12..] == f.bits;
  }

  /** A filter survives the round trip exactly when its bytes match its bit count and its fields fit 32 bits. */
  lemma ReloadExactly(f: Filter)
    ensures FromBytes(ToBytes(f)) == Ok(f) <==>
      |f.bits| == (f.bitCount + 7) / 8 && f.bitCount < U32 && f.hashCount < U32 && f.elementCount < U32
  {
    hide ToBytes, FromBytes;
    ReloadGives(f);
  }

  // ---------- histories ----------

  /** How a filter came to be. A refused merge or reload leaves the filter as it was. */
  datatype History =
    | New(bitCount: nat, hashCount: nat)
    | Added(past: History, element: seq<byte>)
    | Merged(past: History, other: History)
    | Reloaded(past: History)
    | Cleared(past: History)

  predicate ConfigFits(t: History) {
    match t
    case New(b, k) => 0 < b < U32 && k < U32
    case Added(p, _) => ConfigFits(p)
    case Merged(p, o) => ConfigFits(p) && ConfigFits(o)
    case Reloaded(p) => ConfigFits(p)
    case Cleared(p) => ConfigFits(p)
  }

  ghost function Replay(h: Hashes, t: History): (f: Filter)
    requires ConfigFits(t)
    ensures WellFormed(f) && f.bitCount < U32 && f.hashCount < U32
  {
    match t
    case New(b, k) => EmptyFilter(b, k)
    case Added(p, e) =>
      AddSetsPositions(h, Replay(h, p), e);
      AddTo(h, Replay(h, p), e)
    case Merged(p, o) =>
      var f, g := Replay(h, p), Replay(h, o);
      if SameConfig(f, g) then MergeWith(f, g) else f
    case Reloaded(p) =>
      var f := Replay(h, p);
      ReloadGives(f);
      var r := FromBytes(ToBytes(f));
      if r.Ok? then r.value else f
    case Cleared(p) =>
      var f := Replay(h, p);
      f.(bits := seq(|f.bits|, _ => 0), elementCount := 0)
  }

  /** The elements added to the filter, or to one merged into it, since the last `clear`. */
  ghost function Members(h: Hashes, t: History): set<seq<byte>>
    requires ConfigFits(t)
  {
    match t
    case New(_, _) => {}
    case Added(p, e) => Members(h, p) + {e}
    case Merged(p, o) =>
      if SameConfig(Replay(h, p), Replay(h, o)) then Members(h, p) + Members(h, o) else Members(h, p)
    case Reloaded(p) => Members(h, p)
    case Cleared(_) => {}
  }

  /** No false negatives, over any history of adds, merges, reloads and clears, whatever the hashes compute. */
  lemma {:induction false} NeverForgets(h: Hashes, t: History, element: seq<byte>)
    requires ConfigFits(t) && element in Members(h, t)
    ensures MightContain(h, Replay(h, t), element)
  {
    hide Positions, SetRounds, MergeBits, ToBytes, FromBytes;
    match t
    case New(_, _) =>
    case Added(p, e) =>
      if element != e {
        NeverForgets(h, p, element);
      }
      AddKeepsMembers(h, Replay(h, p), e, element);
    case Merged(p, o) =>
      if element in Members(h, p) {
        NeverForgets(h, p, element);
      } else {
        NeverForgets(h, o, element);
      }
      if SameConfig(Replay(h, p), Replay(h, o)) {
        MergeKeepsMembers(h, Replay(h, p), Replay(h, o), element);
      }
    case Reloaded(p) =>
      NeverForgets(h, p, element);
      ReloadGives(Replay(h, p));
      SamePositions(h, Replay(h, p), Replay(h, t), element);
    case Cleared(_) =>
  }

  lemma SamePositions(h: Hashes, f: Filter, g: Filter, element: seq<byte>)
    requires SameConfig(f, g) && f.bitCount > 0
    ensures Positions(h, f, element) == Positions(h, g, element)
  {
    assert forall i :: Position(h, f, element, i) == Position(h, g, element, i);
  }

  lemma MergeKeepsMembers(h: Hashes, f: Filter, g: Filter, element: seq<byte>)
    requires WellFormed(f) && WellFormed(g) && SameConfig(f, g)
    requires MightContain(h, f, element) || MightContain(h, g, element)
    ensures MightContain(h, MergeWith(f, g), element)
  {
    MergeIsUnion(f, g);
    SamePositions(h, f, g, element);
    SamePositions(h, f, MergeWith(f, g), element);
  }

  lemma AddKeepsMembers(h: Hashes, f: Filter, e: seq<byte>, element: seq<byte>)
    requires WellFormed(f) && (element == e || MightContain(h, f, element))
    ensures MightContain(h, AddTo(h, f, e), element)
  {
    AddSetsPositions(h, f, e);
    SamePositions(h, f, AddTo(h, f, e), element);
  }

  // ---------- what two lines do as literally written ----------

  /** As literally written, `set_bit` sets nothing: then a filter without bits denies everything added to it. */
  lemma LiteralAddForgets(h: Hashes, bitCount: nat, hashCount: nat, element: seq<byte>)
    requires bitCount > 0
    ensures MightContain(h, EmptyFilter(bitCount, hashCount), element) <==> hashCount == 0
  {
    var f := EmptyFilter(bitCount, hashCount);
    forall p: nat ensures !GetBit(f.bits, p) { ZeroBits(p % 8); }
    if hashCount > 0 {
      assert Position(h, f, element, 0) in Positions(h, f, element);
    }
  }

  /**
    As literally written, `new` allocates seven eighths of a byte per bit. Such a filter reloads only for a bit
    count of two, which `new` never chooses: it takes 8 (with a single byte) or at least 64.
   */
  lemma LiteralAllocationExactly(bitCount: nat, hashCount: nat)
    requires 0 < bitCount < U32 && hashCount < U32
    ensures var f := Filter(seq(bitCount * 7 / 8, _ => 0), bitCount, hashCount, 0);
      FromBytes(ToBytes(f)).Ok? <==> bitCount == 2
  {
    var f := Filter(seq(bitCount * 7 / 8, _ => 0), bitCount, hashCount, 0);
    ReloadGives(f);
  }

  // ---------- the filter object ----------

  class BloomFilter {
    const hashes: Hashes
    const bitCount: nat
    const hashCount: nat
    var bits: array<byte>
    var elementCount: nat

    function View(): Filter
      reads this, bits
    {
      Filter(bits[..], bitCount, hashCount, elementCount)
    }

    ghost predicate Valid()
      reads this, bits
    {
      WellFormed(View())
    }

    /** The sizes are inputs: their floating-point computation is not part of this model. */
    constructor (hashes: Hashes, bitCount: nat, hashCount: nat)
      requires bitCount > 0
      ensures Valid() && fresh(bits) && this.hashes == hashes
      ensures View() == EmptyFilter(bitCount, hashCount)
    {
      this.hashes, this.bitCount, this.hashCount := hashes, bitCount, hashCount;
      elementCount := 0;
      bits := new byte[(bitCount + 7) / 8](_ => 0);
      new;
      assert bits[..] == EmptyFilter(bitCount, hashCount).bits;
    }

    constructor FromView(hashes: Hashes, f: Filter)
      ensures fresh(bits) && this.hashes == hashes && View() == f
    {
      this.hashes, bitCount, hashCount, elementCount := hashes, f.bitCount, f.hashCount, f.elementCount;
      bits := new byte[|f.bits|](i requires 0 <= i < |f.bits| => f.bits[i]);
      new;
      assert bits[..] == f.bits;
    }

    static method Load(hashes: Hashes, data: seq<byte>) returns (r: Result<BloomFilter>)
      ensures r.Ok? <==> |data| >= 12 && |data| == 12 + (FromLittleEndian(data[0..4]) + 7) / 8
      ensures r.Err? ==> r.error == Corruption
      ensures r.Ok? ==>
        && r.value.bitCount == FromLittleEndian(data[0..4]) && r.value.hashCount == FromLittleEndian(data[4..8])
        && r.value.elementCount == FromLittleEndian(data[8..12]) && r.value.bits[..] == data[12..]
      ensures r.Ok? <==> FromBytes(data).Ok?
      ensures FromBytes(data).Err? ==> r == Err(FromBytes(data).error)
      ensures r.Ok? ==> fresh(r.value) && fresh(r.value.bits) && r.value.hashes == hashes
      ensures r.Ok? ==> r.value.View() == FromBytes(data).value
    {
      if |data| < 12 {
        return Err(Corruption);
      }
      var count := FromLittleEndian(data[0..4]);
      var hashCount := FromLittleEndian(data[4..8]);
      var elementCount := FromLittleEndian(data[8..12]);
      var expected := (count + 7) / 8;
      if |data| != 12 + expected {
        return Err(Corruption);
      }
      var f := new BloomFilter.FromView(hashes, Filter(data[12..], count, hashCount, elementCount));
      r := Ok(f);
    }

    method Save() returns (data: seq<byte>)
      ensures data == ToBytes(View())
    {
      data := LittleEndian(bitCount, 4);
      data := data + LittleEndian(hashCount, 4);
      data := data + LittleEndian(elementCount, 4);
      data := data + bits[..];
    }

    method HashElement(element: seq<byte>) returns (hs: seq<nat>)
      ensures |hs| == hashCount && forall i :: 0 <= i < hashCount ==> hs[i] == HashAt(hashes, element, i)
      ensures hashCount > 0 ==> hs[0] == hashes.blake(element) % U64
      ensures forall i :: 0 <= i < hashCount - 1 ==> hs[i + 1] == (hs[i] + hashes.sip(element)) % U64
    {
      hide HashAt;
      hs := [];
      var hash1 := hashes.blake(element);
      var hash2 := hashes.sip(element);
      for i := 0 to hashCount
        invariant |hs| == i && forall j :: 0 <= j < i ==> hs[j] == HashAt(hashes, element, j)
      {
        var hash := (hash1 + i * hash2 % U64) % U64;
        HashRound(hashes, element, i);
        hs := hs + [hash];
      }
      HashesFollow(hashes, element, hs);
    }

    /** Afterwards exactly the element's positions are set in addition. */
    method Add(element: seq<byte>)
      requires Valid()
      modifies bits, this`elementCount
      ensures Valid() && bits == old(bits)
      ensures View() == AddTo(hashes, old(View()), element)
      ensures MightContain(hashes, View(), element)
      ensures forall p: nat :: IsSet(bits[..], p) <==>
        IsSet(old(bits[..]), p) || IsProbed(hashes.blake(element), hashes.sip(element), hashCount, bitCount, p)
    {
      hide IsSet, ProbedBit, MightContain, Positions, HashAt;
      ghost var f := View();
      var hs := HashElement(element);
      for i := 0 to |hs|
        invariant bits[..] == SetRounds(hashes, f, element, i)
        invariant bits == old(bits) && elementCount == old(elementCount)
      {
        var index := hs[i] % bitCount;
        assert index == Position(hashes, f, element, i);
        ghost var before := bits[..];
        bits[index / 8] := OrByte(bits[index / 8], Mask(index % 8));
        assert bits[..] == SetBit(before, index);
      }
      elementCount := elementCount + 1;
      AddSetsPositions(hashes, f, element);
      AddKeepsMembers(hashes, f, element, element);
      PositionsAreProbed(hashes, f, element);
      forall p: nat ensures (GetBit(bits[..], p) <==> IsSet(bits[..], p)) && (GetBit(f.bits, p) <==> IsSet(f.bits, p)) {
        GetBitIs(bits[..], p);
        GetBitIs(f.bits, p);
      }
    }

    method Contains(element: seq<byte>) returns (b: bool)
      requires Valid()
      ensures b <==> MightContain(hashes, View(), element)
      ensures b <==> forall i :: 0 <= i < hashCount ==>
        IsSet(bits[..], ProbedBit(hashes.blake(element), hashes.sip(element), i, bitCount))
    {
      hide IsSet, ProbedBit, HashAt;
      AdmitsExactly(hashes, View(), element);
      var hs := HashElement(element);
      ghost var f := View();
      for i := 0 to |hs|
        invariant forall j :: 0 <= j < i ==> GetBit(f.bits, Position(hashes, f, element, j))
      {
        var index := hs[i] % bitCount;
        assert index == Position(hashes, f, element, i);
        if !GetBit(bits[..], index) {
          assert index in Positions(hashes, f, element);
          return false;
        }
      }
      return true;
    }

    method Clear()
      requires Valid()
      modifies bits, this`elementCount
      ensures Valid() && bits == old(bits)
      ensures View() == old(View()).(bits := seq(|old(View()).bits|, _ => 0), elementCount := 0)
    {
      for i := 0 to bits.Length
        invariant forall j :: 0 <= j < i ==> bits[j] == 0
        invariant bits == old(bits)
      {
        bits[i] := 0;
      }
      elementCount := 0;
      assert bits[..] == seq(|old(View()).bits|, _ => 0);
    }

    /** Union with an equally configured filter, possibly itself; anything else is refused and changes nothing. */
    method Merge(other: BloomFilter) returns (r: Result<()>)
      requires Valid() && other.Valid() && (other == this || other.bits != bits)
      modifies bits, this`elementCount
      ensures Valid() && bits == old(bits)
      ensures r == if SameConfig(old(View()), old(other.View())) then Ok(()) else Err(InvalidOperation)
      ensures View() == if r.Ok? then MergeWith(old(View()), old(other.View())) else old(View())
    {
      if bitCount != other.bitCount || hashCount != other.hashCount {
        return Err(InvalidOperation);
      }
      ghost var a, b := bits[..], other.bits[..];
      MergeIsUnion(View(), other.View());
      for i := 0 to other.bits.Length
        invariant bits == old(bits) && elementCount == old(elementCount)
        invariant forall j :: 0 <= j < i ==> bits[j] == MergeBits(a, b)[j]
        invariant forall j :: i <= j < bits.Length ==> bits[j] == a[j]
        invariant forall j :: i <= j < other.bits.Length ==> other.bits[j] == b[j]
      {
        if i < bits.Length {
          bits[i] := OrByte(bits[i], other.bits[i]);
        }
      }
      assert bits[..] == MergeBits(a, b);
      elementCount := elementCount + other.elementCount;
      r := Ok(());
    }
  }
}
