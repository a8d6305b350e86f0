/** Little-endian integers, raw bytes and variable-length integers, written to and read from byte strings. */
module Serialization {
  import opened Basics
  import opened Bits

  // ---------- fixed-width integers ----------

  /** 256 to the power of `width`. */
  function Capacity(width: nat): nat {
    if width == 0 then 1 else 256 * Capacity(width - 1)
  }

  /** The low `width` bytes of `n`, least significant first; higher bytes are cut off as by a narrowing cast. */
  function LittleEndian(n: nat, width: nat): (s: seq<byte>)
    ensures |s| == width
  {
    if width == 0 then [] else [n % 256] + LittleEndian(n / 256, width - 1)
  }

  function FromLittleEndian(s: seq<byte>): (n: nat)
  {
    if s == [] then 0 else s[0] + 256 * FromLittleEndian(s[1..])
  }

  /** Reading back what was written gives the value modulo the width, so a value that fits comes back unchanged. */
  lemma {:induction false} IntRoundTrip(n: nat, width: nat)
    ensures Capacity(width) > 0
    ensures FromLittleEndian(LittleEndian(n, width)) == n % Capacity(width)
    ensures n < Capacity(width) ==> FromLittleEndian(LittleEndian(n, width)) == n
    decreases width
  {
    if width > 0 {
      var c := Capacity(width - 1);
      IntRoundTrip(n / 256, width - 1);
      assert LittleEndian(n, width)[1..] == LittleEndian(n / 256, width - 1);
      ModSplit(n, c);
      if n < 256 * c {
        assert n % (256 * c) == n;
      }
    }
  }

  lemma ModSplit(n: nat, c: nat)
    requires c > 0
    ensures n % (256 * c) == n % 256 + 256 * ((n / 256) % c)
  {
    var q, r := (n / 256) / c, (n / 256) % c;
    assert n / 256 == q * c + r;
    var low := n % 256 + 256 * r;
    assert n == (256 * c) * q + low by {
      assert n == 256 * (n / 256) + n % 256;
      assert 256 * (q * c + r) == (256 * c) * q + 256 * r;
    }
    assert 0 <= low < 256 * c by {
      assert r <= c - 1;
      assert 256 * r <= 256 * (c - 1);
    }
    ModUnique(n, 256 * c, q, low);
  }

  /** Every byte string of the width is the encoding of exactly the number read from it. */
  lemma {:induction false} IntReadBack(s: seq<byte>)
    ensures FromLittleEndian(s) < Capacity(|s|)
    ensures LittleEndian(FromLittleEndian(s), |s|) == s
    decreases |s|
  {
    if s != [] {
      IntReadBack(s[1..]);
      var rest := FromLittleEndian(s[1..]);
      ModUnique(s[0] + 256 * rest, 256, rest, s[0]);
      assert s == [s[0]] + s[1..];
    }
  }

  /** Where each byte of a number goes: byte `i` is the digit for 256 to the `i`. */
  lemma {:induction false} IntLayout(n: nat, width: nat, i: nat)
    requires i < width
    ensures Capacity(i) > 0 && LittleEndian(n, width)[i] == n / Capacity(i) % 256
    decreases width
  {
    if i > 0 {
      IntLayout(n / 256, width - 1, i - 1);
      DivTwice(n, 256, Capacity(i - 1));
    }
  }

  // ---------- reading as functions on the remaining bytes ----------

  function GetInt(s: seq<byte>, width: nat): Result<(nat, seq<byte>)> {
    if |s| < width then Err(Corruption) else Ok((FromLittleEndian(s[..width]), s[width..]))
  }

  function GetBytes(s: seq<byte>, n: nat): Result<(seq<byte>, seq<byte>)> {
    if |s| < n then Err(Corruption) else Ok((s[..n], s[n..]))
  }

  lemma GetIntWritten(n: nat, width: nat, tail: seq<byte>)
    ensures Capacity(width) > 0
    ensures GetInt(LittleEndian(n, width) + tail, width) == Ok((n % Capacity(width), tail))
  {
    IntRoundTrip(n, width);
    var s := LittleEndian(n, width) + tail;
    assert s[..width] == LittleEndian(n, width) && s[width..] == tail;
  }

  lemma GetBytesWritten(b: seq<byte>, tail: seq<byte>)
    ensures GetBytes(b + tail, |b|) == Ok((b, tail))
  {
    assert (b + tail)[..|b|] == b && (b + tail)[|b|..] == tail;
  }

  // ---------- variable-length integers ----------

  const U32: nat := 0x1_0000_0000
  const U64: nat := 0x1_0000_0000_0000_0000

  /** Seven bits per byte, least significant first; a set top bit says that more follow. */
  function EncodeVar(v: nat): seq<byte> {
    if v >= 0x80 then [v % 0x80 + 0x80] + EncodeVar(v / 0x80) else [v]
  }

  /** Where each group of a variable-length integer goes, and that every byte but the last announces another one. */
  lemma {:induction false} VarLayout(v: nat, i: nat)
    requires i < |EncodeVar(v)|
    ensures EncodeVar(v)[i] % 0x80 == v / Pow2(7 * i) % 0x80
    ensures EncodeVar(v)[i] >= 0x80 <==> i + 1 < |EncodeVar(v)|
    decreases v
  {
    if i == 0 {
      assert Pow2(0) == 1 && v / 1 == v;
    } else {
      hide Pow2;
      VarLayout(v / 0x80, i - 1);
      assert EncodeVar(v)[1..] == EncodeVar(v / 0x80);
      Shift7(7 * (i - 1), 0);
      DivTwice(v, 0x80, Pow2(7 * (i - 1)));
    }
  }

  /** The contribution of one byte: its low seven bits, shifted left within 64 bits. */
  function VarPart(b: byte, shift: nat): nat {
    (b % 0x80) * Pow2(shift) % U64
  }

  /** Decoding from the given shift on. The parts are added up; `JoinPart` shows that this is their bitwise or. */
  function DecodeVar(s: seq<byte>, shift: nat): Result<(nat, seq<byte>)>
    decreases |s|
  {
    if shift >= 64 || s == [] then Err(Corruption)
    else if s[0] < 0x80 then Ok((VarPart(s[0], shift), s[1..]))
    else
      var (v, rest) :- DecodeVar(s[1..], shift + 7);
      Ok((VarPart(s[0], shift) + v, rest))
  }

  lemma Pow2Values()
    ensures Pow2(7) == 0x80 && Pow2(64) == U64
  {
    assert Pow2(4) == 16 && Pow2(7) == 8 * Pow2(4);
    Pow2Add(4, 4);
    hide Pow2;
    Pow2Add(8, 8);
    Pow2Add(16, 16);
    Pow2Add(32, 32);
  }

  lemma Shift7(shift: nat, v: nat)
    ensures Pow2(shift + 7) == 0x80 * Pow2(shift)
    ensures v * Pow2(shift) == (v % 0x80) * Pow2(shift) + (v / 0x80) * Pow2(shift + 7)
  {
    Pow2Values();
    Pow2Add(7, shift);
    var p := Pow2(shift);
    assert v == (v % 0x80) + 0x80 * (v / 0x80);
    assert v * p == (v % 0x80) * p + 0x80 * (v / 0x80) * p;
    assert 0x80 * (v / 0x80) * p == (v / 0x80) * (0x80 * p);
  }

  /**
    What is accepted: some byte among those that fit below a shift of 64 announces no other one,
    and reading stops behind the first such byte.
   */
  lemma {:induction false} VarAccepts(s: seq<byte>, shift: nat)
    ensures DecodeVar(s, shift).Ok? <==> exists i :: 0 <= i < |s| && shift + 7 * i < 64 && s[i] < 0x80
    ensures DecodeVar(s, shift).Ok? ==>
      var n := |s| - |DecodeVar(s, shift).value.1|;
      && 1 <= n && DecodeVar(s, shift).value.1 == s[n..] && s[n - 1] < 0x80
      && forall i :: 0 <= i < n - 1 ==> s[i] >= 0x80
    ensures DecodeVar(s, shift).Err? ==> DecodeVar(s, shift).error == Corruption
    decreases |s|
  {
    hide Pow2;
    if shift < 64 && s != [] && s[0] >= 0x80 {
      VarAccepts(s[1..], shift + 7);
      assert forall i :: 0 <= i < |s| - 1 ==> s[1..][i] == s[i + 1];
      if i :| 0 <= i < |s| && shift + 7 * i < 64 && s[i] < 0x80 {
        assert s[1..][i - 1] < 0x80 && shift + 7 + 7 * (i - 1) < 64;
      }
      if DecodeVar(s[1..], shift + 7).Ok? {
        var j :| 0 <= j < |s| - 1 && shift + 7 + 7 * j < 64 && s[1..][j] < 0x80;
        assert s[j + 1] < 0x80 && shift + 7 * (j + 1) < 64;
        var n := |s| - |DecodeVar(s, shift).value.1|;
        assert s[1..][n - 1..] == s[n..];
        forall i | 0 <= i < n - 1 ensures s[i] >= 0x80 {
          if i > 0 { assert s[1..][i - 1] >= 0x80; }
        }
      }
    }
  }

  lemma {:induction false} VarRoundTripFrom(v: nat, shift: nat, tail: seq<byte>)
    requires v * Pow2(shift) < U64 && shift < 64
    ensures DecodeVar(EncodeVar(v) + tail, shift) == Ok((v * Pow2(shift), tail))
    decreases v
  {
    hide Pow2;
    var s := EncodeVar(v) + tail;
    if v >= 0x80 {
      VarStep(v, shift);
      VarRoundTripFrom(v / 0x80, shift + 7, tail);
      assert s[1..] == EncodeVar(v / 0x80) + tail;
      assert s[0] == v % 0x80 + 0x80;
    } else {
      assert s[1..] == tail;
    }
  }

  /** Splitting a value into its low seven bits and the rest, both in place. */
  lemma VarStep(v: nat, shift: nat)
    requires v * Pow2(shift) < U64 && v >= 0x80
    ensures shift + 7 < 64 && (v / 0x80) * Pow2(shift + 7) < U64
    ensures VarPart(v % 0x80 + 0x80, shift) + (v / 0x80) * Pow2(shift + 7) == v * Pow2(shift)
  {
    hide Pow2;
    Shift7(shift, v);
    var lo, hi := (v % 0x80) * Pow2(shift), (v / 0x80) * Pow2(shift + 7);
    MulNonNegative(v % 0x80, Pow2(shift));
    MulNonNegative(v / 0x80, Pow2(shift + 7));
    HighPartsFit(v / 0x80, shift);
    assert (v % 0x80 + 0x80) % 0x80 == v % 0x80;
    assert lo % U64 == lo;
  }

  lemma MulNonNegative(a: nat, b: nat)
    ensures a * b >= 0
  {
  }

  lemma LargeShift(hi: nat, shift: nat)
    requires hi >= 1 && shift >= 64
    ensures hi * Pow2(shift) >= U64
  {
    Pow2Values();
    Pow2Add(64, shift - 64);
    MulMonotone(U64, 1, Pow2(shift - 64));
    MulMonotone(Pow2(shift), 1, hi);
  }

  /** A non-zero number still to be written at a shift that fits in 64 bits leaves the shift below 64. */
  lemma HighPartsFit(hi: nat, shift: nat)
    requires hi >= 1 && hi * Pow2(shift + 7) < U64
    ensures shift + 7 < 64
  {
    hide Pow2;
    if shift + 7 >= 64 {
      LargeShift(hi, shift + 7);
    }
  }

  lemma {:induction false} VarLength(v: nat, n: nat)
    requires n >= 1 && v < Pow2(7 * n)
    ensures 1 <= |EncodeVar(v)| <= n
    decreases n
  {
    Pow2Values();
    if v >= 0x80 {
      if n == 1 {
        assert false;
      } else {
        Pow2Add(7, 7 * (n - 1));
        assert Pow2(7 * n) == 0x80 * Pow2(7 * (n - 1));
        VarLength(v / 0x80, n - 1);
      }
    }
  }

  /** Every 64-bit value comes back unchanged, with any trailing bytes untouched, from its 1 to 10 bytes. */
  lemma VarRoundTrip(v: nat, tail: seq<byte>)
    requires v < U64
    ensures DecodeVar(EncodeVar(v) + tail, 0) == Ok((v, tail))
    ensures 1 <= |EncodeVar(v)| <= 10
  {
    assert Pow2(0) == 1;
    VarRoundTripFrom(v, 0, tail);
    Pow2Values();
    Pow2Add(64, 6);
    assert Pow2(70) >= Pow2(64);
    VarLength(v, 10);
  }

  /**
    Joining one more part with a bitwise or adds it: what was read so far lies below the shift, and the part is a
    multiple of two to the shift, also after bits were pushed out of the 64.
   */
  lemma JoinPart(low: nat, b: byte, shift: nat)
    requires low < Pow2(shift) && shift < 64
    ensures Or(low, VarPart(b, shift)) == low + VarPart(b, shift)
    ensures Or(low, VarPart(b, shift)) < Pow2(shift + 7)
  {
    hide Pow2, Or;
    Pow2Values();
    Pow2Add(64 - shift, shift);
    var p, q, n := Pow2(shift), Pow2(64 - shift), b % 0x80;
    assert q * p == U64;
    ModMultiple(n, q, p);
    OrDisjoint(low, n % q, shift);
    PartBound(b, shift);
  }

  lemma ModMultiple(n: nat, q: nat, p: nat)
    requires q > 0 && p > 0
    ensures q * p > 0
    ensures n * p % (q * p) == (n % q) * p
  {
    var k, r := n / q, n % q;
    assert n == q * k + r;
    assert n * p == (q * p) * k + r * p by { MulSplit(q, k, r, p); }
    MulMonotone(p, r + 1, q);
    MulSplit(1, r, 1, p);
    assert p * (r + 1) == p * r + p && p * q == q * p && p * r == r * p;
    MulMonotone(p, 1, q);
    ModUnique(n * p, q * p, k, r * p);
  }

  lemma MulSplit(q: nat, k: nat, r: nat, p: nat)
    ensures (q * k + r) * p == (q * p) * k + r * p
  {
    assert (q * k + r) * p == (q * k) * p + r * p;
    assert (q * k) * p == q * (k * p) == q * (p * k) == (q * p) * k;
  }

  /** What `n` bytes can contribute from a shift on. Bits pushed out of the 64 only make the value smaller. */
  lemma {:induction false} DecodedBound(s: seq<byte>, shift: nat)
    requires DecodeVar(s, shift).Ok?
    ensures var (v, rest) := DecodeVar(s, shift).value;
      |rest| < |s| && v + Pow2(shift) <= Pow2(shift + 7 * (|s| - |rest|))
    decreases |s|
  {
    hide Pow2;
    var (v, rest) := DecodeVar(s, shift).value;
    PartBound(s[0], shift);
    if s[0] >= 0x80 {
      DecodedBound(s[1..], shift + 7);
      var (high, rest') := DecodeVar(s[1..], shift + 7).value;
      assert shift + 7 + 7 * (|s[1..]| - |rest|) == shift + 7 * (|s| - |rest|);
    } else {
      assert |s| - |rest| == 1;
    }
  }

  lemma PartBound(b: byte, shift: nat)
    ensures VarPart(b, shift) + Pow2(shift) <= Pow2(shift + 7)
  {
    hide Pow2;
    Shift7(shift, 0);
    var p := Pow2(shift);
    MulMonotone(p, b % 0x80, 0x7F);
    assert (b % 0x80) * p == p * (b % 0x80);
    assert VarPart(b, shift) <= (b % 0x80) * p;
  }

  /** No accepted encoding of a value is shorter than the one the writer produces. */
  lemma VarEncodingIsShortest(s: seq<byte>)
    requires DecodeVar(s, 0).Ok?
    ensures var (v, rest) := DecodeVar(s, 0).value;
      |EncodeVar(v)| <= |s| - |rest|
  {
    hide Pow2, EncodeVar, DecodeVar;
    var (v, rest) := DecodeVar(s, 0).value;
    DecodedBound(s, 0);
    VarLength(v, |s| - |rest|);
  }

  // ---------- the writer and the reader ----------

  class Serializer {
    var buffer: seq<byte>

    constructor ()
      ensures buffer == []
    {
      buffer := [];
    }

    /** Append the low `width` bytes of a number: 1, 2, 4 or 8 of them for `write_u8` to `write_u64`. */
    method WriteInt(value: nat, width: nat)
      modifies this
      ensures buffer == old(buffer) + LittleEndian(value, width)
    {
      buffer := buffer + LittleEndian(value, width);
    }

    method WriteBytes(bytes: seq<byte>)
      modifies this
      ensures buffer == old(buffer) + bytes
    {
      buffer := buffer + bytes;
    }

    method WriteVariableInt(v: nat)
      modifies this
      ensures buffer == old(buffer) + EncodeVar(v)
    {
      var value := v;
      while value >= 0x80
        invariant buffer + EncodeVar(value) == old(buffer) + EncodeVar(v)
      {
        ghost var before := buffer;
        buffer := buffer + [value % 0x80 + 0x80];
        assert before + EncodeVar(value) == buffer + EncodeVar(value / 0x80);
        value := value / 0x80;
      }
      buffer := buffer + [value];
    }
  }

  class Deserializer {
    const data: seq<byte>
    var position: nat

    constructor (data: seq<byte>)
      ensures Valid() && this.data == data && Rest() == data
    {
      this.data := data;
      position := 0;
    }

    ghost predicate Valid()
      reads this
    {
      position <= |data|
    }

    /** The bytes not read yet. */
    ghost function Rest(): seq<byte>
      reads this
      requires Valid()
    {
      data[position..]
    }

    /** `read_u8` to `read_u64`: the value of the next `width` bytes, or an error that moves nothing. */
    method ReadInt(width: nat) returns (r: Result<nat>)
      requires Valid()
      modifies this
      ensures Valid()
      ensures r == if |data| - old(position) < width then Err(Corruption)
                   else Ok(FromLittleEndian(data[old(position)..old(position) + width]))
      ensures position == if r.Ok? then old(position) + width else old(position)
      ensures r == match GetInt(old(Rest()), width) { case Ok(p) => Ok(p.0) case Err(e) => Err(e) }
      ensures Rest() == match GetInt(old(Rest()), width) { case Ok(p) => p.1 case Err(_) => old(Rest()) }
    {
      if position + width > |data| {
        return Err(Corruption);
      }
      var bytes := data[position..position + width];
      assert Rest()[..width] == bytes && Rest()[width..] == data[position + width..];
      position := position + width;
      r := Ok(FromLittleEndian(bytes));
    }

    method ReadBytes(n: nat) returns (r: Result<seq<byte>>)
      requires Valid()
      modifies this
      ensures Valid()
      ensures r == if |data| - old(position) < n then Err(Corruption) else Ok(data[old(position)..old(position) + n])
      ensures position == if r.Ok? then old(position) + n else old(position)
      ensures r == match GetBytes(old(Rest()), n) { case Ok(p) => Ok(p.0) case Err(e) => Err(e) }
      ensures Rest() == match GetBytes(old(Rest()), n) { case Ok(p) => p.1 case Err(_) => old(Rest()) }
    {
      if position + n > |data| {
        return Err(Corruption);
      }
      var bytes := data[position..position + n];
      assert Rest()[..n] == bytes && Rest()[n..] == data[position + n..];
      position := position + n;
      r := Ok(bytes);
    }

    method Skip(n: nat) returns (r: Result<()>)
      requires Valid()
      modifies this
      ensures Valid()
      ensures r == if |old(Rest())| < n then Err(Corruption) else Ok(())
      ensures Rest() == if |old(Rest())| < n then old(Rest()) else old(Rest())[n..]
    {
      if position + n > |data| {
        return Err(Corruption);
      }
      assert Rest()[n..] == data[position + n..];
      position := position + n;
      r := Ok(());
    }

    /** Reads the next variable-length integer. On an error some bytes may have been consumed. */
    method ReadVariableInt() returns (r: Result<nat>)
      requires Valid()
      modifies this
      ensures Valid()
      ensures r == match DecodeVar(old(Rest()), 0) { case Ok(p) => Ok(p.0) case Err(e) => Err(e) }
      ensures r.Ok? ==> Rest() == DecodeVar(old(Rest()), 0).value.1
    {
      hide Pow2, Or;
      var result: nat := 0;
      var shift: nat := 0;
      while true
        invariant Valid() && result < Pow2(shift)
        invariant Joined(result, DecodeVar(Rest(), shift)) == DecodeVar(old(Rest()), 0)
        decreases |data| - position
      {
        if shift >= 64 {
          return Err(Corruption);
        }
        ghost var rest := Rest();
        var b: Result<nat> := ReadInt(1);
        if b.Err? {
          return Err(b.error);
        }
        ByteValue(rest[..1]);
        assert b.value == rest[0] && Rest() == rest[1..];
        JoinPart(result, b.value, shift);
        result := Or(result, VarPart(b.value, shift));
        if b.value < 0x80 {
          break;
        }
        shift := shift + 7;
      }
      r := Ok(result);
    }
  }

  function Joined(low: nat, r: Result<(nat, seq<byte>)>): Result<(nat, seq<byte>)> {
    match r
    case Ok(p) => Ok((low + p.0, p.1))
    case Err(e) => Err(e)
  }

  lemma ByteValue(s: seq<byte>)
    requires |s| == 1
    ensures FromLittleEndian(s) == s[0]
  {
  }
}
