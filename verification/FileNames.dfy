/** The names of table files: how the engine writes them, and how it reads the level back. */
module FileNames {
  import opened Basics

  const USIZE_LIMIT: nat := 0x1_0000_0000_0000_0000

  // ---------- decimal numbers ----------

  function Digit(d: nat): (c: char)
    requires d < 10
    ensures IsDigit(c) && DigitValue(c) == d
  {
    "0123456789"[d]
  }

  predicate IsDigit(c: char) {
    '0' <= c <= '9'
  }

  function DigitValue(c: char): (d: nat)
    requires IsDigit(c)
  {
    c as nat - '0' as nat
  }

  predicate AllDigits(s: string) {
    forall c :: c in s ==> IsDigit(c)
  }

  function Decimal(n: nat): (s: string)
    ensures s != "" && AllDigits(s)
  {
    if n < 10 then [Digit(n)] else Decimal(n / 10) + [Digit(n % 10)]
  }

  /** Filled up with zeros on the left. */
  function Padded(n: nat, width: nat): (s: string)
    ensures s != "" && AllDigits(s)
  {
    var d := Decimal(n);
    if |d| >= width then d else seq(width - |d|, _ => '0') + d
  }

  function NumberOf(s: string): nat
    requires AllDigits(s)
  {
    if s == "" then 0 else 10 * NumberOf(s[..|s| - 1]) + DigitValue(s[|s| - 1])
  }

  lemma {:induction false} DecimalRoundTrip(n: nat)
    ensures NumberOf(Decimal(n)) == n
  {
    var s := Decimal(n);
    if n >= 10 {
      DecimalRoundTrip(n / 10);
      assert s[..|s| - 1] == Decimal(n / 10);
    } else {
      assert s[..|s| - 1] == "";
    }
  }

  lemma {:induction false} LeadingZeros(zeros: nat, s: string)
    requires AllDigits(s)
    ensures AllDigits(seq(zeros, _ => '0') + s) && NumberOf(seq(zeros, _ => '0') + s) == NumberOf(s)
    decreases |s| + zeros
  {
    var all := seq(zeros, _ => '0') + s;
    if s != "" {
      LeadingZeros(zeros, s[..|s| - 1]);
      assert all[..|all| - 1] == seq(zeros, _ => '0') + s[..|s| - 1];
    } else if zeros > 0 {
      LeadingZeros(zeros - 1, s);
      assert all[..|all| - 1] == seq(zeros - 1, _ => '0') + s;
    }
  }

  lemma PaddedRoundTrip(n: nat, width: nat)
    ensures NumberOf(Padded(n, width)) == n
  {
    DecimalRoundTrip(n);
    if |Decimal(n)| < width { LeadingZeros(width - |Decimal(n)|, Decimal(n)); }
  }

  /** Parsing a machine-sized unsigned number: digits after an optional plus sign, within 64 bits. */
  function ParseUsize(s: string): Option<nat> {
    var digits := if s != "" && s[0] == '+' then s[1..] else s;
    if digits == "" || !AllDigits(digits) || NumberOf(digits) >= USIZE_LIMIT then None else Some(NumberOf(digits))
  }

  // ---------- names ----------

  function IndexOf(s: string, c: char): (r: Option<nat>)
    ensures r.Some? ==> r.value < |s| && s[r.value] == c && c !in s[..r.value]
    ensures r == None ==> c !in s
  {
    if s == "" then None
    else if s[0] == c then Some(0)
    else
      var r := IndexOf(s[1..], c);
      assert s == [s[0]] + s[1..];
      if r == None then None
      else
        assert s[..r.value + 1] == [s[0]] + s[1..][..r.value];
        Some(r.value + 1)
  }

  /** The number between the leading `L` and the first underscore. */
  function ParseLevel(name: string): Option<nat> {
    if name == "" || name[0] != 'L' then None
    else
      var i := IndexOf(name, '_');
      if i == None then None else ParseUsize(name[1..i.value])
  }

  /** The file extension is `sst`; a name that is nothing but the dot and these letters has no extension. */
  predicate IsTableFile(name: string) {
    |name| > 4 && name[|name| - 4..] == ".sst"
  }

  function TableName(level: nat, timestamp: nat, sequence: nat): string {
    "L" + Decimal(level) + "_" + Padded(timestamp, 10) + "_" + Decimal(sequence) + ".sst"
  }

  /** A string cut at its first underscore. */
  lemma {:induction false} CutAt(front: string, back: string)
    requires '_' !in front
    ensures IndexOf(front + "_" + back, '_') == Some(|front|)
  {
    var s := front + "_" + back;
    if front != "" {
      assert s[1..] == front[1..] + "_" + back;
      CutAt(front[1..], back);
    }
  }

  lemma DigitsHaveNoUnderscore(s: string)
    requires AllDigits(s)
    ensures '_' !in s && (s != "" ==> s[0] != '+')
  {
    if s != "" { assert s[0] in s; }
  }

  /** The level of a file comes back from the name the engine gave it. */
  lemma LevelRoundTrip(level: nat, timestamp: nat, sequence: nat)
    requires level < USIZE_LIMIT
    ensures ParseLevel(TableName(level, timestamp, sequence)) == Some(level)
    ensures IsTableFile(TableName(level, timestamp, sequence))
  {
    hide Decimal, Padded, NumberOf;
    var front, back := "L" + Decimal(level), Padded(timestamp, 10) + "_" + Decimal(sequence) + ".sst";
    var name := TableName(level, timestamp, sequence);
    assert name == front + "_" + back;
    DigitsHaveNoUnderscore(Decimal(level));
    CutAt(front, back);
    assert name[1..|front|] == Decimal(level);
    DecimalRoundTrip(level);
    assert name[|name| - 4..] == ".sst";
  }

  /** The digits of the number, perhaps after a plus sign. */
  ghost predicate Denotes(s: string, digits: string, n: nat) {
    digits != "" && AllDigits(digits) && NumberOf(digits) == n < USIZE_LIMIT && (s == digits || s == "+" + digits)
  }

  lemma UsizeExactly(s: string, n: nat)
    ensures ParseUsize(s) == Some(n) <==> exists digits :: Denotes(s, digits, n)
  {
    hide NumberOf;
    if ParseUsize(s) == Some(n) {
      var digits := if s[0] == '+' then s[1..] else s;
      assert s[0] == '+' ==> s == "+" + digits;
      assert Denotes(s, digits, n);
    }
    if digits :| Denotes(s, digits, n) {
      DigitsHaveNoUnderscore(digits);
      assert ("+" + digits)[1..] == digits;
    }
  }

  /** A name that carries the level: an `L`, the digits of the level after an optional plus sign, an underscore. */
  ghost predicate CarriesLevel(name: string, level: nat, number: string, rest: string) {
    name == "L" + number + "_" + rest && exists digits :: Denotes(number, digits, level)
  }

  lemma NumbersHaveNoUnderscore(number: string, digits: string, n: nat)
    requires Denotes(number, digits, n)
    ensures '_' !in number
  {
    DigitsHaveNoUnderscore(digits);
  }

  /** Which names have a level, and which level: all others are passed over. */
  lemma LevelExactly(name: string, level: nat)
    ensures ParseLevel(name) == Some(level) <==> exists number, rest :: CarriesLevel(name, level, number, rest)
  {
    hide Denotes, ParseUsize, IndexOf;
    if ParseLevel(name) == Some(level) {
      var i := IndexOf(name, '_').value;
      UsizeExactly(name[1..i], level);
      assert name == "L" + name[1..i] + "_" + name[i + 1..];
      assert CarriesLevel(name, level, name[1..i], name[i + 1..]);
    }
    if number, rest :| CarriesLevel(name, level, number, rest) {
      var digits :| Denotes(number, digits, level);
      NumbersHaveNoUnderscore(number, digits, level);
      UsizeExactly(number, level);
      CutAt("L" + number, rest);
      assert name[1..|number| + 1] == number;
    }
  }

  ghost predicate HasStem(name: string, stem: string) {
    stem != "" && name == stem + ".sst"
  }

  lemma TableFileExactly(name: string)
    ensures IsTableFile(name) <==> exists stem :: HasStem(name, stem)
  {
    if IsTableFile(name) {
      assert name == name[..|name| - 4] + ".sst";
      assert HasStem(name, name[..|name| - 4]);
    }
  }

  lemma SameCut(a: string, x: string, b: string, y: string)
    requires '_' !in a && '_' !in b && a + "_" + x == b + "_" + y
    ensures a == b && x == y
  {
    CutAt(a, x);
    CutAt(b, y);
    var s := a + "_" + x;
    assert s[..|a|] == a && s[|a| + 1..] == x;
    assert (b + "_" + y)[..|b|] == b && (b + "_" + y)[|b| + 1..] == y;
  }

  /** Tables that differ in level, second or number get different file names. */
  lemma NamesAreDistinct(l: nat, t: nat, s: nat, l': nat, t': nat, s': nat)
    requires TableName(l, t, s) == TableName(l', t', s')
    ensures l == l' && t == t' && s == s'
  {
    hide Decimal, Padded, NumberOf;
    var end, end' := Decimal(s) + ".sst", Decimal(s') + ".sst";
    var mid, mid' := Padded(t, 10) + "_" + end, Padded(t', 10) + "_" + end';
    assert TableName(l, t, s) == ("L" + Decimal(l)) + "_" + mid;
    assert TableName(l', t', s') == ("L" + Decimal(l')) + "_" + mid';
    SameCut("L" + Decimal(l), mid, "L" + Decimal(l'), mid');
    SameCut(Padded(t, 10), end, Padded(t', 10), end');
    assert ("L" + Decimal(l))[1..] == Decimal(l) && ("L" + Decimal(l'))[1..] == Decimal(l');
    assert end[..|end| - 4] == Decimal(s) && end'[..|end'| - 4] == Decimal(s');
    DecimalRoundTrip(l);
    DecimalRoundTrip(l');
    DecimalRoundTrip(s);
    DecimalRoundTrip(s');
    PaddedRoundTrip(t, 10);
    PaddedRoundTrip(t', 10);
  }
}
