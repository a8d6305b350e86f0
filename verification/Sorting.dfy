/** Sorted entry lists and the maps they stand for. */
module Sorting {
  import opened Basics
  import opened ByteOrder

  /** What one component of the store (a memtable, a table, a level) knows about each key. */
  type Layer = map<Key, Entry>

  ghost predicate WellKeyed(m: Layer) {
    forall k :: k in m ==> m[k].key == k
  }

  /** Keys strictly ascending, hence without repeats. */
  ghost predicate Sorted(es: seq<Entry>) {
    forall i, j :: 0 <= i < j < |es| ==> Less(es[i].key, es[j].key)
  }

  predicate Within(k: Key, lo: Key, hi: Key) {
    !Less(k, lo) && Less(k, hi)
  }

  function KeysOf(es: seq<Entry>): set<Key> {
    set e | e in es :: e.key
  }

  /** The first entry with key `k`. */
  function Find(es: seq<Entry>, k: Key): (r: Option<Entry>)
    ensures r.Some? <==> k in KeysOf(es)
    ensures r.Some? ==> r.value in es && r.value.key == k
  {
    if es == [] then None
    else if es[0].key == k then Some(es[0])
    else
      assert forall e :: e in es <==> e == es[0] || e in es[1..];
      Find(es[1..], k)
  }

  function ToMap(es: seq<Entry>): (m: Layer)
    ensures WellKeyed(m)
  {
    map k | k in KeysOf(es) :: Find(es, k).value
  }

  /** The entries with `lo <= key < hi`, in their order. */
  function Slice(es: seq<Entry>, lo: Key, hi: Key): seq<Entry> {
    if es == [] then []
    else (if Within(es[0].key, lo, hi) then [es[0]] else []) + Slice(es[1..], lo, hi)
  }

  function Restrict(m: Layer, lo: Key, hi: Key): Layer {
    map k | k in m && Within(k, lo, hi) :: m[k]
  }

  // ---------- facts about sorted lists ----------

  lemma {:induction false} SortedFind(es: seq<Entry>, i: nat)
    requires Sorted(es) && i < |es|
    ensures Find(es, es[i].key) == Some(es[i])
    decreases |es|
  {
    if i > 0 {
      LessIrreflexive(es[i].key);
      assert Less(es[0].key, es[i].key);
      SortedFind(es[1..], i - 1);
    }
  }

  lemma {:induction false} FindAppend(a: seq<Entry>, b: seq<Entry>, k: Key)
    ensures Find(a + b, k) == if Find(a, k).Some? then Find(a, k) else Find(b, k)
  {
    if a == [] {
      assert a + b == b;
    } else {
      assert (a + b)[1..] == a[1..] + b;
      FindAppend(a[1..], b, k);
    }
  }

  lemma {:induction false} SliceAppend(a: seq<Entry>, b: seq<Entry>, lo: Key, hi: Key)
    ensures Slice(a + b, lo, hi) == Slice(a, lo, hi) + Slice(b, lo, hi)
  {
    hide Within;
    if a == [] {
      assert a + b == b;
    } else {
      assert (a + b)[1..] == a[1..] + b;
      SliceAppend(a[1..], b, lo, hi);
    }
  }

  lemma {:induction false} SliceMembers(es: seq<Entry>, lo: Key, hi: Key)
    ensures forall e :: e in Slice(es, lo, hi) <==> e in es && Within(e.key, lo, hi)
    ensures Sorted(es) ==> Sorted(Slice(es, lo, hi))
  {
    if es != [] {
      assert forall e :: e in es <==> e == es[0] || e in es[1..];
      SliceMembers(es[1..], lo, hi);
      var rest := Slice(es[1..], lo, hi);
      if Sorted(es) {
        assert forall i :: 0 <= i < |rest| ==> rest[i] in es[1..];
        assert forall e :: e in es[1..] ==> Less(es[0].key, e.key);
      }
    }
  }

  lemma WithinIsInRange(lo: Key, hi: Key)
    ensures forall k :: Within(k, lo, hi) <==> InRange(k, lo, hi)
  {
    hide Less, Before;
    LessIsLexicographic();
  }

  /** A slice of an ascending list ascends, and holds exactly the entries of the range. */
  lemma SliceIsRange(es: seq<Entry>, lo: Key, hi: Key)
    requires Sorted(es)
    ensures var part := Slice(es, lo, hi);
      && (forall i, j :: 0 <= i < j < |part| ==> Before(part[i].key, part[j].key))
      && (forall e :: e in part <==> e in es && InRange(e.key, lo, hi))
  {
    hide Less, Before, InRange, Within, Slice;
    LessIsLexicographic();
    WithinIsInRange(lo, hi);
    SliceMembers(es, lo, hi);
  }

  /** A slice of a list stands for the restriction of its map. */
  lemma SliceIsRestriction(es: seq<Entry>, lo: Key, hi: Key)
    requires Sorted(es)
    ensures ToMap(Slice(es, lo, hi)) == Restrict(ToMap(es), lo, hi)
  {
    SliceMembers(es, lo, hi);
    var s := Slice(es, lo, hi);
    forall k | k in ToMap(s) ensures k in ToMap(es) && ToMap(es)[k] == ToMap(s)[k] {
      FindUnique(es, Find(s, k).value);
    }
    forall k | k in ToMap(es) && Within(k, lo, hi) ensures k in ToMap(s) {
      assert Find(es, k).value in s;
    }
  }

  lemma FindUnique(es: seq<Entry>, e: Entry)
    requires Sorted(es) && e in es
    ensures Find(es, e.key) == Some(e)
  {
    var i :| 0 <= i < |es| && es[i] == e;
    SortedFind(es, i);
  }

  /** A sorted list is determined by the map it stands for. */
  lemma {:induction false} SortedUnique(a: seq<Entry>, b: seq<Entry>)
    requires Sorted(a) && Sorted(b) && ToMap(a) == ToMap(b)
    ensures a == b
    decreases |a|
  {
    if a == [] || b == [] {
      assert a != [] ==> a[0].key in ToMap(a);
      assert b != [] ==> b[0].key in ToMap(b);
    } else {
      SameHead(a, b);
      SortedUnique(a[1..], b[1..]);
      assert a == [a[0]] + a[1..] && b == [b[0]] + b[1..];
    }
  }

  lemma SameHead(a: seq<Entry>, b: seq<Entry>)
    requires Sorted(a) && Sorted(b) && ToMap(a) == ToMap(b) && a != [] && b != []
    ensures a[0] == b[0]
    ensures ToMap(a[1..]) == ToMap(b[1..])
  {
    TailMap(a);
    TailMap(b);
    var x, y := a[0].key, b[0].key;
    assert x in ToMap(a) && y in ToMap(b);
    HeadIsLeast(a, y);
    HeadIsLeast(b, x);
    if x != y {
      LessTransitive(x, y, x);
      LessIrreflexive(x);
    }
  }

  lemma HeadIsLeast(es: seq<Entry>, k: Key)
    requires Sorted(es) && es != [] && k in KeysOf(es)
    ensures es[0].key == k || Less(es[0].key, k)
  {
    var e :| e in es && e.key == k;
  }

  lemma TailMap(es: seq<Entry>)
    requires Sorted(es) && es != []
    ensures ToMap(es[1..]) == ToMap(es) - {es[0].key}
    ensures ToMap(es)[es[0].key] == es[0]
  {
    var tail, k0 := es[1..], es[0].key;
    assert k0 !in KeysOf(tail) by {
      if e :| e in tail && e.key == k0 {
        LessIrreflexive(k0);
      }
    }
    KeysOfCons(es[0], tail);
    assert es == [es[0]] + tail;
    assert forall k :: k != k0 ==> Find(es, k) == Find(tail, k);
  }

  lemma KeysOfCons(e: Entry, es: seq<Entry>)
    ensures KeysOf([e] + es) == {e.key} + KeysOf(es)
  {
    assert forall x :: x in [e] + es <==> x == e || x in es;
  }

  // ---------- listing a map in key order ----------

  predicate IsLeast(k: Key, s: set<Key>) {
    k in s && forall x :: x in s ==> !Less(x, k)
  }

  lemma {:induction false} LeastKeyExists(s: set<Key>)
    requires s != {}
    ensures exists k :: IsLeast(k, s)
    decreases s
  {
    LessIsStrictTotalOrder();
    var k :| k in s;
    if s == {k} {
      assert IsLeast(k, s);
    } else {
      LeastKeyExists(s - {k});
      var m :| IsLeast(m, s - {k});
      assert IsLeast(if Less(m, k) then m else k, s);
    }
  }

  function LeastKey(s: set<Key>): (k: Key)
    requires s != {}
    ensures k in s && forall x :: x in s ==> !Less(x, k)
  {
    LeastKeyExists(s);
    LessIsStrictTotalOrder();
    var k :| k in s && IsLeast(k, s);
    k
  }

  /** The entries of a map in ascending key order, as a `BTreeMap` iterates them. */
  function SortedEntries(m: Layer): (es: seq<Entry>)
    decreases |m|
  {
    if m == map[] then []
    else
      var k := LeastKey(m.Keys);
      assert (m - {k}).Keys == m.Keys - {k};
      [m[k]] + SortedEntries(m - {k})
  }

  /** `SortedEntries` lists exactly the map, in strictly ascending key order. */
  lemma {:induction false} SortedEntriesCorrect(m: Layer)
    requires WellKeyed(m)
    ensures Sorted(SortedEntries(m))
    ensures ToMap(SortedEntries(m)) == m
    ensures |SortedEntries(m)| == |m|
    decreases |m|
  {
    if m != map[] {
      var k := LeastKey(m.Keys);
      assert (m - {k}).Keys == m.Keys - {k};
      SortedEntriesCorrect(m - {k});
      ConsLeast(m, k, SortedEntries(m - {k}));
    }
  }

  lemma ConsLeast(m: Layer, k: Key, tail: seq<Entry>)
    requires WellKeyed(m) && k in m && IsLeast(k, m.Keys)
    requires Sorted(tail) && ToMap(tail) == m - {k}
    ensures Sorted([m[k]] + tail) && ToMap([m[k]] + tail) == m
  {
    assert KeysOf(tail) == ToMap(tail).Keys;
    SortedCons(m[k], tail);
  }

  lemma SortedCons(e: Entry, es: seq<Entry>)
    requires Sorted(es)
    requires forall k :: k in KeysOf(es) ==> k != e.key && !Less(k, e.key)
    ensures Sorted([e] + es)
    ensures ToMap([e] + es) == ToMap(es)[e.key := e]
  {
    var all := [e] + es;
    forall i | 0 <= i < |es| ensures Less(e.key, es[i].key) {
      assert es[i].key in KeysOf(es);
      LessTotal(e.key, es[i].key);
    }
    assert all[1..] == es;
    assert Sorted(all);
    TailMap(all);
    KeysOfCons(e, es);
  }
}
