/**
  The theory behind the engine: a stack of layers, newest first, each knowing some keys.
  Reading takes the first layer that knows the key; merging takes the highest sequence number.
  `Ordered` is the condition under which the two rules agree.
 */
module Layers {
  import opened Basics
  import opened Sorting

  function Lookup(ls: seq<Layer>, k: Key): Option<Entry> {
    if ls == [] then None
    else if k in ls[0] then Some(ls[0][k])
    else Lookup(ls[1..], k)
  }

  /** The value a reader sees: a tombstone hides everything below it. */
  function Visible(ls: seq<Layer>, k: Key): Option<Value> {
    var r := Lookup(ls, k);
    if r.Some? then r.value.value else None
  }

  /** Where both layers know a key, the first has the higher sequence number. */
  ghost predicate Newer(a: Layer, b: Layer) {
    forall k :: k in a && k in b ==> a[k].sequence > b[k].sequence
  }

  /** Going down the stack, the versions of any one key have strictly falling sequence numbers. */
  ghost predicate Ordered(ls: seq<Layer>) {
    && (forall i :: 0 <= i < |ls| ==> WellKeyed(ls[i]))
    && (forall i, j :: 0 <= i < j < |ls| ==> Newer(ls[i], ls[j]))
  }

  ghost predicate LayerBelow(m: Layer, bound: nat) {
    forall k :: k in m ==> m[k].sequence < bound
  }

  /** Every stored sequence number has already been handed out. */
  ghost predicate Below(ls: seq<Layer>, bound: nat) {
    forall i :: 0 <= i < |ls| ==> LayerBelow(ls[i], bound)
  }

  /** `e` is one of the versions stored in the stack. */
  ghost predicate Stored(ls: seq<Layer>, e: Entry) {
    exists i :: 0 <= i < |ls| && e.key in ls[i] && ls[i][e.key] == e
  }

  // ---------- lookup ----------

  lemma {:induction false} LookupAppend(a: seq<Layer>, b: seq<Layer>, k: Key)
    ensures Lookup(a + b, k) == if Lookup(a, k).Some? then Lookup(a, k) else Lookup(b, k)
  {
    if a == [] {
      assert a + b == b;
    } else {
      assert (a + b)[1..] == a[1..] + b;
      LookupAppend(a[1..], b, k);
    }
  }

  /** The layer at which `Lookup` stops. */
  lemma {:induction false} LookupWhere(ls: seq<Layer>, k: Key) returns (i: nat)
    ensures i <= |ls|
    ensures forall j :: 0 <= j < i ==> k !in ls[j]
    ensures i < |ls| ==> k in ls[i] && Lookup(ls, k) == Some(ls[i][k])
    ensures i == |ls| ==> Lookup(ls, k) == None
  {
    if ls == [] {
      i := 0;
    } else if k in ls[0] {
      i := 0;
    } else {
      var j := LookupWhere(ls[1..], k);
      i := j + 1;
      forall x | 0 <= x < i ensures k !in ls[x] { if x > 0 { assert ls[x] == ls[1..][x - 1]; } }
    }
  }

  /** First found is highest: `Lookup` returns a stored version, and no stored version of the key is newer. */
  lemma LookupIsHighest(ls: seq<Layer>, k: Key)
    requires Ordered(ls)
    ensures forall e :: Stored(ls, e) && e.key == k ==>
      Lookup(ls, k).Some? && (e == Lookup(ls, k).value || e.sequence < Lookup(ls, k).value.sequence)
    ensures Lookup(ls, k).Some? ==> Stored(ls, Lookup(ls, k).value) && Lookup(ls, k).value.key == k
  {
    var i := LookupWhere(ls, k);
    forall e | Stored(ls, e) && e.key == k
      ensures Lookup(ls, k).Some? && (e == Lookup(ls, k).value || e.sequence < Lookup(ls, k).value.sequence)
    {
      var j :| 0 <= j < |ls| && e.key in ls[j] && ls[j][e.key] == e;
      assert i <= j;
      assert i < j ==> Newer(ls[i], ls[j]);
    }
  }

  lemma LookupIsStored(ls: seq<Layer>, k: Key)
    requires forall i :: 0 <= i < |ls| ==> WellKeyed(ls[i])
    ensures Lookup(ls, k).Some? ==> Stored(ls, Lookup(ls, k).value) && Lookup(ls, k).value.key == k
  {
    var i := LookupWhere(ls, k);
    if i < |ls| { assert WellKeyed(ls[i]); }
  }

  /** Of each key's stored versions the first one found has the highest sequence number, and no other one has it too. */
  ghost predicate FirstIsHighest(ls: seq<Layer>) {
    && (forall i :: 0 <= i < |ls| ==> WellKeyed(ls[i]))
    && (forall e :: Stored(ls, e) ==>
          && Lookup(ls, e.key).Some?
          && (e == Lookup(ls, e.key).value || e.sequence < Lookup(ls, e.key).value.sequence))
  }

  // ---------- merging by highest sequence number ----------

  /** The loop of `merge_sstables`: a later entry replaces an earlier one only with a higher sequence. */
  function HighestPerKey(es: seq<Entry>): Layer {
    if es == [] then map[]
    else Offer(HighestPerKey(es[..|es| - 1]), es[|es| - 1])
  }

  function Offer(m: Layer, e: Entry): Layer {
    if e.key in m && e.sequence <= m[e.key].sequence then m else m[e.key := e]
  }

  /** What the merge means, without saying in which order it visited the entries. */
  ghost predicate IsHighest(es: seq<Entry>, m: Layer) {
    && WellKeyed(m)
    && (forall e :: e in es ==> e.key in m && e.sequence <= m[e.key].sequence)
    && (forall k :: k in m ==> m[k] in es)
  }

  /** No two different versions of a key share a sequence number. */
  ghost predicate DistinctVersions(es: seq<Entry>) {
    forall e, f :: e in es && f in es && e.key == f.key && e.sequence == f.sequence ==> e == f
  }

  lemma {:induction false} HighestPerKeyCorrect(es: seq<Entry>)
    ensures IsHighest(es, HighestPerKey(es))
  {
    if es != [] {
      var n := |es| - 1;
      HighestPerKeyCorrect(es[..n]);
      assert es == es[..n] + [es[n]];
    }
  }

  /** One entry per key with the highest sequence; the order of the inputs does not matter. */
  lemma MergeIgnoresOrder(es: seq<Entry>, fs: seq<Entry>)
    requires DistinctVersions(es)
    requires forall e :: e in es <==> e in fs
    ensures HighestPerKey(es) == HighestPerKey(fs)
  {
    HighestPerKeyCorrect(es);
    HighestPerKeyCorrect(fs);
    var m, n := HighestPerKey(es), HighestPerKey(fs);
    forall k | k in m || k in n ensures k in m && k in n && m[k] == n[k] {
      if k in m { assert m[k] in fs; }
      if k in n { assert n[k] in es; }
    }
  }

  /** Over an ordered stack, merging by sequence number computes exactly what reading by position finds. */
  lemma MergeAgreesWithLookup(ls: seq<Layer>, es: seq<Entry>)
    requires Ordered(ls)
    requires forall e :: e in es <==> Stored(ls, e)
    ensures WellKeyed(HighestPerKey(es))
    ensures forall k :: k in HighestPerKey(es) <==> Lookup(ls, k).Some?
    ensures forall k :: k in HighestPerKey(es) ==> Lookup(ls, k) == Some(HighestPerKey(es)[k])
  {
    HighestPerKeyCorrect(es);
    var m := HighestPerKey(es);
    forall k ensures k in m <==> Lookup(ls, k).Some?
             ensures k in m ==> Lookup(ls, k) == Some(m[k])
    {
      LookupIsHighest(ls, k);
      if k in m {
        assert Stored(ls, m[k]);
      }
      if Lookup(ls, k).Some? {
        assert Lookup(ls, k).value in es;
      }
    }
  }

  // ---------- replacing a segment of the stack ----------

  /** Drop the tombstones, except those of the keys in `keep`. */
  function DropTombstones(m: Layer, keep: set<Key>): Layer {
    map k | k in m && (m[k].value.Some? || k in keep) :: m[k]
  }

  /** Every version in `news` is the one a reader of `olds` would have found. */
  ghost predicate Drawn(news: seq<Layer>, olds: seq<Layer>) {
    forall i, k :: 0 <= i < |news| && k in news[i] ==> Lookup(olds, k) == Some(news[i][k])
  }

  /** What `news` no longer mentions were tombstones of keys unknown further down. */
  ghost predicate DropsOnlyDeadKeys(news: seq<Layer>, olds: seq<Layer>, down: seq<Layer>) {
    forall k :: Lookup(news, k) == Lookup(olds, k)
      || (Lookup(news, k) == None && Visible(olds, k) == None && Lookup(down, k) == None)
  }

  lemma ReplaceKeepsOrder(up: seq<Layer>, olds: seq<Layer>, news: seq<Layer>, down: seq<Layer>)
    requires Ordered(up + olds + down) && Ordered(news) && Drawn(news, olds)
    ensures Ordered(up + news + down)
  {
    var o: seq<Layer>, n: seq<Layer> := up + olds + down, up + news + down;
    var d := |news| - |olds|;
    forall i | 0 <= i < |n| ensures WellKeyed(n[i]) {
      if i < |up| { assert n[i] == o[i]; }
      else if i < |up| + |news| { assert n[i] == news[i - |up|]; }
      else { assert n[i] == o[i - d]; }
    }
    forall i: nat, j: nat | 0 <= i < j < |n| ensures Newer(n[i], n[j]) {
      if |up| <= i < |up| + |news| && |up| <= j < |up| + |news| {
        assert n[i] == news[i - |up|] && n[j] == news[j - |up|];
      } else {
        forall k | k in n[i] && k in n[j] ensures n[i][k].sequence > n[j][k].sequence {
          var i' := Origin(up, olds, news, down, i, k);
          var j' := Origin(up, olds, news, down, j, k);
          assert Newer(o[i'], o[j']);
        }
      }
    }
  }

  /** Where in the old stack the version at layer `i` of the new stack came from. */
  lemma Origin(up: seq<Layer>, olds: seq<Layer>, news: seq<Layer>, down: seq<Layer>, i: nat, k: Key) returns (x: nat)
    requires Drawn(news, olds) && i < |up + news + down| && k in (up + news + down)[i]
    ensures x < |up + olds + down| && k in (up + olds + down)[x]
    ensures (up + olds + down)[x][k] == (up + news + down)[i][k]
    ensures i < |up| ==> x == i
    ensures |up| <= i < |up| + |news| ==> |up| <= x < |up| + |olds|
    ensures |up| + |news| <= i ==> x == i - |news| + |olds|
  {
    if |up| <= i < |up| + |news| {
      assert (up + news + down)[i] == news[i - |up|];
      var y := LookupWhere(olds, k);
      x := |up| + y;
    } else if i < |up| {
      x := i;
    } else {
      x := i - |news| + |olds|;
    }
  }

  lemma ReplaceKeepsBound(up: seq<Layer>, olds: seq<Layer>, news: seq<Layer>, down: seq<Layer>, bound: nat)
    requires Below(up + olds + down, bound) && Drawn(news, olds)
    ensures Below(up + news + down, bound)
  {
    var n: seq<Layer> := up + news + down;
    forall i: nat | i < |n| ensures LayerBelow(n[i], bound) {
      forall k | k in n[i] ensures n[i][k].sequence < bound {
        var x := Origin(up, olds, news, down, i, k);
        assert LayerBelow((up + olds + down)[x], bound);
      }
    }
  }

  lemma ReplaceKeepsVisible(up: seq<Layer>, olds: seq<Layer>, news: seq<Layer>, down: seq<Layer>, k: Key)
    requires DropsOnlyDeadKeys(news, olds, down)
    ensures Visible(up + news + down, k) == Visible(up + olds + down, k)
    ensures Lookup(up + news + down, k) == Lookup(up + olds + down, k)
      || (Lookup(up + news + down, k) == None && Visible(up + olds + down, k) == None)
  {
    LookupAppend(up + news, down, k);
    LookupAppend(up, news, k);
    LookupAppend(up + olds, down, k);
    LookupAppend(up, olds, k);
  }

  lemma OrderedSegment(up: seq<Layer>, mid: seq<Layer>, down: seq<Layer>)
    requires Ordered(up + mid + down)
    ensures Ordered(mid)
  {
    var all: seq<Layer> := up + mid + down;
    assert forall i :: 0 <= i < |mid| ==> all[|up| + i] == mid[i];
  }

  // ---------- pushing onto the stack ----------

  lemma StackCons(top: Layer, rest: seq<Layer>)
    ensures Ordered([top] + rest) <==>
      WellKeyed(top) && Ordered(rest) && forall i :: 0 <= i < |rest| ==> Newer(top, rest[i])
    ensures forall b :: Below([top] + rest, b) <==> LayerBelow(top, b) && Below(rest, b)
  {
    var all: seq<Layer> := [top] + rest;
    assert all[0] == top;
    assert forall i :: 0 <= i < |rest| ==> all[i + 1] == rest[i];
    assert forall i :: 0 < i < |all| ==> all[i] == rest[i - 1];
  }

  lemma LookupCons(top: Layer, rest: seq<Layer>, k: Key)
    ensures Lookup([top] + rest, k) == if k in top then Some(top[k]) else Lookup(rest, k)
  {
    assert ([top] + rest)[1..] == rest;
  }

  lemma PushEmptyLayer(ls: seq<Layer>)
    ensures Ordered(ls) ==> Ordered([map[]] + ls)
    ensures forall b :: Below(ls, b) ==> Below([map[]] + ls, b)
    ensures forall k :: Lookup([map[]] + ls, k) == Lookup(ls, k)
  {
    StackCons(map[], ls);
    forall k ensures Lookup([map[]] + ls, k) == Lookup(ls, k) { LookupCons(map[], ls, k); }
  }

  /** Writing a version with an unused, highest number into the top layer. */
  lemma WriteTopLayer(top: Layer, rest: seq<Layer>, e: Entry)
    requires Ordered([top] + rest) && Below([top] + rest, e.sequence)
    ensures Ordered([top[e.key := e]] + rest)
    ensures Below([top[e.key := e]] + rest, e.sequence + 1)
  {
    var top' := top[e.key := e];
    StackCons(top, rest);
    StackCons(top', rest);
    forall i | 0 <= i < |rest| ensures Newer(top', rest[i]) && LayerBelow(rest[i], e.sequence + 1) {
      assert Newer(top, rest[i]) && LayerBelow(rest[i], e.sequence);
    }
  }
}
