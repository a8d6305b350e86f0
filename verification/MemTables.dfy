/** The memtable: a sorted map with running size and count, and its own sequence counter. */
module MemTables {
  import opened Basics
  import opened ByteOrder
  import opened Sorting

  /** The state of a memtable as a value. */
  datatype Mem = Mem(data: Layer, size: int, count: nat, next: nat, maxSize: nat, immutable: bool)

  const MAX_ENTRY_SIZE: nat := MAX_KEY_SIZE + MAX_VALUE_SIZE + 16

  function EmptyMem(maxSize: nat, start: nat): Mem {
    Mem(map[], 0, 0, start, maxSize, false)
  }

  /** One write: the next sequence number goes to a new version of the key (`None` deletes it). */
  function Insert(m: Mem, key: Key, value: Option<Value>, now: nat): Mem {
    var e := Entry(key, value, now, m.next);
    m.(data := m.data[key := e],
       size := m.size + SizeDelta(m.data, e),
       count := if key in m.data then m.count else m.count + 1,
       next := m.next + 1)
  }

  function SizeDelta(data: Layer, e: Entry): int {
    if e.key in data then e.Size() - data[e.key].Size() else e.Size()
  }

  function ShouldFlush(m: Mem): bool {
    m.size >= m.maxSize
  }

  /** The sum of the sizes of the stored entries. */
  function Footprint(m: Layer): nat
    decreases |m|
  {
    if m == map[] then 0
    else
      var k := LeastKey(m.Keys);
      assert (m - {k}).Keys == m.Keys - {k};
      m[k].Size() + Footprint(m - {k})
  }

  /** The last write is still there: a memtable that holds anything holds the number before the next one. */
  ghost predicate LastStored(m: Mem) {
    m.data != map[] ==> exists k :: k in m.data && m.data[k].sequence + 1 == m.next
  }

  /** The running counters tell the truth about the map. */
  ghost predicate Accounted(m: Mem) {
    && WellKeyed(m.data)
    && m.count == |m.data|
    && m.size == Footprint(m.data)
    && (forall k :: k in m.data ==> m.data[k].sequence < m.next)
    && LastStored(m)
  }

  lemma {:induction false} FootprintRemove(m: Layer, k: Key)
    requires k in m
    ensures Footprint(m) == m[k].Size() + Footprint(m - {k})
    decreases |m|
  {
    var l := LeastKey(m.Keys);
    assert (m - {l}).Keys == m.Keys - {l};
    if k != l {
      var a, b := m - {l}, m - {k};
      FootprintRemove(a, k);
      assert b.Keys == m.Keys - {k};
      LessIsStrictTotalOrder();
      assert l == LeastKey(b.Keys);
      assert a - {k} == b - {l};
    }
  }

  lemma FootprintUpdate(m: Layer, k: Key, e: Entry)
    ensures Footprint(m[k := e]) == e.Size() + Footprint(m - {k})
  {
    FootprintRemove(m[k := e], k);
    assert m[k := e] - {k} == m - {k};
  }

  lemma UpdateCardinality(m: Layer, k: Key, e: Entry)
    ensures |m[k := e]| == if k in m then |m| else |m| + 1
  {
    assert m[k := e].Keys == m.Keys + {k};
  }

  /** Every write keeps the count equal to the number of keys and the size equal to the sum of entry sizes. */
  lemma InsertKeepsAccounts(m: Mem, key: Key, value: Option<Value>, now: nat)
    requires Accounted(m)
    ensures Accounted(Insert(m, key, value, now))
    ensures Insert(m, key, value, now).size <= m.size + |key| + (if value.Some? then |value.value| else 0) + 16
  {
    var e := Entry(key, value, now, m.next);
    DeltaKeepsFootprint(m.data, e);
    UpdateCardinality(m.data, key, e);
    assert Insert(m, key, value, now).data[key] == e;
  }

  lemma DeltaKeepsFootprint(m: Layer, e: Entry)
    ensures Footprint(m[e.key := e]) == Footprint(m) + SizeDelta(m, e)
  {
    FootprintUpdate(m, e.key, e);
    if e.key in m {
      FootprintRemove(m, e.key);
    } else {
      assert m - {e.key} == m;
    }
  }

  /** A run of writes starting from an empty memtable. */
  datatype Write = Write(key: Key, value: Option<Value>, now: nat)

  function InsertAll(m: Mem, ws: seq<Write>): Mem {
    if ws == [] then m
    else
      var w := ws[|ws| - 1];
      Insert(InsertAll(m, ws[..|ws| - 1]), w.key, w.value, w.now)
  }

  /** Over any run of writes the accounts are right and each write consumed one sequence number. */
  lemma {:induction false} AccountsOverAnyRun(maxSize: nat, start: nat, ws: seq<Write>)
    ensures Accounted(InsertAll(EmptyMem(maxSize, start), ws))
    ensures InsertAll(EmptyMem(maxSize, start), ws).next == start + |ws|
  {
    if ws != [] {
      var n := |ws| - 1;
      AccountsOverAnyRun(maxSize, start, ws[..n]);
      InsertKeepsAccounts(InsertAll(EmptyMem(maxSize, start), ws[..n]), ws[n].key, ws[n].value, ws[n].now);
    }
  }

  // ---------- what the size update does as literally written ----------

  const USIZE: int := 0x1_0000_0000_0000_0000

  /**
    The literal update: a positive delta is added; any other delta is cast to `usize` and subtracted,
    both with wrap-around.
   */
  function LiteralSize(size: int, delta: int): int {
    if delta > 0 then (size + delta) % USIZE else (size - delta % USIZE) % USIZE
  }

  /** The literal update is right exactly when the write does not shrink the entry. */
  lemma LiteralSizeExactly(size: int, delta: int)
    requires 0 <= size < USIZE / 2 && -size <= delta < USIZE / 2
    ensures LiteralSize(size, delta) == size + delta <==> delta >= 0
    ensures delta < 0 ==> LiteralSize(size, delta) == size - delta
  {
    if delta < 0 {
      assert delta % USIZE == delta + USIZE;
      var x := size - delta - USIZE;
      assert x % USIZE == x + USIZE;
    } else if delta == 0 {
      assert delta % USIZE == 0;
    }
  }

  /** For instance: overwriting a ten-byte value by an empty one makes the literal size grow. */
  lemma LiteralSizeGrowsOnShrinkingOverwrite()
    ensures var before, after := Entry([1], Some(seq(10, _ => 0)), 0, 0), Entry([1], None, 0, 1);
      LiteralSize(before.Size(), after.Size() - before.Size()) == 37 && after.Size() == 17
  {
    LiteralSizeExactly(27, -10);
  }

  // ---------- the memtable object ----------

  class MemTable {
    var data: map<Key, Entry>
    var size: int
    var count: nat
    var sequenceCounter: nat
    var immutable: bool
    const maxSize: nat
    const createdAt: nat

    function View(): Mem
      reads this
    {
      Mem(data, size, count, sequenceCounter, maxSize, immutable)
    }

    ghost predicate Valid()
      reads this
    {
      Accounted(View())
    }

    /** An empty memtable whose first write gets sequence number `start`. */
    constructor WithSequence(maxSize: nat, start: nat, now: nat)
      ensures Valid()
      ensures View() == EmptyMem(maxSize, start)
      ensures createdAt == now
    {
      data := map[];
      size, count := 0, 0;
      sequenceCounter := start;
      immutable := false;
      this.maxSize, createdAt := maxSize, now;
    }

    method NextSequence() returns (s: nat)
      modifies this`sequenceCounter
      ensures s == old(sequenceCounter) && sequenceCounter == s + 1
    {
      s := sequenceCounter;
      sequenceCounter := sequenceCounter + 1;
    }

    /** Store a version. The size follows the delta, also when the new version is smaller. */
    method Store(key: Key, value: Option<Value>, now: nat) returns (r: Result<()>)
      requires Valid()
      modifies this
      ensures Valid()
      ensures r == if old(immutable) then Err(ReadOnly) else Ok(())
      ensures View() == if old(immutable) then old(View()) else Insert(old(View()), key, value, now)
    {
      if immutable {
        return Err(ReadOnly);
      }
      InsertKeepsAccounts(View(), key, value, now);
      var sequence := NextSequence();
      var entry := Entry(key, value, now, sequence);
      var entrySize := entry.Size();
      var sizeDelta: int := if key in data then entrySize - data[key].Size() else entrySize;
      var isNew := key !in data;
      data := data[key := entry];
      if isNew {
        count := count + 1;
      }
      if sizeDelta > 0 {
        size := size + sizeDelta;
      } else {
        size := size - (-sizeDelta);
      }
      r := Ok(());
    }

    method Put(key: Key, value: Value, now: nat) returns (r: Result<()>)
      requires Valid()
      modifies this
      ensures Valid()
      ensures r == if old(immutable) then Err(ReadOnly) else Ok(())
      ensures View() == if old(immutable) then old(View()) else Insert(old(View()), key, Some(value), now)
      ensures r.Ok? ==> data == old(data)[key := Entry(key, Some(value), now, old(sequenceCounter))]
      ensures r.Ok? ==> sequenceCounter == old(sequenceCounter) + 1 && count == |data|
    {
      r := Store(key, Some(value), now);
    }

    method Delete(key: Key, now: nat) returns (r: Result<()>)
      requires Valid()
      modifies this
      ensures Valid()
      ensures r == if old(immutable) then Err(ReadOnly) else Ok(())
      ensures View() == if old(immutable) then old(View()) else Insert(old(View()), key, None, now)
      ensures r.Ok? ==> data == old(data)[key := Entry(key, None, now, old(sequenceCounter))]
      ensures r.Ok? ==> sequenceCounter == old(sequenceCounter) + 1 && count == |data|
    {
      r := Store(key, None, now);
    }

    method Get(key: Key) returns (r: Option<Entry>)
      requires Valid()
      ensures r.Some? <==> key in data
      ensures r.Some? ==> r.value == data[key] && r.value.key == key
    {
      r := if key in data then Some(data[key]) else None;
    }

    /**
      The entries with `start <= key < end`, ascending.
      The range query of a non-empty sorted map panics on `start > end`, hence the precondition.
     */
    method RangeIter(start: Key, end: Key) returns (es: seq<Entry>)
      requires Valid() && (data == map[] || !Less(end, start))
      ensures forall i, j :: 0 <= i < j < |es| ==> Before(es[i].key, es[j].key)
      ensures forall e :: e in es <==> e.key in data && data[e.key] == e && InRange(e.key, start, end)
      ensures Sorted(es) && es == Slice(SortedEntries(data), start, end)
    {
      var part: map<Key, Entry> := Restrict(data, start, end);
      es := SortedEntries(part);
      hide Sorted, SortedEntries, Within, InRange, Before, Slice, ToMap;
      SortedEntriesCorrect(part);
      SortedEntriesCorrect(data);
      SortedMembers(SortedEntries(data), data);
      RestrictionIsSlice(data, start, end);
      SliceIsRange(SortedEntries(data), start, end);
    }

    /** All entries, ascending. */
    method Entries() returns (es: seq<Entry>)
      requires Valid()
      ensures Sorted(es) && ToMap(es) == data && |es| == count
      ensures es == SortedEntries(data)
    {
      es := SortedEntries(data);
      SortedEntriesCorrect(data);
    }

    method MakeImmutable()
      requires Valid()
      modifies this`immutable
      ensures Valid()
      ensures immutable
    {
      immutable := true;
    }

    /** An independent copy with the same contents and counters. */
    method Clone() returns (c: MemTable)
      requires Valid()
      ensures fresh(c) && c.Valid() && c.View() == View() && c.createdAt == createdAt
    {
      c := new MemTable.WithSequence(maxSize, sequenceCounter, createdAt);
      c.data, c.size, c.count, c.immutable := data, size, count, immutable;
    }
  }

  /** Listing the keys of a range is the same as cutting the range out of the whole list. */
  lemma RestrictionIsSlice(m: Layer, lo: Key, hi: Key)
    requires WellKeyed(m)
    ensures SortedEntries(Restrict(m, lo, hi)) == Slice(SortedEntries(m), lo, hi)
  {
    var es, part := SortedEntries(m), Restrict(m, lo, hi);
    SortedEntriesCorrect(m);
    SortedEntriesCorrect(part);
    SliceIsRestriction(es, lo, hi);
    SliceMembers(es, lo, hi);
    SortedUnique(SortedEntries(part), Slice(es, lo, hi));
  }

  lemma SortedMembers(es: seq<Entry>, m: Layer)
    requires Sorted(es) && ToMap(es) == m
    ensures forall e :: e in es <==> e.key in m && m[e.key] == e
  {
    forall e ensures e in es <==> e.key in m && m[e.key] == e {
      if e in es {
        assert e.key in KeysOf(es);
        FindUnique(es, e);
      }
    }
  }
}
