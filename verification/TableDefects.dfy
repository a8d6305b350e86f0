/** Two lines of the table reader as literally written, and exactly when they would have been right. */
module TableDefects {
  import opened Basics
  import opened ByteOrder
  import opened Sorting
  import opened Packing
  import opened TableFormat
  import opened TableContents

  ghost predicate SoundBlocks(blocks: seq<seq<Entry>>) {
    Sorted(Flatten(blocks)) && forall i :: 0 <= i < |blocks| ==> blocks[i] != []
  }

  // ---------- the largest key ----------

  /**
    The literal `load_index` takes the first key of the last block for the table's largest key. It bounds every
    stored key exactly when the last block holds a single entry; otherwise lookups by key range miss keys.
   */
  lemma LiteralMaxKeyExactly(blocks: seq<seq<Entry>>)
    requires SoundBlocks(blocks) && blocks != []
    ensures var last := blocks[|blocks| - 1];
      (forall e :: e in Flatten(blocks) ==> !Less(FirstKey(last), e.key)) <==> |last| == 1
  {
    hide Less;
    LessIsStrictTotalOrder();
    var n := |blocks| - 1;
    var all, start := Flatten(blocks), |Flatten(blocks[..n])|;
    BlockStart(blocks, n, 0);
    if |blocks[n]| > 1 {
      BlockStart(blocks, n, 1);
      assert all[start + 1] in all;
      assert Less(all[start].key, all[start + 1].key);
    } else {
      assert start == |all| - 1;
      forall e | e in all ensures !Less(FirstKey(blocks[n]), e.key) {
        var i :| 0 <= i < |all| && all[i] == e;
        assert i == start || Less(all[i].key, all[start].key);
      }
    }
  }

  /** The key range test of `find_sstable_for_key` with the literal largest key. */
  predicate LiteralCovers(blocks: seq<seq<Entry>>, k: Key)
    requires blocks != []
  {
    !Less(k, FirstKey(blocks[0])) && !Less(FirstKey(blocks[|blocks| - 1]), k)
  }

  /** For instance, a table of two small entries fills one block, and the literal range shuts the second key out. */
  lemma LiteralMaxKeyMissesKey(e: Entry, f: Entry)
    requires Less(e.key, f.key) && EncodedSize(e) + EncodedSize(f) <= BLOCK_SIZE
    ensures Blocks([e, f]) == [[e, f]]
    ensures Find([e, f], f.key) == Some(f) && !LiteralCovers(Blocks([e, f]), f.key)
  {
    hide Less, EncodedSize, Greedy, Total, Place, Find;
    LessIrreflexive(e.key);
    var es := [e, f];
    assert es[..0] == [] && es[..1] == [e] == [] + [e] && es[..2] == es;
    GreedyNext(es, 0, EncodedSize, BLOCK_SIZE);
    GreedyNext(es, 1, EncodedSize, BLOCK_SIZE);
    PlaceNext([], [], e, EncodedSize, BLOCK_SIZE);
    PlaceNext([], [e], f, EncodedSize, BLOCK_SIZE);
    NothingPacked();
    assert [e] + [f] == [e, f] && [] + [[e]] == [[e]] && [] + [[e, f]] == [[e, f]];
    SecondIsFound(e, f);
  }

  lemma NothingPacked()
    ensures Greedy([], EncodedSize, BLOCK_SIZE) == [] && Total([], EncodedSize) == 0
  {
  }

  lemma SecondIsFound(e: Entry, f: Entry)
    requires e.key != f.key
    ensures Find([e, f], f.key) == Some(f)
  {
    assert [e, f][1..] == [f];
  }

  // ---------- the bound of the range loop ----------

  /** The literal loop runs to the length of the end key. `None` stands for an index out of bounds. */
  function LiteralRange(blocks: seq<seq<Entry>>, lo: Key, hi: Key, i: nat): Option<seq<Entry>>
    decreases if i < |hi| then |hi| - i else 0
  {
    if i >= |hi| then Some([])
    else if i >= |blocks| then None
    else if !Less(FirstKey(blocks[i]), hi) then Some([])
    else
      var rest := LiteralRange(blocks, lo, hi, i + 1);
      if rest == None then None else Some(Slice(blocks[i], lo, hi) + rest.value)
  }

  /** The first block from `i` on that starts at or after `hi`; the number of blocks if there is none. */
  function Stop(blocks: seq<seq<Entry>>, hi: Key, i: nat): (j: nat)
    requires i <= |blocks|
    ensures i <= j <= |blocks|
    ensures forall x :: i <= x < j ==> Less(FirstKey(blocks[x]), hi)
    ensures j < |blocks| ==> !Less(FirstKey(blocks[j]), hi)
    decreases |blocks| - i
  {
    if i == |blocks| || !Less(FirstKey(blocks[i]), hi) then i else Stop(blocks, hi, i + 1)
  }

  /** Where the loop starts: the block for `lo`, or the first one. */
  ghost predicate StartsAt(blocks: seq<seq<Entry>>, lo: Key, i: nat) {
    && i <= |blocks|
    && (i > 0 ==> i < |blocks| && !Less(lo, FirstKey(blocks[i])))
    && (forall x :: i < x < |blocks| ==> Less(lo, FirstKey(blocks[x])))
  }

  function Between(blocks: seq<seq<Entry>>, lo: Key, hi: Key, i: nat, j: nat): seq<Entry>
    requires i <= j <= |blocks|
  {
    Slice(Flatten(blocks[i..j]), lo, hi)
  }

  lemma BetweenCons(blocks: seq<seq<Entry>>, lo: Key, hi: Key, i: nat, j: nat)
    requires i < j <= |blocks|
    ensures Between(blocks, lo, hi, i, j) == Slice(blocks[i], lo, hi) + Between(blocks, lo, hi, i + 1, j)
  {
    assert blocks[i..j] == [blocks[i]] + blocks[i + 1..j];
    FlattenCons(blocks[i], blocks[i + 1..j]);
    SliceAppend(blocks[i], Flatten(blocks[i + 1..j]), lo, hi);
  }

  lemma {:induction false} LiteralRangeGives(blocks: seq<seq<Entry>>, lo: Key, hi: Key, i: nat, stop: nat)
    requires i <= stop <= |blocks| && i <= |hi|
    requires forall x :: i <= x < stop ==> Less(FirstKey(blocks[x]), hi)
    requires stop < |blocks| ==> !Less(FirstKey(blocks[stop]), hi)
    ensures LiteralRange(blocks, lo, hi, i) ==
      if |hi| <= stop then Some(Between(blocks, lo, hi, i, |hi|))
      else if stop < |blocks| then Some(Between(blocks, lo, hi, i, stop))
      else None
    decreases |blocks| - i
  {
    hide Less, Slice;
    if i < stop && i < |hi| {
      LiteralRangeGives(blocks, lo, hi, i + 1, stop);
      BetweenCons(blocks, lo, hi, i, if |hi| <= stop then |hi| else stop);
    } else {
      assert blocks[i..i] == [];
      NothingBetween(lo, hi);
    }
  }

  lemma NothingBetween(lo: Key, hi: Key)
    ensures Slice(Flatten([]), lo, hi) == []
  {
  }

  /** What a range query should return lies between its starting block and the stop. */
  lemma MeantRange(blocks: seq<seq<Entry>>, lo: Key, hi: Key, i: nat)
    requires SoundBlocks(blocks) && StartsAt(blocks, lo, i)
    ensures Slice(Flatten(blocks), lo, hi) == Between(blocks, lo, hi, i, Stop(blocks, hi, i))
  {
    hide Less, Slice, Sorted;
    var stop := Stop(blocks, hi, i);
    if stop < |blocks| { RemainingBlocks(blocks, lo, hi, stop); }
    assert blocks[..|blocks|] == blocks;
    FromStart(blocks, lo, hi, i, stop);
  }

  lemma FromStart(blocks: seq<seq<Entry>>, lo: Key, hi: Key, i: nat, j: nat)
    requires SoundBlocks(blocks) && StartsAt(blocks, lo, i) && i <= j <= |blocks|
    ensures Slice(Flatten(blocks[..j]), lo, hi) == Between(blocks, lo, hi, i, j)
  {
    hide Less, Slice, Sorted, Flatten;
    if i > 0 { SkippedBlocks(blocks, lo, hi, i); } else { assert blocks[..0] == []; NothingBetween(lo, hi); }
    assert blocks[..j] == blocks[..i] + blocks[i..j];
    FlattenAppend(blocks[..i], blocks[i..j]);
    SliceAppend(Flatten(blocks[..i]), Flatten(blocks[i..j]), lo, hi);
  }

  /** A block between the starting one and the stop contributes at least its first entry. */
  lemma {:induction false} MissingBlockMatters(blocks: seq<seq<Entry>>, lo: Key, hi: Key, i: nat, j: nat, stop: nat)
    requires SoundBlocks(blocks) && StartsAt(blocks, lo, i) && i < j < stop <= |blocks|
    requires Less(FirstKey(blocks[j]), hi)
    ensures |Between(blocks, lo, hi, i, j)| < |Between(blocks, lo, hi, i, stop)|
  {
    hide Less, Slice, Sorted;
    assert blocks[i..stop] == blocks[i..j] + blocks[j..stop];
    FlattenAppend(blocks[i..j], blocks[j..stop]);
    SliceAppend(Flatten(blocks[i..j]), Flatten(blocks[j..stop]), lo, hi);
    BetweenCons(blocks, lo, hi, j, stop);
    FirstEntryMatters(blocks[j], lo, hi);
  }

  lemma FirstEntryMatters(es: seq<Entry>, lo: Key, hi: Key)
    requires es != [] && Less(lo, es[0].key) && Less(es[0].key, hi)
    ensures Slice(es, lo, hi) != []
  {
    LessIsStrictTotalOrder();
  }

  /**
    With the loop bounded by `end.len()`, a range query that gets to look at a block is right exactly when the
    end key is at least as long as the blocks to visit are many, and, if the blocks run out first, of exactly
    their number. One that does not get to look at any block is right exactly when no block was to be visited,
    or just one without an entry in the range.
   */
  lemma LiteralRangeExactly(blocks: seq<seq<Entry>>, lo: Key, hi: Key, i: nat)
    requires SoundBlocks(blocks) && StartsAt(blocks, lo, i)
    ensures LiteralRange(blocks, lo, hi, i) == Some(Slice(Flatten(blocks), lo, hi)) <==>
      if |hi| <= i then
        || Stop(blocks, hi, i) == i
        || (Stop(blocks, hi, i) == i + 1 && Slice(blocks[i], lo, hi) == [])
      else Stop(blocks, hi, i) <= |hi| && (Stop(blocks, hi, i) < |blocks| || |hi| == |blocks|)
  {
    hide Less, Slice, Sorted;
    var stop := Stop(blocks, hi, i);
    MeantRange(blocks, lo, hi, i);
    NothingBetween(lo, hi);
    assert blocks[stop..stop] == [];
    if |hi| <= i {
      if stop == i + 1 {
        BetweenCons(blocks, lo, hi, i, stop);
      } else if stop > i + 1 {
        MissingBlockMatters(blocks, lo, hi, i, i + 1, stop);
      }
    } else {
      LiteralRangeGives(blocks, lo, hi, i, stop);
      if |hi| < stop {
        MissingBlockMatters(blocks, lo, hi, i, |hi|, stop);
      }
    }
  }

  /** For instance, with two blocks and a one-byte end key after both, the second block is never looked at. */
  lemma LiteralRangeMissesBlock(e: Entry, f: Entry)
    requires Less([1], e.key) && Less(e.key, f.key) && Less(f.key, [9])
    ensures LiteralRange([[e], [f]], [1], [9], 0) == Some([e])
    ensures Slice(Flatten([[e], [f]]), [1], [9]) == [e, f]
  {
    hide Less, Slice, Flatten;
    LessIsStrictTotalOrder();
    var blocks := [[e], [f]];
    TwoBlocks(e, f);
    OneInRange(e, [1], [9]);
    OneInRange(f, [1], [9]);
    LiteralRangeGives(blocks, [1], [9], 0, 2);
    BetweenCons(blocks, [1], [9], 0, 1);
    assert blocks[1..1] == [];
    NothingBetween([1], [9]);
    assert Between(blocks, [1], [9], 0, 1) == [e] + [];
    SliceAppend([e], [f], [1], [9]);
    assert [e] + [f] == [e, f] && [e] + [] == [e];
  }

  lemma TwoBlocks(e: Entry, f: Entry)
    ensures Flatten([[e], [f]]) == [e, f]
  {
    FlattenCons([e], [[f]]);
    FlattenCons([f], []);
    assert [[e]] + [[f]] == [[e], [f]] && [[f]] + [] == [[f]];
  }

  lemma OneInRange(e: Entry, lo: Key, hi: Key)
    requires Within(e.key, lo, hi)
    ensures Slice([e], lo, hi) == [e]
  {
    assert [e][1..] == [];
    assert Slice([], lo, hi) == [];
  }
}
