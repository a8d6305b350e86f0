/**
  From entries to a table object and back. The engine treats a table as its entry list; this module shows
  that the object made by writing the entries to a file and opening it answers exactly like that list.
 */
module TableObjects {
  import opened Basics
  import opened ByteOrder
  import opened Sorting
  import opened Packing
  import opened StableSort
  import opened Bloom
  import opened TableFormat
  import opened TableOpening
  import opened TableContents
  import opened TableWriter
  import opened TableReader
  import EngineModel

  /**
    `create_sstable`: write the entries, open the file. The reader then holds exactly these entries,
    and its key range runs from the first key to the last.
   */
  method WriteAndOpen(p: Params, es: seq<Entry>) returns (reader: SSTableReader)
    requires TableFits(p, es) && p.codec.Sound() && Sorted(es) && EntriesDecompress(p, es)
    ensures fresh(reader) && reader.Valid() && Readable(reader.View())
    ensures Contents(reader.View()) == es
    ensures reader.View() == WrittenHandle(p, es)
    ensures es != [] ==> reader.minKey == es[0].key && reader.maxKey == es[|es| - 1].key
    ensures reader.meta.createdAt == p.createdAt && reader.meta.dataSize == |Data(p, Blocks(es))|
  {
    hide TableFile, Contents, Readable, Blocks, Data, Index, MetaOf, StoredFilter, OpenFile, Sorted, EntriesDecompress;
    hide TableFits, DistinctKeys, SortByKey, SSTableReader.CacheOk;
    PositiveBits(p, es);
    SortedStays(es);
    var built := BuildFromVec(p, es);
    WrittenTableOpens(p, es);
    WrittenIsReadable(p, es);
    WrittenParts(p, es);
    var r := SSTableReader.OpenTable(p.codec, p.hashes, built.value.1);
    reader := r.value;
  }

  lemma WrittenParts(p: Params, es: seq<Entry>)
    requires TableFits(p, es)
    ensures MetaOf(p, es).createdAt == p.createdAt && MetaOf(p, es).dataSize == |Data(p, Blocks(es))|
    ensures StoredFilter(p, es).bitCount > 0
    ensures es != [] ==> Index(p, Blocks(es)) != []
  {
    hide Data, KeyFilter, Blocks;
    IndexLength(p, Blocks(es));
    if es != [] { NonEmptyBlocks(es); }
  }

  lemma SortedStays(es: seq<Entry>)
    requires Sorted(es)
    ensures SortByKey(es) == es
    ensures DistinctKeys(es)
  {
    forall i, j | 0 <= i < j < |es| ensures es[i].key != es[j].key {
      LessIrreflexive(es[i].key);
    }
    hide Sorted, DistinctKeys, SortBy;
    KeyBeforeIsOrder(es);
    KeyBeforeIsOrder(SortByKey(es));
    SortKeepsDifferent(es, KeyBefore);
    AscendsExactlyWhenDifferent(es, KeyBefore);
    AscendingUnique(SortByKey(es), es, KeyBefore);
  }

  lemma NonEmptyBlocks(es: seq<Entry>)
    requires es != []
    ensures Blocks(es) != []
  {
    GreedyLegal(es, EncodedSize, BLOCK_SIZE);
  }

  /** The loop of `merge_sstables` over one table: the iterator delivers the whole table, in order, then ends. */
  method CollectEntries(reader: SSTableReader) returns (r: Result<seq<Entry>>)
    requires reader.Valid()
    modifies reader`blockCache
    ensures reader.Valid()
    ensures Readable(reader.View()) ==> r == Ok(Contents(reader.View()))
  {
    hide BlockList, BlocksOk, Contents, FilterKnows;
    hide Sorted, Coherent, Flatten, SSTableReader.CacheOk, SSTableReader.Valid;
    ghost var h := reader.View();
    var entries := new SSTableIterator(reader);
    var es: seq<Entry> := [];
    assert es + entries.Remaining() == Contents(h);
    while true
      invariant fresh(entries) && entries.reader == reader && entries.Valid() && reader.View() == h
      invariant BlocksOk(h) && Coherent(reader.index) ==> es + entries.Remaining() == Contents(h)
      decreases if entries.currentBlock < |reader.index| then |reader.index| - entries.currentBlock else 0,
        if entries.currentBlockData == None then 1 else 0,
        |entries.currentBlockEntries| - entries.currentEntry
    {
      ghost var left := entries.Remaining();
      var next := entries.Next();
      MoveOne(es, left);
      if next == None {
        break;
      }
      if next.value.Err? {
        return Err(next.value.error);
      }
      es := es + [next.value.value];
    }
    r := Ok(es);
  }

  lemma MoveOne(es: seq<Entry>, left: seq<Entry>)
    ensures left == [] ==> es + left == es
    ensures left != [] ==> es + [left[0]] + left[1..] == es + left
  {
  }

  /** The engine's assumption on filters holds when every table's filter is the one the writer built. */
  lemma WrittenFiltersAreSafe(cfg: EngineModel.Config, p: Params)
    requires p.bitCount > 0
    requires forall es, k :: cfg.mightContain(es, k) == MightContain(p.hashes, KeyFilter(p, es), k)
    ensures cfg.NoFalseNegatives()
  {
    forall es: seq<Entry>, k: Key | Find(es, k).Some? ensures cfg.mightContain(es, k) {
      FilterKnowsKeys(p, es, Find(es, k).value);
    }
  }
}
