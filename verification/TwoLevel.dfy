/** The iterator over a whole table: an index iterator and an iterator over one block at a time. */
module TwoLevel {
  import opened Keys
  import opened BlockFormat
  import opened BlockIter
  import opened KeyOrder
  import opened TableFormat
  import opened TableBuilders
  import opened TableReaders

  class TwoLevelIterator {
    const table: TableReader
    const indexIter: Iter
    var dataIter: Iter?
    var dataBlockHandle: Bytes

    // What the parts are; d is the block that the data iterator ranges over.
    ghost predicate Parts(d: nat)
      reads this, indexIter, dataIter
    {
      && table.Valid() && indexIter.layout == table.table.index.layout && indexIter.less == InternalOrder()
      && indexIter.At(indexIter.pos)
      && (dataIter != null ==>
            && dataIter != indexIter && d < |table.table.blocks| && dataIter.layout == table.table.blocks[d].layout
            && dataIter.less == InternalOrder() && dataIter.At(dataIter.pos)
            && dataBlockHandle == EncodeHandle(table.table.blocks[d].handle))
    }

    ghost function Blocks(): seq<DataBlock> {
      table.table.blocks
    }

    // The iterator stands on entry p of the table, or is not valid when p is their number.
    ghost predicate At(p: nat)
      reads this, indexIter, dataIter
    {
      Parts(indexIter.pos) && (dataIter == null ==> indexIter.pos == |Blocks()|) && Stands(p)
    }

    ghost predicate Stands(p: nat)
      reads this, indexIter, dataIter
    {
      if dataIter == null then p == |table.Entries()|
      else indexIter.pos < |Blocks()| && dataIter.pos < |dataIter.layout.entries| && p == Base(Blocks(), indexIter.pos) + dataIter.pos
    }

    // On the way to p, forward: the end of a block stands for the start of the next one.
    ghost predicate Forward(p: nat)
      reads this, indexIter, dataIter
    {
      && Parts(indexIter.pos)
      && (if dataIter == null then indexIter.pos == |Blocks()| && p == |table.Entries()|
          else indexIter.pos < |Blocks()| && p == Base(Blocks(), indexIter.pos) + dataIter.pos)
    }

    // On the way to p, backward: running off the front of a block stands for the end of the one before.
    ghost predicate Backward(p: nat)
      reads this, indexIter, dataIter
    {
      && Parts(indexIter.pos)
      && (if dataIter == null then indexIter.pos == |Blocks()| && p == |table.Entries()|
          else
            && indexIter.pos < |Blocks()|
            && (if dataIter.pos < |dataIter.layout.entries| then p == Base(Blocks(), indexIter.pos) + dataIter.pos
                else p == PositionBefore(Blocks(), indexIter.pos)))
    }

    function Valid(): bool
      reads this, dataIter
    {
      dataIter != null && dataIter.Valid()
    }

    constructor (table: TableReader)
      requires table.Valid()
      ensures At(|table.Entries()|) && !Valid() && this.table == table && fresh(indexIter)
    {
      hide TableReader.Valid, Iter.At;
      var it := table.IndexIterator();
      this.table := table;
      indexIter := it;
      dataIter := null;
      dataBlockHandle := [];
      new;
      AtEnd(indexIter);
      IndexSize(table);
    }

    // Opens the block that the index iterator stands on, unless it is open already.
    method InitDataBlock(ghost d: nat)
      requires Parts(d)
      modifies this
      ensures Parts(indexIter.pos) && dataIter != indexIter
      ensures dataIter == null <==> indexIter.pos == |table.table.blocks|
      ensures dataIter == old(dataIter) || dataIter == null || fresh(dataIter)
    {
      hide IsBlock, IsTable, HandlesAscend, EncodeHandle, Iter.At;
      AtEnd(indexIter);
      IndexSize(table);
      if !indexIter.Valid() {
        dataIter := null;
      } else {
        ghost var i := indexIter.pos;
        TableFacts(table.crc, table.filterName, table.file, table.table, i);
        var _, handle := indexIter.Entry();
        if dataIter != null && handle == dataBlockHandle {
          HandlesDiffer(table, d, i);
        } else {
          dataBlockHandle := handle;
          dataIter := table.BlockReader(handle, i);
        }
      }
    }

    method SkipEmptyDataBlocksForward(ghost p: nat)
      requires Forward(p)
      modifies this, indexIter, dataIter
      ensures At(p) && (dataIter == null || dataIter == old(dataIter) || fresh(dataIter))
    {
      hide IsBlock, TableReader.Valid, Iter.At, EncodeHandle, Concat;
      IndexSize(table);
      while dataIter == null || !dataIter.Valid()
        invariant Forward(p)
        invariant dataIter == null || dataIter == old(dataIter) || fresh(dataIter)
        decreases |Blocks()| - indexIter.pos
      {
        AtEnd(indexIter);
        if !indexIter.Valid() {
          dataIter := null;
          return;
        }
        AtEnd(dataIter);
        ghost var i := indexIter.pos;
        BlockSizesAdd(table, i);
        indexIter.Next();
        StandsAt(indexIter, i + 1);
        InitDataBlock(i);
        if dataIter != null {
          dataIter.SeekToFirst();
          StandsAt(dataIter, 0);
        }
      }
      AtEnd(dataIter);
    }

    method SkipEmptyDataBlocksBackward(ghost p: nat)
      requires Backward(p)
      modifies this, indexIter, dataIter
      ensures At(p) && (dataIter == null || dataIter == old(dataIter) || fresh(dataIter))
    {
      hide IsBlock, TableReader.Valid, Iter.At, EncodeHandle, Concat;
      IndexSize(table);
      while dataIter == null || !dataIter.Valid()
        invariant Backward(p)
        invariant dataIter == null || dataIter == old(dataIter) || fresh(dataIter)
        decreases if indexIter.pos == |Blocks()| then 0 else indexIter.pos + 1
      {
        AtEnd(indexIter);
        if !indexIter.Valid() {
          dataIter := null;
          return;
        }
        AtEnd(dataIter);
        ghost var i := indexIter.pos;
        if i > 0 {
          BlockSizesAdd(table, i - 1);
        }
        indexIter.Prev();
        StandsAt(indexIter, if i == 0 then |Blocks()| else i - 1);
        InitDataBlock(i);
        if dataIter != null {
          BlockSizesAdd(table, indexIter.pos);
          dataIter.SeekToLast();
          StandsAt(dataIter, |dataIter.layout.entries| - 1);
        }
      }
      AtEnd(dataIter);
    }

    method SeekToFirst()
      requires Parts(indexIter.pos)
      modifies this, indexIter, dataIter
      ensures At(0) && (dataIter == null || dataIter == old(dataIter) || fresh(dataIter))
    {
      hide IsBlock, TableReader.Valid, Iter.At, EncodeHandle, Concat;
      IndexSize(table);
      ghost var d := indexIter.pos;
      indexIter.SeekToFirst();
      StandsAt(indexIter, 0);
      InitDataBlock(d);
      if dataIter != null {
        dataIter.SeekToFirst();
        StandsAt(dataIter, 0);
      }
      Ends(table);
      SkipEmptyDataBlocksForward(0);
    }

    method SeekToLast()
      requires Parts(indexIter.pos)
      modifies this, indexIter, dataIter
      ensures At(LastEntry(table.Entries())) && (dataIter == null || dataIter == old(dataIter) || fresh(dataIter))
    {
      hide IsBlock, TableReader.Valid, Iter.At, EncodeHandle, Concat;
      IndexSize(table);
      Ends(table);
      ghost var d := indexIter.pos;
      indexIter.SeekToLast();
      StandsAt(indexIter, if Blocks() == [] then 0 else |Blocks()| - 1);
      InitDataBlock(d);
      if dataIter != null {
        BlockSizesAdd(table, indexIter.pos);
        dataIter.SeekToLast();
        StandsAt(dataIter, |dataIter.layout.entries| - 1);
      }
      SkipEmptyDataBlocksBackward(LastEntry(table.Entries()));
    }

    method Next(ghost p: nat)
      requires At(p) && Valid()
      modifies this, indexIter, dataIter
      ensures At(p + 1) && (dataIter == null || dataIter == old(dataIter) || fresh(dataIter))
    {
      hide IsBlock, TableReader.Valid, Iter.At, EncodeHandle, Concat;
      ghost var j := dataIter.pos;
      dataIter.Next();
      StandsAt(dataIter, j + 1);
      SkipEmptyDataBlocksForward(p + 1);
    }

    method Prev(ghost p: nat)
      requires At(p) && Valid()
      modifies this, indexIter, dataIter
      ensures At(if p == 0 then |table.Entries()| else p - 1) && (dataIter == null || dataIter == old(dataIter) || fresh(dataIter))
    {
      hide IsBlock, TableReader.Valid, Iter.At, EncodeHandle, Concat;
      Ends(table);
      BlockSizesAdd(table, if indexIter.pos > 0 then indexIter.pos - 1 else 0);
      ghost var j := dataIter.pos;
      dataIter.Prev();
      StandsAt(dataIter, if j == 0 then |dataIter.layout.entries| else j - 1);
      SkipEmptyDataBlocksBackward(if p == 0 then |table.Entries()| else p - 1);
    }

    method Seek(target: Bytes) returns (ghost p: nat)
      requires Parts(indexIter.pos) && |target| >= TAG_SIZE
      modifies this, indexIter, dataIter
      ensures At(p) && IsFirstFrom(InternalOrder(), table.Entries(), target, p)
      ensures dataIter == null || dataIter == old(dataIter) || fresh(dataIter)
    {
      hide IsBlock, TableReader.Valid, Iter.At, EncodeHandle, Concat, IsFirstFrom;
      ghost var d := indexIter.pos;
      indexIter.Seek(target);
      InitDataBlock(d);
      if dataIter != null {
        dataIter.Seek(target);
        AtEnd(dataIter);
        p := Base(Blocks(), indexIter.pos) + dataIter.pos;
        SeekLands(table, target, indexIter.pos, dataIter.pos);
      } else {
        p := |table.Entries()|;
        SeekEnds(table, target);
      }
      SkipEmptyDataBlocksForward(p);
    }

    method Entry(ghost p: nat) returns (key: Bytes, value: Bytes)
      requires At(p) && Valid()
      ensures p < |table.Entries()| && table.Entries()[p] == KeyValue(key, value)
    {
      hide IsBlock, TableReader.Valid, Iter.At, EncodeHandle, Concat;
      key, value := dataIter.Entry();
      InConcat(Blocks(), indexIter.pos, dataIter.pos);
    }
  }

  lemma SeekLands(r: TableReader, target: Bytes, i: nat, j: nat)
    requires r.Valid() && |target| >= TAG_SIZE && i < |r.table.blocks|
    requires IsFirstFrom(InternalOrder(), r.table.index.layout.entries, target, i)
    requires IsFirstFrom(InternalOrder(), r.table.blocks[i].layout.entries, target, j)
    ensures IsFirstFrom(InternalOrder(), r.Entries(), target, Base(r.table.blocks, i) + j)
  {
    WholeTable(r.crc, r.filterName, r.file, r.table);
    BlockSizesAdd(r, i);
    hide TableReader.Valid, Concat, InternalBefore, Separated, Keyed;
    if j < |r.table.blocks[i].layout.entries| {
      InTheBlock(r.table.blocks, r.table.index.layout.entries, target, i, j);
    } else {
      BetweenBlocks(r.table.blocks, r.table.index.layout.entries, target, i);
    }
  }

  lemma SeekEnds(r: TableReader, target: Bytes)
    requires r.Valid() && IsFirstFrom(InternalOrder(), r.table.index.layout.entries, target, |r.table.blocks|)
    ensures IsFirstFrom(InternalOrder(), r.Entries(), target, |r.Entries()|)
  {
    WholeTable(r.crc, r.filterName, r.file, r.table);
    PastTheIndex(r.table.blocks, r.table.index.layout.entries, target);
  }

  function LastEntry(es: seq<KeyValue>): nat {
    if es == [] then 0 else |es| - 1
  }

  // The position before block i.
  ghost function PositionBefore(blocks: seq<DataBlock>, i: nat): nat
    requires i <= |blocks|
  {
    if i == 0 || Base(blocks, i) == 0 then |Concat(blocks)| else Base(blocks, i) - 1
  }

  lemma BlockSizesAdd(r: TableReader, i: nat)
    requires r.Valid()
    ensures i < |r.table.blocks| ==> r.table.blocks[i].layout.entries != []
    ensures i < |r.table.blocks| ==>
      Base(r.table.blocks, i + 1) == Base(r.table.blocks, i) + |r.table.blocks[i].layout.entries|
    ensures i + 1 == |r.table.blocks| ==> Base(r.table.blocks, i + 1) == |r.Entries()|
  {
    hide IsTable, IsBlock, Concat;
    if i < |r.table.blocks| {
      TableFacts(r.crc, r.filterName, r.file, r.table, i);
      InConcat(r.table.blocks, i, 0);
      assert i + 1 == |r.table.blocks| ==> r.table.blocks[..i + 1] == r.table.blocks;
    }
  }

  lemma Ends(r: TableReader)
    requires r.Valid()
    ensures Base(r.table.blocks, 0) == 0
    ensures |r.table.blocks| > 0 ==> r.Entries() != []
    ensures |r.table.blocks| > 0 ==>
      |r.Entries()| == Base(r.table.blocks, |r.table.blocks| - 1) + |r.table.blocks[|r.table.blocks| - 1].layout.entries|
    ensures r.table.blocks == [] ==> r.Entries() == []
  {
    var n := |r.table.blocks|;
    if n > 0 {
      BlockSizesAdd(r, n - 1);
    }
  }

  lemma IndexSize(r: TableReader)
    requires r.Valid()
    ensures |r.table.index.layout.entries| == |r.table.blocks|
  {
    WholeTable(r.crc, r.filterName, r.file, r.table);
  }

  // Different blocks have different handles.
  lemma HandlesDiffer(r: TableReader, d: nat, i: nat)
    requires r.Valid() && d < |r.table.blocks| && i < |r.table.blocks|
    requires EncodeHandle(r.table.blocks[d].handle) == EncodeHandle(r.table.blocks[i].handle)
    ensures d == i
  {
    var a, b := r.table.blocks[d], r.table.blocks[i];
    TableFacts(r.crc, r.filterName, r.file, r.table, d);
    TableFacts(r.crc, r.filterName, r.file, r.table, i);
    HandleFits(r.crc, r.file, a);
    HandleFits(r.crc, r.file, b);
    HandleRoundTrip(a.handle, []);
    HandleRoundTrip(b.handle, []);
    assert EncodeHandle(a.handle) + [] == EncodeHandle(b.handle) + [];
    assert HandlesAscend(r.table.blocks, |r.file|);
  }
}
