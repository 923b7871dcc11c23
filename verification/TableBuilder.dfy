/** Building a table of internal keys. */
module TableBuilders {
  import opened Keys
  import opened Wrappers
  import opened Coding
  import opened BlockFormat
  import opened BlockBuilders
  import opened KeyOrder
  import opened TableFormat
  import opened FilterBlock

  /** Separators */

  function FirstKey(b: DataBlock): Bytes
    requires b.layout.entries != []
  {
    b.layout.entries[0].key
  }

  function FinalKey(b: DataBlock): Bytes
    requires b.layout.entries != []
  {
    b.layout.entries[|b.layout.entries| - 1].key
  }

  // Index entry i holds the handle of block i under a key that is at or after the block's keys and
  // before those of the next block.
  ghost predicate Separated(blocks: seq<DataBlock>, index: seq<KeyValue>) {
    && |index| <= |blocks| && (forall b :: b in blocks ==> b.layout.entries != [])
    && (forall i: nat :: i < |index| ==> IndexEntryOk(blocks, index, i))
  }

  ghost predicate IndexEntryOk(blocks: seq<DataBlock>, index: seq<KeyValue>, i: nat)
    requires i < |index| <= |blocks| && forall b :: b in blocks ==> b.layout.entries != []
  {
    && index[i].value == EncodeHandle(blocks[i].handle)
    && |index[i].key| >= TAG_SIZE
    && !InternalBefore(index[i].key, FinalKey(blocks[i]))
    && (i + 1 < |blocks| ==> Splits(FinalKey(blocks[i]), index[i].key, FirstKey(blocks[i + 1])))
  }

  // A separator before limit; unless it is the last key itself, its user key is smaller than limit's.
  ghost predicate Splits(final: Bytes, separator: Bytes, limit: Bytes) {
    && InternalBefore(separator, limit)
    && (separator == final || (|separator| >= TAG_SIZE && |limit| >= TAG_SIZE && Before(UserPart(separator), UserPart(limit))))
  }

  ghost predicate Keyed(es: seq<KeyValue>) {
    Ascending(InternalOrder(), es) && forall e :: e in es ==> |e.key| >= TAG_SIZE
  }

  // What a builder has so far: the finished blocks, the entries of the next one, the index.
  datatype Progress = Progress(blocks: seq<DataBlock>, data: seq<KeyValue>, index: seq<KeyValue>,
                               entries: seq<KeyValue>, pending: Option<Handle>, lastKey: Bytes)

  ghost predicate Consistent(p: Progress) {
    && p.entries == Concat(p.blocks) + p.data && Keyed(p.entries)
    && Separated(p.blocks, p.index)
    && (p.entries != [] ==> p.lastKey == p.entries[|p.entries| - 1].key)
    && match p.pending
       case Some(h) => p.data == [] && |p.index| + 1 == |p.blocks| && h == p.blocks[|p.index|].handle
       case None => |p.index| == |p.blocks| && (p.blocks != [] ==> p.data != [] && p.blocks[|p.index| - 1].layout.entries != [] && Splits(FinalKey(p.blocks[|p.index| - 1]), p.index[|p.index| - 1].key, p.data[0].key))
  }

  lemma ConcatAppends(blocks: seq<DataBlock>, b: DataBlock)
    ensures Concat(blocks + [b]) == Concat(blocks) + b.layout.entries
  {
  }

  lemma AddKeepsKeyed(es: seq<KeyValue>, e: KeyValue)
    requires Keyed(es) && |e.key| >= TAG_SIZE && (es != [] ==> InternalBefore(es[|es| - 1].key, e.key))
    ensures Keyed(es + [e])
  {
    hide InternalBefore;
    var all := es + [e];
    forall i, j | 0 <= i < j < |all|
      ensures InternalBefore(all[i].key, all[j].key)
    {
      if j == |es| {
        InternalTransitive(all[i].key, es[|es| - 1].key, e.key);
      }
    }
  }

  // Adding an entry, with the index entry of the block before it if that is still missing.
  lemma AddStep(p: Progress, separator: Bytes, e: KeyValue)
    requires Consistent(p) && |e.key| >= TAG_SIZE && (p.entries != [] ==> InternalBefore(p.lastKey, e.key))
    requires p.pending.Some? ==> |separator| >= TAG_SIZE && !InternalBefore(separator, p.lastKey) && Splits(p.lastKey, separator, e.key)
    ensures var index := if p.pending.Some? then p.index + [KeyValue(separator, EncodeHandle(p.pending.value))] else p.index;
      Consistent(Progress(p.blocks, p.data + [e], index, p.entries + [e], None, e.key))
  {
    hide InternalBefore, Splits, Concat, EncodeHandle;
    AddKeepsKeyed(p.entries, e);
    hide Keyed;
    if p.pending.Some? {
      LastOfConcat(p.blocks);
      IndexGrows(p.blocks, p.index, KeyValue(separator, EncodeHandle(p.pending.value)));
    }
    assert p.entries + [e] == Concat(p.blocks) + (p.data + [e]);
  }

  lemma LastOfConcat(blocks: seq<DataBlock>)
    requires blocks != [] && blocks[|blocks| - 1].layout.entries != []
    ensures Concat(blocks) != [] && Concat(blocks)[|Concat(blocks)| - 1].key == FinalKey(blocks[|blocks| - 1])
  {
  }

  lemma IndexGrows(blocks: seq<DataBlock>, index: seq<KeyValue>, e: KeyValue)
    requires Separated(blocks, index) && |index| + 1 == |blocks|
    requires e.value == EncodeHandle(blocks[|index|].handle) && |e.key| >= TAG_SIZE && !InternalBefore(e.key, FinalKey(blocks[|index|]))
    ensures Separated(blocks, index + [e])
  {
    hide InternalBefore, Splits, EncodeHandle;
    var all := index + [e];
    forall i: nat | i < |all|
      ensures IndexEntryOk(blocks, all, i)
    {
      assert i < |index| ==> IndexEntryOk(blocks, index, i);
    }
  }

  // A finished block waits for its index entry.
  lemma FlushStep(p: Progress, b: DataBlock)
    requires Consistent(p) && p.data != [] && b.layout.entries == p.data
    ensures Consistent(Progress(p.blocks + [b], [], p.index, p.entries, Some(b.handle), p.lastKey))
  {
    hide InternalBefore, Splits, Keyed, EncodeHandle;
    ConcatAppends(p.blocks, b);
    hide Concat;
    var blocks := p.blocks + [b];
    forall i: nat | i < |p.index|
      ensures IndexEntryOk(blocks, p.index, i)
    {
      assert IndexEntryOk(p.blocks, p.index, i);
    }
    assert p.entries == Concat(blocks) + [];
  }

  lemma LastIndexEntry(p: Progress, successor: Bytes)
    requires Consistent(p) && p.pending.Some? && |successor| >= TAG_SIZE && !InternalBefore(successor, p.lastKey)
    ensures Separated(p.blocks, p.index + [KeyValue(successor, EncodeHandle(p.pending.value))])
  {
    hide InternalBefore, Splits, Keyed, EncodeHandle;
    LastOfConcat(p.blocks);
    IndexGrows(p.blocks, p.index, KeyValue(successor, EncodeHandle(p.pending.value)));
  }

  // The separators are in order, too.
  lemma IndexAscends(blocks: seq<DataBlock>, index: seq<KeyValue>)
    requires Separated(blocks, index) && Keyed(Concat(blocks))
    ensures Keyed(index)
  {
    hide InternalBefore, Concat;
    forall i, j | 0 <= i < j < |index|
      ensures InternalBefore(index[i].key, index[j].key)
    {
      IndexInOrder(blocks, index, i, j);
    }
    forall e | e in index
      ensures |e.key| >= TAG_SIZE
    {
      var i :| 0 <= i < |index| && index[i] == e;
      assert IndexEntryOk(blocks, index, i);
    }
  }

  lemma NotBefore(a: Bytes, b: Bytes, c: Bytes)
    ensures InternalBefore(a, b) && !InternalBefore(c, b) ==> InternalBefore(a, c)
  {
    InternalTotal(b, c);
    InternalTransitive(a, b, c);
  }

  lemma IndexInOrder(blocks: seq<DataBlock>, index: seq<KeyValue>, i: nat, j: nat)
    requires Separated(blocks, index) && Keyed(Concat(blocks)) && i < j < |index|
    ensures InternalBefore(index[i].key, index[j].key)
    decreases j - i
  {
    hide InternalBefore, Concat;
    assert IndexEntryOk(blocks, index, j - 1) && IndexEntryOk(blocks, index, j);
    var n := |blocks[j].layout.entries|;
    InConcat(blocks, j, 0);
    InConcat(blocks, j, n - 1);
    assert n > 1 ==> InternalOrder()(FirstKey(blocks[j]), FinalKey(blocks[j]));
    SelfNotBefore(FirstKey(blocks[j]), FinalKey(blocks[j]));
    NotBefore(index[j - 1].key, FirstKey(blocks[j]), FinalKey(blocks[j]));
    NotBefore(index[j - 1].key, FinalKey(blocks[j]), index[j].key);
    if i < j - 1 {
      IndexInOrder(blocks, index, i, j - 1);
      InternalTransitive(index[i].key, index[j - 1].key, index[j].key);
    }
  }

  lemma SelfNotBefore(a: Bytes, b: Bytes)
    ensures InternalBefore(a, b) || a == b ==> !InternalBefore(b, a)
  {
    InternalIsStrict();
    assert !InternalOrder()(a, a);
    InternalTransitive(a, b, a);
  }

  /** The filter knows every key with the offset of its block. */

  ghost predicate FilterKnows(added: set<(nat, Bytes)>, blocks: seq<DataBlock>, data: seq<KeyValue>, offset: nat) {
    && (forall b, e :: b in blocks && e in b.layout.entries ==> (b.handle.offset, e.key) in added)
    && (forall e :: e in data ==> (offset, e.key) in added)
  }

  // All finished blocks are in the file, if it can be addressed with 32 bits.
  ghost predicate InFile(crc: Checksum, file: Bytes, blocks: seq<DataBlock>) {
    |file| < TWO32 ==> forall b :: b in blocks ==> BlockAt(crc, file, b)
  }

  lemma InFileStays(crc: Checksum, file: Bytes, blocks: seq<DataBlock>, more: Bytes)
    requires InFile(crc, file, blocks)
    ensures InFile(crc, file + more, blocks)
  {
    hide BlockAt;
    forall b | b in blocks && |file + more| < TWO32
      ensures BlockAt(crc, file + more, b)
    {
      BlockStays(crc, file, b, more);
    }
  }

  lemma InFileGrows(crc: Checksum, file: Bytes, blocks: seq<DataBlock>, data: Bytes, l: Layout)
    requires InFile(crc, file, blocks) && (|data| < TWO32 ==> IsBlock(data, l))
    ensures InFile(crc, file + Stored(crc, data), blocks + [DataBlock(Handle(|file|, |data|), l)])
  {
    hide BlockAt, IsBlock;
    InFileStays(crc, file, blocks, Stored(crc, data));
    if |data| < TWO32 {
      BlockAppended(crc, file, data, l);
    }
  }

  /** A finished table */

  // "filter."
  const FILTER_PREFIX: Bytes := [0x66, 0x69, 0x6c, 0x74, 0x65, 0x72, 0x2e]

  datatype FilterAt = FilterAt(handle: Handle, policy: Policy, groups: seq<seq<Bytes>>, added: set<(nat, Bytes)>)

  datatype Table = Table(blocks: seq<DataBlock>, index: DataBlock, meta: DataBlock, filter: Option<FilterAt>)

  ghost predicate IsTable(crc: Checksum, filterName: Bytes, file: Bytes, t: Table) {
    && FOOTER_LENGTH <= |file| < TWO32 && DecodeFooter(file[|file| - FOOTER_LENGTH..]) == Some((t.meta.handle, t.index.handle))
    && HandlesAscend(t.blocks, |file|)
    && (forall b :: b in t.blocks ==> BlockAt(crc, file, b)) && BlockAt(crc, file, t.index) && BlockAt(crc, file, t.meta)
    && Keyed(Concat(t.blocks)) && |t.index.layout.entries| == |t.blocks| && Separated(t.blocks, t.index.layout.entries)
    && t.meta.layout.entries == MetaEntries(t.filter, filterName)
    && (t.filter.Some? ==> FilterInFile(crc, file, t.filter.value, t.blocks))
  }

  ghost predicate FilterInFile(crc: Checksum, file: Bytes, f: FilterAt, blocks: seq<DataBlock>) {
    && StoredAt(crc, file, f.handle, Finished(f.policy, f.groups))
    && Placed(f.added, f.groups, []) && FilterKnows(f.added, blocks, [], 0)
  }

  ghost function MetaEntries(f: Option<FilterAt>, filterName: Bytes): seq<KeyValue> {
    match f case None => [] case Some(at) => [KeyValue(FILTER_PREFIX + filterName, EncodeHandle(at.handle))]
  }

  lemma FilterStays(crc: Checksum, file: Bytes, f: Option<FilterAt>, blocks: seq<DataBlock>, more: Bytes)
    requires f.Some? ==> FilterInFile(crc, file, f.value, blocks)
    ensures f.Some? ==> FilterInFile(crc, file + more, f.value, blocks)
  {
  }

  // Blocks lie one after another before the given end.
  ghost predicate HandlesAscend(blocks: seq<DataBlock>, end: nat) {
    && (forall i, j :: 0 <= i < j < |blocks| ==> blocks[i].handle.offset < blocks[j].handle.offset)
    && (forall b :: b in blocks ==> b.handle.offset < end)
  }

  ghost function EntriesOf(blocks: seq<DataBlock>): (r: seq<seq<KeyValue>>)
    ensures |r| == |blocks| && forall i :: 0 <= i < |r| ==> r[i] == blocks[i].layout.entries
  {
    seq(|blocks|, i requires 0 <= i < |blocks| => blocks[i].layout.entries)
  }

  // One more entry goes to the block being built, or starts one.
  ghost function AddedTo(finished: seq<seq<KeyValue>>, data: seq<KeyValue>, e: KeyValue): seq<seq<KeyValue>> {
    finished + [data + [e]]
  }

  class TableBuilder {
    const crc: Checksum
    const blockSize: nat
    const interval: nat
    const filterName: Bytes
    const filterBlock: FilterBlockBuilder?
    const dataBlock: BlockBuilder
    const indexBlock: BlockBuilder
    var file: Bytes
    var offset: nat
    var lastKey: Bytes
    var numEntries: nat
    var pendingIndexEntry: bool
    var pendingHandle: Handle
    ghost var blocks: seq<DataBlock>
    ghost var entries: seq<KeyValue>

    ghost function Now(): Progress
      reads this, dataBlock, indexBlock
    {
      Progress(blocks, dataBlock.layout.entries, indexBlock.layout.entries, entries,
               if pendingIndexEntry then Some(pendingHandle) else None, lastKey)
    }

    // The entries block by block, the one being built included.
    ghost function Shape(): seq<seq<KeyValue>>
      reads this, dataBlock
    {
      EntriesOf(blocks) + if dataBlock.layout.entries == [] then [] else [dataBlock.layout.entries]
    }

    ghost predicate Valid()
      reads this, dataBlock, indexBlock, filterBlock
    {
      && interval >= 1 && dataBlock != indexBlock && dataBlock.Valid() && indexBlock.Valid()
      && Consistent(Now()) && offset == |file| && numEntries == |entries|
      && InFile(crc, file, blocks) && HandlesAscend(blocks, |file|)
      && (filterBlock != null ==> filterBlock.Valid() && filterBlock.blockOffset == offset
                                  && FilterKnows(filterBlock.added, blocks, dataBlock.layout.entries, offset))
    }

    constructor (crc: Checksum, blockSize: nat, interval: nat, policy: Option<Policy>, filterName: Bytes)
      requires interval >= 1
      ensures Valid() && fresh(dataBlock) && fresh(indexBlock) && entries == [] && file == [] && this.crc == crc
      ensures if policy.None? then filterBlock == null
              else filterBlock != null && fresh(filterBlock) && filterBlock.policy == InternalPolicy(policy.value)
      ensures this.filterName == filterName
    {
      hide BlockBuilder.Valid, FilterBlockBuilder.Valid;
      this.crc, this.blockSize, this.interval, this.filterName := crc, blockSize, interval, filterName;
      var data := new BlockBuilder(interval);
      var index := new BlockBuilder(1);
      dataBlock, indexBlock := data, index;
      if policy.Some? {
        var filter := new FilterBlockBuilder(InternalPolicy(policy.value));
        filter.StartBlock(0);
        filterBlock := filter;
      } else {
        filterBlock := null;
      }
      file, offset, lastKey, numEntries := [], 0, [], 0;
      pendingIndexEntry, pendingHandle := false, Handle(0, 0);
      blocks, entries := [], [];
    }

    // Writes a block and its trailer at the end of the file.
    method WriteRawBlock(contents: Bytes) returns (h: Handle)
      requires offset == |file|
      modifies this`file, this`offset
      ensures h == Handle(|old(file)|, |contents|) && file == old(file) + Stored(crc, contents) && offset == |file|
    {
      h := Handle(offset, |contents|);
      file := file + contents;
      file := file + ([NO_COMPRESSION] + Fixed32(Mask(crc(contents + [NO_COMPRESSION]))));
      StoredParts(old(file), crc, contents);
      offset := offset + |contents| + TRAILER_SIZE;
    }

    method Add(key: Bytes, value: Bytes)
      requires Valid() && |key| >= TAG_SIZE && (entries != [] ==> InternalBefore(lastKey, key))
      modifies this, dataBlock, indexBlock, filterBlock
      ensures Valid() && entries == old(entries) + [KeyValue(key, value)]
      ensures Shape() == AddedTo(old(EntriesOf(blocks)), old(dataBlock.layout.entries), KeyValue(key, value))
      ensures var was, now := old(indexBlock.layout.entries), indexBlock.layout.entries;
        if old(pendingIndexEntry) then
          |now| == |was| + 1 && was <= now && |old(lastKey)| >= TAG_SIZE && IsShortest(old(lastKey), key, now[|was|].key)
        else now == was
      // a data block is written as soon as it would have the block size
      ensures if dataBlock.layout.entries == [] then pendingHandle.size >= blockSize
              else |dataBlock.buffer| + 4 * |dataBlock.restarts| + 4 < blockSize
    {
      hide Consistent, InFile, IsBlock, FilterKnows, InternalBefore, Splits, BlockBuilder.Valid, FilterBlockBuilder.Valid, EncodeHandle;
      ghost var before := Now();
      ghost var separator := EmitPendingIndex(key);
      AddStep(before, separator, KeyValue(key, value));
      AddToFilter(key, value);
      lastKey := key;
      numEntries := numEntries + 1;
      dataBlock.Add(key, value);
      entries := entries + [KeyValue(key, value)];
      assert Consistent(Now());
      assert Valid();
      if dataBlock.CurrentSizeEstimate() >= blockSize {
        Flush();
      }
    }

    // The index entry of the block before the one that key starts.
    method EmitPendingIndex(key: Bytes) returns (ghost separator: Bytes)
      requires Valid() && |key| >= TAG_SIZE && (entries != [] ==> InternalBefore(lastKey, key))
      modifies this`lastKey, this`pendingIndexEntry, indexBlock
      ensures !pendingIndexEntry && indexBlock.Valid()
      ensures old(pendingIndexEntry) ==>
        |separator| >= TAG_SIZE && !InternalBefore(separator, old(lastKey)) && Splits(old(lastKey), separator, key)
        && |old(lastKey)| >= TAG_SIZE && IsShortest(old(lastKey), key, separator)
      ensures indexBlock.layout.entries ==
        if old(pendingIndexEntry) then old(indexBlock.layout.entries) + [KeyValue(separator, EncodeHandle(pendingHandle))]
        else old(indexBlock.layout.entries)
    {
      hide Consistent, InFile, FilterKnows, InternalBefore;
      separator := lastKey;
      if pendingIndexEntry {
        PendingFacts(Now());
        lastKey := InternalShortestSeparator(lastKey, key);
        separator := lastKey;
        indexBlock.Add(lastKey, EncodeHandle(pendingHandle));
        pendingIndexEntry := false;
      }
    }

    method AddToFilter(key: Bytes, ghost value: Bytes)
      requires filterBlock != null ==> filterBlock.Valid() && filterBlock.blockOffset == offset
      requires filterBlock != null ==> FilterKnows(filterBlock.added, blocks, dataBlock.layout.entries, offset)
      modifies filterBlock
      ensures filterBlock != null ==> filterBlock.Valid() && filterBlock.blockOffset == offset
      ensures filterBlock != null ==>
        FilterKnows(filterBlock.added, blocks, dataBlock.layout.entries + [KeyValue(key, value)], offset)
    {
      hide FilterKnows;
      if filterBlock != null {
        FilterKnowsMore(filterBlock.added, blocks, dataBlock.layout.entries, offset, KeyValue(key, value));
        filterBlock.AddKey(key);
      }
    }

    method Flush()
      requires Valid()
      modifies this, dataBlock, filterBlock
      ensures Valid() && entries == old(entries) && dataBlock.layout.entries == []
      ensures Shape() == old(Shape()) && lastKey == old(lastKey)
      ensures indexBlock.layout == old(indexBlock.layout)
      ensures old(dataBlock.layout.entries) != [] ==> pendingHandle.size == old(|dataBlock.buffer| + 4 * |dataBlock.restarts| + 4)
    {
      hide Consistent, InFile, HandlesAscend, FilterKnows, BlockBuilder.Valid, FilterBlockBuilder.Valid;
      dataBlock.EmptyMeaning();
      if dataBlock.Empty() {
        return;
      }
      ghost var before, l, start := Now(), dataBlock.layout, offset;
      WriteDataBlock();
      FlushStep(before, DataBlock(pendingHandle, l));
      pendingIndexEntry := true;
      if filterBlock != null {
        FilterKnowsBlock(filterBlock.added, before.blocks, DataBlock(pendingHandle, l), offset);
        filterBlock.StartBlock(offset);
      }
    }

    method WriteDataBlock()
      requires dataBlock.Valid() && offset == |file| && InFile(crc, file, blocks) && HandlesAscend(blocks, |file|)
      modifies this`file, this`offset, this`pendingHandle, this`blocks, dataBlock
      ensures dataBlock.Valid() && dataBlock.layout.entries == []
      ensures pendingHandle.offset == old(offset) < offset == |file|
      ensures pendingHandle.size == old(|dataBlock.buffer| + 4 * |dataBlock.restarts| + 4)
      ensures blocks == old(blocks) + [DataBlock(pendingHandle, old(dataBlock.layout))]
      ensures InFile(crc, file, blocks) && HandlesAscend(blocks, |file|)
    {
      assert dataBlock.interval >= 1;
      hide InFile, IsBlock, BlockBuilder.Valid;
      ghost var l := dataBlock.layout;
      var raw := dataBlock.Finish();
      InFileGrows(crc, file, blocks, raw, l);
      pendingHandle := WriteRawBlock(raw);
      dataBlock.Reset();
      blocks := blocks + [DataBlock(pendingHandle, l)];
    }

    // The rest of the file: filter, metaindex, index, footer.
    method Finish() returns (ghost t: Table)
      requires Valid()
      modifies this, dataBlock, indexBlock, filterBlock
      ensures |file| < TWO32 ==> IsTable(crc, filterName, file, t)
      ensures Concat(t.blocks) == entries == old(entries)
      ensures EntriesOf(t.blocks) == old(Shape()) && old(indexBlock.layout.entries) <= t.index.layout.entries
      ensures t.filter.Some? <==> filterBlock != null
      ensures t.filter.Some? ==> t.filter.value.policy == filterBlock.policy
      // the last block is indexed under a short key after its last one
      ensures old(entries) != [] ==> LastIndexed(old(lastKey), t.index.layout.entries)
    {
      hide Consistent, InFile, IsBlock, FilterKnows, InternalBefore, Concat, FilterInFile, Placed, Separated, LastIndexed;
      Flush();
      FlushedFacts(Now());
      IndexPending(Now());
      ghost var filter: Option<FilterAt> := None;
      var filterHandle := Handle(0, 0);
      if filterBlock != null {
        ghost var at;
        filterHandle, at := WriteFilter();
        filter := Some(at);
      }
      var metaHandle, meta := WriteMetaIndex(filterHandle, filter);
      var indexHandle, index := WriteIndex(filter, meta);
      ghost var body := file;
      file := file + EncodeFooter(metaHandle, indexHandle);
      t := Table(blocks, index, meta, filter);
      FooterEnds(crc, filterName, body, t);
    }

    method WriteFilter() returns (h: Handle, ghost at: FilterAt)
      requires filterBlock != null && filterBlock.Valid() && offset == |file|
      requires FilterKnows(filterBlock.added, blocks, [], offset) && InFile(crc, file, blocks)
      modifies this`file, this`offset, filterBlock
      ensures offset == |file| >= |old(file)| && InFile(crc, file, blocks)
      ensures at.handle == h && at.policy == filterBlock.policy && FilterInFile(crc, file, at, blocks)
    {
      ghost var before := file;
      FilterKnowsAny(filterBlock.added, blocks, offset);
      hide InFile, FilterKnows, Placed, Finished;
      var contents := filterBlock.Finish();
      h := WriteRawBlock(contents);
      at := FilterAt(h, filterBlock.policy, filterBlock.groups, filterBlock.added);
      InFileStays(crc, before, blocks, Stored(crc, contents));
      StoredAppended(crc, before, contents);
    }

    method WriteMetaIndex(filterHandle: Handle, ghost filter: Option<FilterAt>) returns (h: Handle, ghost meta: DataBlock)
      requires offset == |file| && InFile(crc, file, blocks) && interval >= 1
      requires filter.Some? <==> filterBlock != null
      requires filter.Some? ==> filter.value.handle == filterHandle && FilterInFile(crc, file, filter.value, blocks)
      modifies this`file, this`offset
      ensures offset == |file| >= |old(file)| && InFile(crc, file, blocks + [meta]) && meta.handle == h
      ensures meta.layout.entries == MetaEntries(filter, filterName)
      ensures filter.Some? ==> FilterInFile(crc, file, filter.value, blocks)
    {
      hide InFile, FilterInFile, IsBlock, EncodeHandle;
      var metaIndexBlock := new BlockBuilder(interval);
      if filterBlock != null {
        metaIndexBlock.Add(FILTER_PREFIX + filterName, EncodeHandle(filterHandle));
      }
      ghost var before, l := file, metaIndexBlock.layout;
      var raw := metaIndexBlock.Finish();
      h := WriteRawBlock(raw);
      meta := DataBlock(h, l);
      InFileGrows(crc, before, blocks, raw, l);
      FilterStays(crc, before, filter, blocks, Stored(crc, raw));
    }

    method WriteIndex(ghost filter: Option<FilterAt>, ghost meta: DataBlock) returns (h: Handle, ghost index: DataBlock)
      requires offset == |file| && InFile(crc, file, blocks + [meta]) && indexBlock.Valid() && dataBlock != indexBlock
      requires Consistent(Now()) && dataBlock.layout.entries == []
      requires filter.Some? ==> FilterInFile(crc, file, filter.value, blocks)
      modifies this`file, this`offset, this`lastKey, this`pendingIndexEntry, indexBlock
      ensures offset == |file| >= |old(file)| && InFile(crc, file, blocks + [meta] + [index]) && index.handle == h
      ensures |index.layout.entries| == |blocks| && Separated(blocks, index.layout.entries)
      ensures old(indexBlock.layout.entries) <= index.layout.entries
      ensures filter.Some? ==> FilterInFile(crc, file, filter.value, blocks)
      ensures old(pendingIndexEntry) ==> LastIndexed(old(lastKey), index.layout.entries)
    {
      hide InFile, FilterInFile, IsBlock, Consistent, InternalBefore, Separated, EncodeHandle, IsShortSuccessor;
      NoDataFacts(Now());
      if pendingIndexEntry {
        PendingFacts(Now());
        ghost var before := Now();
        lastKey := InternalShortSuccessor(lastKey);
        LastIndexEntry(before, lastKey);
        indexBlock.Add(lastKey, EncodeHandle(pendingHandle));
        pendingIndexEntry := false;
      }
      ghost var before, l := file, indexBlock.layout;
      var raw := indexBlock.Finish();
      h := WriteRawBlock(raw);
      index := DataBlock(h, l);
      InFileGrows(crc, before, blocks + [meta], raw, l);
      FilterStays(crc, before, filter, blocks, Stored(crc, raw));
    }
  }

  lemma FlushedFacts(p: Progress)
    requires Consistent(p) && p.data == []
    ensures Concat(p.blocks) == p.entries && Keyed(p.entries)
  {
  }

  ghost predicate LastIndexed(lastKey: Bytes, index: seq<KeyValue>) {
    index != [] && |lastKey| >= TAG_SIZE && IsShortSuccessor(lastKey, index[|index| - 1].key)
  }

  lemma IndexPending(p: Progress)
    requires Consistent(p) && p.data == []
    ensures p.entries != [] ==> p.pending.Some?
  {
    if p.blocks == [] {
      assert Concat(p.blocks) == [];
    }
  }

  lemma NoDataFacts(p: Progress)
    requires Consistent(p) && p.data == []
    ensures if p.pending.Some? then |p.index| + 1 == |p.blocks| else |p.index| == |p.blocks| && Separated(p.blocks, p.index)
  {
  }

  lemma FilterKnowsAny(added: set<(nat, Bytes)>, blocks: seq<DataBlock>, offset: nat)
    requires FilterKnows(added, blocks, [], offset)
    ensures FilterKnows(added, blocks, [], 0)
  {
  }

  lemma FooterEnds(crc: Checksum, filterName: Bytes, body: Bytes, t: Table)
    requires InFile(crc, body, t.blocks + [t.meta] + [t.index]) && HandlesAscend(t.blocks, |body|)
    requires Keyed(Concat(t.blocks)) && |t.index.layout.entries| == |t.blocks| && Separated(t.blocks, t.index.layout.entries)
    requires t.meta.layout.entries == MetaEntries(t.filter, filterName)
    requires t.filter.Some? ==> FilterInFile(crc, body, t.filter.value, t.blocks)
    ensures var file := body + EncodeFooter(t.meta.handle, t.index.handle);
      |file| < TWO32 ==> IsTable(crc, filterName, file, t)
  {
    hide BlockAt, FilterInFile, Separated, Keyed, EncodeFooter, DecodeFooter;
    var footer := EncodeFooter(t.meta.handle, t.index.handle);
    var file := body + footer;
    var all := t.blocks + [t.meta] + [t.index];
    InFileStays(crc, body, all, footer);
    FilterStays(crc, body, t.filter, t.blocks, footer);
    if |file| < TWO32 {
      assert t.meta in all && t.index in all && forall b :: b in t.blocks ==> b in all;
      assert file[|file| - FOOTER_LENGTH..] == footer;
      assert BlockAt(crc, file, t.meta) && BlockAt(crc, file, t.index);
      HandleFits(crc, file, t.meta);
      HandleFits(crc, file, t.index);
      FooterRoundTrip(t.meta.handle, t.index.handle);
    }
  }

  lemma HandleFits(crc: Checksum, file: Bytes, b: DataBlock)
    requires BlockAt(crc, file, b) && |file| < TWO32
    ensures Fits(b.handle)
  {
  }

  lemma StoredParts(file: Bytes, crc: Checksum, contents: Bytes)
    ensures file + contents + ([NO_COMPRESSION] + Fixed32(Mask(crc(contents + [NO_COMPRESSION])))) == file + Stored(crc, contents)
  {
  }

  lemma PendingFacts(p: Progress)
    requires Consistent(p) && p.pending.Some?
    ensures p.entries != [] && |p.lastKey| >= TAG_SIZE
  {
  }

  lemma FilterKnowsMore(added: set<(nat, Bytes)>, blocks: seq<DataBlock>, data: seq<KeyValue>, offset: nat, e: KeyValue)
    requires FilterKnows(added, blocks, data, offset)
    ensures FilterKnows(added + {(offset, e.key)}, blocks, data + [e], offset)
  {
  }

  lemma FilterKnowsBlock(added: set<(nat, Bytes)>, blocks: seq<DataBlock>, b: DataBlock, offset: nat)
    requires FilterKnows(added, blocks, b.layout.entries, b.handle.offset)
    ensures FilterKnows(added, blocks + [b], [], offset)
  {
  }
}
