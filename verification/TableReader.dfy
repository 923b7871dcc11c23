/** Opening a table and looking keys up in it. */
module TableReaders {
  import opened Keys
  import opened Wrappers
  import opened Coding
  import opened BlockFormat
  import opened BlockIter
  import opened KeyOrder
  import opened TableFormat
  import opened FilterBlock
  import opened TableBuilders

  lemma BlockKeyed(blocks: seq<DataBlock>, i: nat)
    requires Keyed(Concat(blocks)) && i < |blocks|
    ensures Keyed(blocks[i].layout.entries)
  {
  }

  /** Where a lookup has to go */

  lemma FirstFromAt(es: seq<KeyValue>, k: Bytes, p: nat)
    requires Keyed(es) && p <= |es|
    requires p > 0 ==> InternalBefore(es[p - 1].key, k)
    requires p < |es| ==> !InternalBefore(es[p].key, k)
    ensures IsFirstFrom(InternalOrder(), es, k, p)
  {
    hide InternalBefore;
    forall i | 0 <= i < p
      ensures InternalBefore(es[i].key, k)
    {
      assert i < p - 1 ==> InternalOrder()(es[i].key, es[p - 1].key);
      InternalTransitive(es[i].key, es[p - 1].key, k);
    }
    forall i | p <= i < |es|
      ensures !InternalBefore(es[i].key, k)
    {
      assert p < i ==> InternalOrder()(es[p].key, es[i].key);
      InternalTransitive(es[p].key, es[i].key, k);
    }
  }

  // The entry itself is at or after k, and those before it are before k.
  ghost predicate IsFirstEntry(es: seq<KeyValue>, k: Bytes, first: KeyValue) {
    && first in es && !InternalBefore(first.key, k)
    && forall e :: e in es && InternalBefore(e.key, first.key) ==> InternalBefore(e.key, k)
  }

  // The first entry from k on says everything about the entries with k's user key.
  lemma FirstEntryAt(es: seq<KeyValue>, k: Bytes, p: nat)
    requires Keyed(es) && |k| >= TAG_SIZE && IsFirstFrom(InternalOrder(), es, k, p)
    ensures p < |es| ==> IsFirstEntry(es, k, es[p])
    ensures p == |es| || UserKeyOf(es[p].key) != UserKeyOf(k) ==>
      forall e :: e in es && UserKeyOf(e.key) == UserKeyOf(k) ==> InternalBefore(e.key, k)
  {
    hide InternalBefore;
    forall e | e in es && p < |es| && InternalBefore(e.key, es[p].key)
      ensures InternalBefore(e.key, k)
    {
      var j :| 0 <= j < |es| && es[j] == e;
      assert p < j ==> InternalOrder()(es[p].key, es[j].key);
      SelfNotBefore(es[p].key, e.key);
      assert j < p;
      assert InternalOrder()(es[j].key, k);
    }
    forall e | e in es && UserKeyOf(e.key) == UserKeyOf(k) && !InternalBefore(e.key, k)
      ensures p < |es| && UserKeyOf(es[p].key) == UserKeyOf(k)
    {
      var j :| 0 <= j < |es| && es[j] == e;
      assert p < j ==> InternalOrder()(es[p].key, es[j].key);
      BetweenSameUserKey(k, es[p].key, e.key);
    }
  }

  lemma BetweenSameUserKey(a: Bytes, b: Bytes, c: Bytes)
    requires |a| >= TAG_SIZE && |b| >= TAG_SIZE && |c| >= TAG_SIZE && UserPart(a) == UserPart(c)
    requires !InternalBefore(b, a) && (b == c || InternalBefore(b, c))
    ensures UserPart(a) == UserPart(b)
  {
    Total(UserPart(a), UserPart(b));
  }

  lemma FirstFromExists(es: seq<KeyValue>, k: Bytes) returns (p: nat)
    requires Keyed(es)
    ensures IsFirstFrom(InternalOrder(), es, k, p)
  {
    hide InternalBefore;
    p := 0;
    while p < |es| && InternalBefore(es[p].key, k)
      invariant p <= |es| && (p > 0 ==> InternalBefore(es[p - 1].key, k))
    {
      p := p + 1;
    }
    FirstFromAt(es, k, p);
  }

  // The last key of a block is below every key that its separator is below.
  lemma EndOfBlock(blocks: seq<DataBlock>, index: seq<KeyValue>, i: nat, k: Bytes)
    requires Separated(blocks, index) && i < |index| && InternalBefore(index[i].key, k)
    ensures Base(blocks, i + 1) > 0 && Base(blocks, i + 1) <= |Concat(blocks)|
    ensures InternalBefore(Concat(blocks)[Base(blocks, i + 1) - 1].key, k)
  {
    hide InternalBefore, Concat;
    assert IndexEntryOk(blocks, index, i);
    InConcat(blocks, i, |blocks[i].layout.entries| - 1);
    InternalTotal(FinalKey(blocks[i]), index[i].key);
    InternalTransitive(FinalKey(blocks[i]), index[i].key, k);
  }

  lemma PastTheIndex(blocks: seq<DataBlock>, index: seq<KeyValue>, k: Bytes)
    requires Separated(blocks, index) && |index| == |blocks| && Keyed(Concat(blocks))
    requires IsFirstFrom(InternalOrder(), index, k, |index|)
    ensures IsFirstFrom(InternalOrder(), Concat(blocks), k, |Concat(blocks)|)
  {
    var n := |blocks|;
    assert n == 0 ==> Concat(blocks) == [];
    hide InternalBefore, Concat;
    if n > 0 {
      EndOfBlock(blocks, index, n - 1, k);
      assert blocks[..n] == blocks;
    }
    FirstFromAt(Concat(blocks), k, |Concat(blocks)|);
  }

  lemma InTheBlock(blocks: seq<DataBlock>, index: seq<KeyValue>, k: Bytes, i: nat, j: nat)
    requires Separated(blocks, index) && |index| == |blocks| && Keyed(Concat(blocks)) && i < |blocks|
    requires IsFirstFrom(InternalOrder(), index, k, i) && IsFirstFrom(InternalOrder(), blocks[i].layout.entries, k, j)
    requires j < |blocks[i].layout.entries|
    ensures Base(blocks, i) + j < |Concat(blocks)| && Concat(blocks)[Base(blocks, i) + j] == blocks[i].layout.entries[j]
    ensures IsFirstFrom(InternalOrder(), Concat(blocks), k, Base(blocks, i) + j)
  {
    assert i == 0 ==> Concat(blocks[..i]) == [];
    hide InternalBefore, Concat;
    InConcat(blocks, i, j);
    if j > 0 {
      InConcat(blocks, i, j - 1);
      assert InternalOrder()(blocks[i].layout.entries[j - 1].key, k);
    } else if i > 0 {
      assert InternalOrder()(index[i - 1].key, k);
      EndOfBlock(blocks, index, i - 1, k);
    }
    assert !InternalOrder()(blocks[i].layout.entries[j].key, k);
    FirstFromAt(Concat(blocks), k, Base(blocks, i) + j);
  }

  // A key between the last key of a block and its separator: what follows has another user key.
  lemma BetweenBlocks(blocks: seq<DataBlock>, index: seq<KeyValue>, k: Bytes, i: nat)
    requires Separated(blocks, index) && |index| == |blocks| && Keyed(Concat(blocks)) && i < |blocks| && |k| >= TAG_SIZE
    requires IsFirstFrom(InternalOrder(), index, k, i)
    requires IsFirstFrom(InternalOrder(), blocks[i].layout.entries, k, |blocks[i].layout.entries|)
    ensures IsFirstFrom(InternalOrder(), Concat(blocks), k, Base(blocks, i + 1))
    ensures var es, p := Concat(blocks), Base(blocks, i + 1);
      p < |es| ==> |es[p].key| >= TAG_SIZE && UserPart(es[p].key) != UserPart(k)
  {
    hide Concat, InternalBefore, Splits, EncodeHandle, Keyed;
    var n := |blocks[i].layout.entries|;
    var p := Base(blocks, i + 1);
    assert IndexEntryOk(blocks, index, i);
    InConcat(blocks, i, n - 1);
    assert InternalOrder()(blocks[i].layout.entries[n - 1].key, k);
    assert !InternalOrder()(index[i].key, k);
    if i + 1 < |blocks| {
      var first := FirstKey(blocks[i + 1]);
      InConcat(blocks, i + 1, 0);
      AfterSeparator(FinalKey(blocks[i]), index[i].key, first, k);
    } else {
      assert blocks[..i + 1] == blocks;
    }
    FirstFromAt(Concat(blocks), k, p);
  }

  // Position p is the start of a block after the first, and k is at or before the separator in front of it.
  ghost predicate Gap(blocks: seq<DataBlock>, index: seq<KeyValue>, k: Bytes, p: nat) {
    exists i: nat :: 0 < i < |blocks| && i <= |index| && p == Base(blocks, i) && !InternalBefore(index[i - 1].key, k)
  }

  lemma FirstFromIsUnique(es: seq<KeyValue>, k: Bytes, p: nat)
    requires IsFirstFrom(InternalOrder(), es, k, p)
    ensures forall q: nat :: IsFirstFrom(InternalOrder(), es, k, q) ==> q == p
  {
    forall q: nat | IsFirstFrom(InternalOrder(), es, k, q)
      ensures q == p
    {
      assert q < |es| ==> !InternalOrder()(es[q].key, k);
      assert p < |es| ==> !InternalOrder()(es[p].key, k);
    }
  }

  // Blocks with entries start at different positions.
  lemma {:induction false} BasesAscend(blocks: seq<DataBlock>, i: nat, j: nat)
    requires i < j <= |blocks| && forall b :: b in blocks ==> b.layout.entries != []
    ensures Base(blocks, i) + |blocks[i].layout.entries| <= Base(blocks, j)
  {
    hide Concat;
    InConcat(blocks, j - 1, 0);
    if i < j - 1 {
      BasesAscend(blocks, i, j - 1);
    }
  }

  lemma NoGapInBlock(blocks: seq<DataBlock>, index: seq<KeyValue>, k: Bytes, i: nat, j: nat)
    requires Separated(blocks, index) && i < |blocks| && j < |blocks[i].layout.entries|
    requires IsFirstFrom(InternalOrder(), index, k, i)
    ensures !Gap(blocks, index, k, Base(blocks, i) + j)
  {
    hide InternalBefore, Concat;
    assert 0 < i <= |index| ==> InternalOrder()(index[i - 1].key, k);
    if Gap(blocks, index, k, Base(blocks, i) + j) {
      var g: nat :| 0 < g < |blocks| && g <= |index| && Base(blocks, i) + j == Base(blocks, g) && !InternalBefore(index[g - 1].key, k);
      if g < i {
        BasesAscend(blocks, g, i);
      } else if i < g {
        BasesAscend(blocks, i, g);
      }
    }
  }

  lemma GapAfterBlock(blocks: seq<DataBlock>, index: seq<KeyValue>, k: Bytes, i: nat)
    requires i < |blocks| == |index| && IsFirstFrom(InternalOrder(), index, k, i)
    ensures Base(blocks, i + 1) == |Concat(blocks)| || Gap(blocks, index, k, Base(blocks, i + 1))
  {
    assert !InternalOrder()(index[i].key, k);
    assert i + 1 == |blocks| ==> blocks[..i + 1] == blocks;
  }

  lemma AfterSeparator(final: Bytes, separator: Bytes, first: Bytes, k: Bytes)
    requires Splits(final, separator, first) && InternalBefore(final, k) && !InternalBefore(separator, k) && |k| >= TAG_SIZE
    ensures |first| >= TAG_SIZE && !InternalBefore(first, k) && UserPart(first) != UserPart(k)
  {
    hide Before, DecodeFixed;
    InternalTransitive(separator, first, k);
    Total(UserPart(separator), UserPart(k));
    Transitive(UserPart(k), UserPart(separator), UserPart(first));
    Irreflexive(UserPart(first));
  }

  class TableReader {
    const crc: Checksum
    const verify: bool
    const file: Bytes
    const indexData: Bytes
    const policy: Option<Policy>
    const filter: Option<Bytes>
    ghost const table: Table
    ghost const filterName: Bytes
    // the policy for user keys that the filter policy wraps
    ghost const userPolicy: Policy

    ghost predicate Valid()
    {
      && (policy.Some? ==> policy.value == InternalPolicy(userPolicy) && NoFalseNegatives(userPolicy, _ => true))
      && IsTable(crc, filterName, file, table) && IsBlock(indexData, table.index.layout)
      && (filter.Some? ==> policy.Some? && table.filter.Some? && policy.value == table.filter.value.policy
                           && filter.value == Finished(table.filter.value.policy, table.filter.value.groups)
                           && |filter.value| < TWO32)
    }

    ghost function Entries(): seq<KeyValue> {
      Concat(table.blocks)
    }

    constructor (crc: Checksum, verify: bool, file: Bytes, indexData: Bytes, policy: Option<Policy>, filter: Option<Bytes>,
                 ghost table: Table, ghost filterName: Bytes, ghost userPolicy: Policy)
      ensures this.crc == crc && this.verify == verify && this.file == file && this.indexData == indexData
      ensures this.policy == policy && this.filter == filter && this.table == table && this.filterName == filterName
      ensures this.userPolicy == userPolicy
    {
      this.crc, this.verify, this.file, this.indexData, this.policy, this.filter := crc, verify, file, indexData, policy, filter;
      this.table, this.filterName, this.userPolicy := table, filterName, userPolicy;
    }

    method IndexIterator() returns (it: Iter)
      requires Valid()
      ensures fresh(it) && it.layout == table.index.layout && it.At(it.pos) && it.less == InternalOrder()
      ensures it.pos == |it.layout.entries|
    {
      hide IsBlock, Separated, BlockAt, InternalBefore;
      IndexAscends(table.blocks, table.index.layout.entries);
      InternalIsStrict();
      it := new Iter(InternalOrder(), indexData, table.index.layout);
    }

    // The iterator over the block that an index value names.
    method BlockReader(value: Bytes, ghost i: nat) returns (it: Iter)
      requires Valid() && i < |table.blocks| && value == EncodeHandle(table.blocks[i].handle)
      ensures fresh(it) && it.layout == table.blocks[i].layout && it.At(it.pos) && it.less == InternalOrder()
    {
      hide IsBlock, InternalBefore, Concat, EncodeHandle, DecodeHandle, ReadBlock, Keyed;
      TableFacts(crc, filterName, file, table, i);
      hide IsTable;
      ReadsDataBlock(crc, verify, file, table.blocks[i]);
      BlockKeyed(table.blocks, i);
      KeyedAscends(table.blocks[i].layout.entries);
      InternalIsStrict();
      var h := DecodeHandle(value).value.0;
      var data := ReadBlock(crc, verify, file, h).data;
      it := new Iter(InternalOrder(), data, table.blocks[i].layout);
    }

    // Whether the filter rules out the block; then no entry of it has the user key.
    method FilterExcludes(value: Bytes, k: Bytes, ghost i: nat) returns (skip: bool)
      requires Valid() && i < |table.blocks| && value == EncodeHandle(table.blocks[i].handle)
      ensures skip ==> forall e :: e in table.blocks[i].layout.entries ==> UserKeyOf(e.key) != UserKeyOf(k)
      ensures skip <==> filter.Some? && !KeyMayMatch(policy.value, filter.value, table.blocks[i].handle.offset, k)
    {
      hide IsBlock, InternalBefore, Concat, EncodeHandle, DecodeHandle, ReadBlock, KeyMayMatch, NoFalseNegatives, Finished, Placed;
      TableFacts(crc, filterName, file, table, i);
      ReadsDataBlock(crc, verify, file, table.blocks[i]);
      skip := false;
      if filter.Some? {
        var h := DecodeHandle(value).value.0;
        skip := !KeyMayMatch(policy.value, filter.value, h.offset, k);
        ghost var f := table.filter.value;
        forall e | e in table.blocks[i].layout.entries && UserKeyOf(e.key) == UserKeyOf(k)
          ensures !skip
        {
          FilterMatches(f, table.blocks, i, e);
          AddedKeysMatch(userPolicy, f.groups, f.added, h.offset, e.key, k);
        }
      }
    }

    // The filter rules out the block to which the index sends k.
    ghost predicate Excluded(k: Bytes)
      requires Valid()
    {
      && filter.Some?
      && exists i: nat :: i < |table.blocks| && IsFirstFrom(InternalOrder(), table.index.layout.entries, k, i)
                          && !KeyMayMatch(policy.value, filter.value, table.blocks[i].handle.offset, k)
    }

    // Position p starts a block, and k is not past the separator in front of it.
    ghost predicate InGap(k: Bytes, p: nat)
      requires Valid()
    {
      Gap(table.blocks, table.index.layout.entries, k, p)
    }

    // The first entry at or after k, which stands at position p, is reported; it is missed exactly if
    // there is none, the filter excludes it, or k falls into the gap before a block, and then
    // no entry at or after k has k's user key.
    method InternalGet(k: Bytes) returns (r: Option<KeyValue>, ghost p: nat)
      requires Valid() && |k| >= TAG_SIZE
      ensures r.None? <==> p == |Entries()| || InGap(k, p) || Excluded(k)
      ensures r.Some? ==> IsFirstEntry(Entries(), k, r.value)
      ensures r.None? ==> forall e :: e in Entries() && UserKeyOf(e.key) == UserKeyOf(k) ==> InternalBefore(e.key, k)
      ensures p <= |Entries()| && IsFirstFrom(InternalOrder(), Entries(), k, p)
      ensures r.Some? ==> p < |Entries()| && r.value == Entries()[p]
      ensures r.None? ==> p == |Entries()| || UserKeyOf(Entries()[p].key) != UserKeyOf(k)
      // spelled out: nothing that a reader of the user key could see is missed
      ensures r.None? ==> forall e :: e in Entries() && |e.key| >= 8 && e.key[..|e.key| - 8] == k[..|k| - 8] ==> InternalBefore(e.key, k)
    {
      hide IsBlock, InternalBefore, Concat, EncodeHandle, Separated, Keyed, Iter.At, IsTable, Gap, KeyMayMatch;
      r := None;
      ghost var index := table.index.layout.entries;
      WholeTable(crc, filterName, file, table);
      var iiter := IndexIterator();
      iiter.Seek(k);
      ghost var i := iiter.pos;
      if !iiter.Valid() {
        p := |Entries()|;
        AtEnd(iiter);
        PastTheIndex(table.blocks, index, k);
      } else {
        AtEnd(iiter);
        TableFacts(crc, filterName, file, table, i);
        BlockKeyed(table.blocks, i);
        var _, handleValue := iiter.Entry();
        var skip := FilterExcludes(handleValue, k, i);
        FirstFromIsUnique(index, k, i);
        if skip {
          p := SkippedBlock(table.blocks, index, k, i);
        } else {
          r, p := SearchBlock(handleValue, k, i);
        }
      }
      FirstEntryAt(Entries(), k, p);
    }

    method SearchBlock(value: Bytes, k: Bytes, ghost i: nat) returns (r: Option<KeyValue>, ghost p: nat)
      requires Valid() && |k| >= TAG_SIZE && i < |table.blocks| && value == EncodeHandle(table.blocks[i].handle)
      requires IsFirstFrom(InternalOrder(), table.index.layout.entries, k, i)
      ensures p <= |Entries()| && IsFirstFrom(InternalOrder(), Entries(), k, p)
      ensures r.Some? ==> p < |Entries()| && r.value == Entries()[p]
      ensures r.None? ==> p == |Entries()| || UserKeyOf(Entries()[p].key) != UserKeyOf(k)
      ensures r.None? <==> p == |Entries()| || InGap(k, p)
    {
      hide IsBlock, InternalBefore, Concat, EncodeHandle, Separated, Keyed, Iter.At, IsTable, Gap;
      r := None;
      ghost var index := table.index.layout.entries;
      WholeTable(crc, filterName, file, table);
      var blockIter := BlockReader(value, i);
      blockIter.Seek(k);
      AtEnd(blockIter);
      if blockIter.Valid() {
        InTheBlock(table.blocks, index, k, i, blockIter.pos);
        NoGapInBlock(table.blocks, index, k, i, blockIter.pos);
        p := Base(table.blocks, i) + blockIter.pos;
        var key, v := blockIter.Entry();
        r := Some(KeyValue(key, v));
      } else {
        BetweenBlocks(table.blocks, index, k, i);
        GapAfterBlock(table.blocks, index, k, i);
        p := Base(table.blocks, i + 1);
      }
    }
  }

  lemma FooterFacts(crc: Checksum, filterName: Bytes, file: Bytes, t: Table)
    requires IsTable(crc, filterName, file, t)
    ensures FOOTER_LENGTH <= |file| < TWO32 && DecodeFooter(file[|file| - FOOTER_LENGTH..]) == Some((t.meta.handle, t.index.handle))
    ensures BlockAt(crc, file, t.index) && BlockAt(crc, file, t.meta)
    ensures t.meta.layout.entries == MetaEntries(t.filter, filterName)
    ensures t.filter.Some? ==> StoredAt(crc, file, t.filter.value.handle, Finished(t.filter.value.policy, t.filter.value.groups))
    ensures t.filter.Some? ==> Fits(t.filter.value.handle) && |Finished(t.filter.value.policy, t.filter.value.groups)| < TWO32
  {
    hide BlockAt, Separated, Keyed, DecodeFooter, Finished;
  }

  // Opens a finished table; a file that is not one is not part of this model.
  method Open(crc: Checksum, verify: bool, file: Bytes, userPolicy: Option<Policy>, filterName: Bytes, ghost t: Table)
    returns (r: TableReader)
    requires IsTable(crc, filterName, file, t)
    requires userPolicy.Some? ==> NoFalseNegatives(userPolicy.value, _ => true)
    requires userPolicy.Some? && t.filter.Some? ==> t.filter.value.policy == InternalPolicy(userPolicy.value)
    ensures r.Valid() && r.table == t && r.Entries() == Concat(t.blocks) && (r.filter.Some? <==> userPolicy.Some? && t.filter.Some?)
  {
    hide IsBlock, BlockAt, StoredAt, EncodeHandle, DecodeFooter, ReadBlock, Finished, IsTable, NoFalseNegatives;
    FooterFacts(crc, filterName, file, t);
    var handles := DecodeFooter(file[|file| - FOOTER_LENGTH..]).value;
    ReadsDataBlock(crc, verify, file, t.index);
    var indexData := ReadBlock(crc, verify, file, handles.1).data;
    var filter: Option<Bytes> := None;
    var policy: Option<Policy> := None;
    ghost var user: Policy := Policy(_ => [], (_, _) => true);
    if userPolicy.Some? {
      policy := Some(InternalPolicy(userPolicy.value));
      user := userPolicy.value;
      filter := ReadMeta(crc, verify, file, handles.0, filterName, t);
    }
    r := new TableReader(crc, verify, file, indexData, policy, filter, t, filterName, user);
  }

  // Finds the filter by its policy's name.
  method ReadMeta(crc: Checksum, verify: bool, file: Bytes, meta: Handle, filterName: Bytes, ghost t: Table)
    returns (filter: Option<Bytes>)
    requires IsTable(crc, filterName, file, t) && meta == t.meta.handle
    ensures filter == if t.filter.None? then None else Some(Finished(t.filter.value.policy, t.filter.value.groups))
  {
    hide IsBlock, BlockAt, StoredAt, EncodeHandle, DecodeHandle, DecodeFooter, ReadBlock, Finished, Iter.At, IsTable;
    FooterFacts(crc, filterName, file, t);
    ReadsDataBlock(crc, verify, file, t.meta);
    var data := ReadBlock(crc, verify, file, meta).data;
    BytewiseIsStrict();
    var iter := new Iter(BytewiseOrder(), data, t.meta.layout);
    var key := FILTER_PREFIX + filterName;
    Irreflexive(key);
    iter.Seek(key);
    AtEnd(iter);
    assert t.filter.Some? ==> !BytewiseOrder()(t.meta.layout.entries[0].key, key);
    filter := None;
    if iter.Valid() {
      var k, v := iter.Entry();
      if k == key {
        ghost var h := t.filter.value.handle;
        HandleRoundTrip(h, []);
        assert v + [] == v;
        var handle := DecodeHandle(v).value.0;
        ReadsStored(crc, verify, file, h, Finished(t.filter.value.policy, t.filter.value.groups));
        filter := Some(ReadBlock(crc, verify, file, handle).data);
      }
    }
  }

  lemma FilterMatches(f: FilterAt, blocks: seq<DataBlock>, i: nat, e: KeyValue)
    requires FilterKnows(f.added, blocks, [], 0) && i < |blocks| && e in blocks[i].layout.entries
    ensures (blocks[i].handle.offset, e.key) in f.added
  {
  }

  lemma WholeTable(crc: Checksum, filterName: Bytes, file: Bytes, t: Table)
    requires IsTable(crc, filterName, file, t)
    ensures |t.index.layout.entries| == |t.blocks| && Separated(t.blocks, t.index.layout.entries) && Keyed(Concat(t.blocks))
  {
  }

  // A block none of whose entries has k's user key.
  lemma SkippedBlock(blocks: seq<DataBlock>, index: seq<KeyValue>, k: Bytes, i: nat) returns (p: nat)
    requires Separated(blocks, index) && |index| == |blocks| && Keyed(Concat(blocks)) && i < |blocks| && |k| >= TAG_SIZE
    requires IsFirstFrom(InternalOrder(), index, k, i)
    requires forall e :: e in blocks[i].layout.entries ==> UserKeyOf(e.key) != UserKeyOf(k)
    ensures p <= |Concat(blocks)| && IsFirstFrom(InternalOrder(), Concat(blocks), k, p)
    ensures p == |Concat(blocks)| || UserKeyOf(Concat(blocks)[p].key) != UserKeyOf(k)
  {
    hide InternalBefore, Concat, Separated, Keyed;
    BlockKeyed(blocks, i);
    var j := FirstFromExists(blocks[i].layout.entries, k);
    if j < |blocks[i].layout.entries| {
      InTheBlock(blocks, index, k, i, j);
      p := Base(blocks, i) + j;
    } else {
      BetweenBlocks(blocks, index, k, i);
      p := Base(blocks, i + 1);
    }
  }

  lemma TableFacts(crc: Checksum, filterName: Bytes, file: Bytes, t: Table, i: nat)
    requires IsTable(crc, filterName, file, t) && i < |t.blocks|
    ensures |file| < TWO32 && BlockAt(crc, file, t.blocks[i]) && Keyed(Concat(t.blocks))
    ensures |t.index.layout.entries| == |t.blocks| && Separated(t.blocks, t.index.layout.entries)
    ensures t.blocks[i].layout.entries != [] && t.index.layout.entries[i].value == EncodeHandle(t.blocks[i].handle)
  {
    hide BlockAt, Keyed, DecodeFooter, EncodeHandle;
    assert IndexEntryOk(t.blocks, t.index.layout.entries, i);
  }

  lemma KeyedAscends(es: seq<KeyValue>)
    requires Keyed(es)
    ensures Ascending(InternalOrder(), es)
  {
  }

  // The bytes that the handle of a block leads to.
  lemma ReadsDataBlock(crc: Checksum, verify: bool, file: Bytes, b: DataBlock)
    requires BlockAt(crc, file, b) && |file| < TWO64
    ensures DecodeHandle(EncodeHandle(b.handle)).Some? && DecodeHandle(EncodeHandle(b.handle)).value.0 == b.handle
    ensures ReadBlock(crc, verify, file, b.handle).Contents? && IsBlock(ReadBlock(crc, verify, file, b.handle).data, b.layout)
  {
    hide IsBlock, StoredAt, EncodeHandle, DecodeHandle;
    HandleRoundTrip(b.handle, []);
    assert EncodeHandle(b.handle) + [] == EncodeHandle(b.handle);
    ReadsStored(crc, verify, file, b.handle, file[b.handle.offset..b.handle.offset + b.handle.size]);
  }

  /** A table with such a gap: two blocks with one entry each, for "aa" and for "d" */

  const EARLY: Bytes := [0x61, 0x61]
  const SOUGHT: Bytes := [0x61, 0x62]
  const SEPARATOR: Bytes := [0x62]
  const LATE: Bytes := [0x64]

  ghost predicate HasGap(blocks: seq<DataBlock>, index: seq<KeyValue>, early: nat, late: nat) {
    && |blocks| == |index| == 2 && early < TWO64 && late < TWO64
    && blocks[0].layout.entries == [KeyValue(EncodeInternal(EARLY, early), [])]
    && blocks[1].layout.entries == [KeyValue(EncodeInternal(LATE, late), [])]
    && index[0].key == EncodeInternal(SEPARATOR, FIRST_TAG)
  }

  // The separator that a builder puts between the two.
  lemma GapSeparator(early: nat, late: nat, separator: Bytes)
    requires early < TWO64 && late < TWO64
    requires IsShortest(EncodeInternal(EARLY, early), EncodeInternal(LATE, late), separator)
    ensures separator == EncodeInternal(SEPARATOR, FIRST_TAG)
  {
    hide EncodeInternal, UserPart, DecodeFixed;
    EncodedParts(EARLY, early);
    EncodedParts(LATE, late);
    assert Parts(EARLY, LATE, 0) && Bumped(EARLY, 0) == SEPARATOR;
  }

  lemma GapKeysInOrder(early: nat, late: nat, sought: nat)
    requires early < TWO64 && late < TWO64 && sought < TWO64
    ensures InternalBefore(EncodeInternal(EARLY, early), EncodeInternal(SOUGHT, sought))
    ensures InternalBefore(EncodeInternal(SOUGHT, sought), EncodeInternal(SEPARATOR, FIRST_TAG))
    ensures InternalBefore(EncodeInternal(SEPARATOR, FIRST_TAG), EncodeInternal(LATE, late))
    ensures Before(SEPARATOR, LATE)
  {
    hide EncodeInternal, UserPart, TagPart, DecodeFixed;
    EncodedParts(EARLY, early);
    EncodedParts(SOUGHT, sought);
    EncodedParts(SEPARATOR, FIRST_TAG);
    EncodedParts(LATE, late);
    DecidedAt(EARLY, SOUGHT, 1);
    DecidedAt(SOUGHT, SEPARATOR, 0);
    DecidedAt(SEPARATOR, LATE, 0);
  }

  // The key for "ab" falls into its gap.
  lemma GapTable(blocks: seq<DataBlock>, index: seq<KeyValue>, early: nat, late: nat, sought: nat)
    requires HasGap(blocks, index, early, late) && sought < TWO64
    ensures |Concat(blocks)| == 2 && IsFirstFrom(InternalOrder(), Concat(blocks), EncodeInternal(SOUGHT, sought), 1)
    ensures Gap(blocks, index, EncodeInternal(SOUGHT, sought), 1)
    ensures InternalBefore(EncodeInternal(SOUGHT, sought), Concat(blocks)[1].key)
  {
    hide EncodeInternal, InternalBefore;
    GapKeysInOrder(early, late, sought);
    var a, k, b, d := EncodeInternal(EARLY, early), EncodeInternal(SOUGHT, sought), EncodeInternal(SEPARATOR, FIRST_TAG), EncodeInternal(LATE, late);
    InternalTransitive(k, b, d);
    SelfNotBefore(k, d);
    SelfNotBefore(k, b);
    assert blocks[..1][..0] == [] && blocks[..1][0] == blocks[0];
    assert Concat(blocks[..1]) == [KeyValue(a, [])];
    assert Concat(blocks) == [KeyValue(a, []), KeyValue(d, [])];
    assert Base(blocks, 1) == 1;
  }

  // So InternalGet reports nothing for it, although the entry for "d" follows and no filter is there.
  method MissesLaterEntry(r: TableReader, early: nat, late: nat, sought: nat) returns (found: Option<KeyValue>)
    requires r.Valid() && r.filter.None? && HasGap(r.table.blocks, r.table.index.layout.entries, early, late) && sought < TWO64
    ensures found.None? && |r.Entries()| == 2 && InternalBefore(EncodeInternal(SOUGHT, sought), r.Entries()[1].key)
  {
    hide EncodeInternal, InternalBefore, EncodeHandle, Concat, TableReader.Valid, Gap;
    GapTable(r.table.blocks, r.table.index.layout.entries, early, late, sought);
    ghost var p;
    found, p := r.InternalGet(EncodeInternal(SOUGHT, sought));
    FirstFromIsUnique(r.Entries(), EncodeInternal(SOUGHT, sought), p);
  }

  // A builder makes such a table of two entries when its block is flushed in between.
  method BuildsGap(crc: Checksum, blockSize: nat, interval: nat, early: nat, late: nat) returns (file: Bytes, ghost t: Table)
    requires interval >= 1 && early < TWO64 && late < TWO64
    ensures |file| < TWO32 ==> IsTable(crc, [], file, t) && t.filter.None? && HasGap(t.blocks, t.index.layout.entries, early, late)
  {
    hide EncodeInternal, InternalBefore, IsTable, Concat, TableBuilder.Valid, EntriesOf, IsShortest;
    var a, d := EncodeInternal(EARLY, early), EncodeInternal(LATE, late);
    GapKeysInOrder(early, late, 0);
    InternalTransitive(a, EncodeInternal(SOUGHT, 0), EncodeInternal(SEPARATOR, FIRST_TAG));
    InternalTransitive(a, EncodeInternal(SEPARATOR, FIRST_TAG), d);
    var builder := new TableBuilder(crc, blockSize, interval, None, []);
    NothingBuilt(builder);
    builder.Add(a, []);
    builder.Flush();
    OneBlockBuilt(builder, KeyValue(a, []));
    builder.Add(d, []);
    assert [] + [KeyValue(d, [])] == [KeyValue(d, [])];
    GapSeparator(early, late, builder.indexBlock.layout.entries[0].key);
    t := builder.Finish();
    file := builder.file;
    TwoBlocksBuilt(t, KeyValue(a, []), KeyValue(d, []));
    if |file| < TWO32 {
      WholeTable(crc, [], file, t);
    }
  }

  lemma NothingBuilt(b: TableBuilder)
    requires b.Valid() && b.entries == []
    ensures EntriesOf(b.blocks) == [] && b.dataBlock.layout.entries == [] && b.indexBlock.layout.entries == [] && !b.pendingIndexEntry
  {
  }

  lemma OneBlockBuilt(b: TableBuilder, e: KeyValue)
    requires b.Valid() && b.entries == [e] && b.dataBlock.layout.entries == [] && b.Shape() == [[e]] && b.indexBlock.layout.entries == []
    ensures EntriesOf(b.blocks) == [[e]] && b.pendingIndexEntry && b.lastKey == e.key
  {
  }

  lemma TwoBlocksBuilt(t: Table, e: KeyValue, f: KeyValue)
    requires EntriesOf(t.blocks) == [[e], [f]]
    ensures |t.blocks| == 2 && t.blocks[0].layout.entries == [e] && t.blocks[1].layout.entries == [f]
  {
    assert EntriesOf(t.blocks)[0] == [e] && EntriesOf(t.blocks)[1] == [f];
  }

  // Building that table, opening it and looking the key up.
  method BuildsAndMisses(crc: Checksum, blockSize: nat, interval: nat, early: nat, late: nat, sought: nat)
    returns (file: Bytes, found: Option<KeyValue>, ghost t: Table)
    requires interval >= 1 && early < TWO64 && late < TWO64 && sought < TWO64
    ensures |file| < TWO32 ==> found.None?
    ensures |file| < TWO32 ==>
      && IsTable(crc, [], file, t) && t.filter.None?
      && |Concat(t.blocks)| == 2 && InternalBefore(EncodeInternal(SOUGHT, sought), Concat(t.blocks)[1].key)
  {
    hide EncodeInternal, InternalBefore, IsTable, Concat, HasGap, TableReader.Valid;
    file, t := BuildsGap(crc, blockSize, interval, early, late);
    found := None;
    if |file| < TWO32 {
      var r := Open(crc, true, file, None, [], t);
      found := MissesLaterEntry(r, early, late, sought);
    }
  }
}
