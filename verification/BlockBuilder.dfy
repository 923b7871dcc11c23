/** Building a block. */
module BlockBuilders {
  import opened Keys
  import opened Coding
  import opened BlockFormat

  function EncodeOffsets(restarts: seq<nat>): (r: Bytes)
    ensures |r| == 4 * |restarts|
  {
    if restarts == [] then []
    else EncodeOffsets(restarts[..|restarts| - 1]) + Fixed32(restarts[|restarts| - 1])
  }

  lemma {:induction false} OffsetInPlace(restarts: seq<nat>, r: nat)
    requires r < |restarts|
    ensures EncodeOffsets(restarts)[4 * r..4 * r + 4] == Fixed32(restarts[r])
  {
    var n := |restarts| - 1;
    var head := EncodeOffsets(restarts[..n]);
    if r < n {
      OffsetInPlace(restarts[..n], r);
      assert EncodeOffsets(restarts)[4 * r..4 * r + 4] == head[4 * r..4 * r + 4];
    }
  }

  // Every interval-th entry is a restart point.
  ghost predicate Regular(l: Layout, interval: nat) {
    forall r :: 0 < r < |l.restarts| ==> l.restarts[r] == l.restarts[r - 1] + interval
  }

  method CommonPrefix(a: Bytes, b: Bytes) returns (shared: nat)
    ensures shared <= |a| && shared <= |b| && a[..shared] == b[..shared]
    ensures shared < |a| && shared < |b| ==> a[shared] != b[shared]
  {
    shared := 0;
    while shared < |a| && shared < |b| && a[shared] == b[shared]
      invariant shared <= |a| && shared <= |b| && a[..shared] == b[..shared]
    {
      shared := shared + 1;
    }
  }

  ghost predicate InProgress(interval: nat, buffer: Bytes, restarts: seq<nat>, counter: nat, lastKey: Bytes, l: Layout) {
    && Building(buffer, l) && Regular(l, interval)
    && restarts == RestartOffsets(l)
    && lastKey == LastKey(l.entries)
    && counter == |l.entries| - l.restarts[|l.restarts| - 1] <= interval
  }

  class BlockBuilder {
    const interval: nat
    var buffer: Bytes
    var restarts: seq<nat>
    var counter: nat
    var lastKey: Bytes
    ghost var layout: Layout

    ghost predicate Valid()
      reads this
    {
      interval >= 1 && InProgress(interval, buffer, restarts, counter, lastKey, layout)
    }

    constructor (interval: nat)
      requires interval >= 1
      ensures Valid() && this.interval == interval && layout.entries == []
    {
      this.interval := interval;
      buffer, restarts, counter, lastKey := [], [0], 0, [];
      layout := Layout([], [0], [], [0]);
    }

    method Reset()
      requires interval >= 1
      modifies this
      ensures Valid() && layout.entries == []
    {
      buffer, restarts, counter, lastKey := [], [0], 0, [];
      layout := Layout([], [0], [], [0]);
    }

    predicate Empty()
      reads this
    {
      buffer == []
    }

    lemma EmptyMeaning()
      requires Valid()
      ensures Empty() <==> layout.entries == []
    {
      OffsetsAscend(buffer, layout, 0, |layout.entries|);
    }

    function CurrentSizeEstimate(): nat
      reads this
    {
      |buffer| + 4 * |restarts| + 4
    }

    method Add(key: Bytes, value: Bytes)
      requires Valid()
      modifies this
      ensures Valid() && layout.entries == old(layout.entries) + [KeyValue(key, value)]
      // between restart points all that the key has in common with the last one is left out
      ensures |layout.shared| == |old(layout.shared)| + 1
      ensures var shared, last := layout.shared[|old(layout.shared)|], LastKey(old(layout.entries));
        if old(counter) == interval then shared == 0
        else shared <= |last| && shared <= |key| && last[..shared] == key[..shared]
             && (shared < |last| && shared < |key| ==> last[shared] != key[shared])
      ensures old(Empty()) <==> old(layout.entries) == []
    {
      EmptyMeaning();
      hide InProgress, EncodeEntry;
      InProgressFacts(interval, buffer, restarts, counter, lastKey, layout);
      var shared := 0;
      ghost var restart := counter >= interval;
      if counter < interval {
        shared := CommonPrefix(lastKey, key);
      } else {
        restarts := restarts + [|buffer|];
        counter := 0;
      }
      AddKeepsInProgress(interval, buffer, old(restarts), old(counter), lastKey, layout, KeyValue(key, value), shared);
      AppendEntry(key, value, shared);
      layout := Extended(layout, KeyValue(key, value), shared, |buffer|, restart);
      lastKey := lastKey[..shared] + key[shared..];
      counter := counter + 1;
    }

    // The sizes, the part of the key that is not shared, the value.
    method AppendEntry(key: Bytes, value: Bytes, shared: nat)
      requires shared <= |key|
      modifies this`buffer
      ensures buffer == old(buffer) + EncodeEntry(shared, KeyValue(key, value))
    {
      hide EncodeEntry, Varint;
      EntryIs(shared, KeyValue(key, value));
      buffer := buffer + Varint(shared);
      buffer := buffer + Varint(|key| - shared);
      buffer := buffer + Varint(|value|);
      buffer := buffer + key[shared..];
      buffer := buffer + value;
    }

    // The finished block; the builder has to be reset before it is used again.
    method Finish() returns (data: Bytes)
      requires Valid()
      modifies this
      ensures data == old(buffer) + EncodeOffsets(old(restarts)) + Fixed32(|old(restarts)|)
      ensures layout == old(layout)
      ensures |data| < TWO32 ==> IsBlock(data, layout)
    {
      ghost var before := buffer;
      assert EncodeOffsets(restarts[..0]) == [];
      for i := 0 to |restarts|
        invariant restarts == old(restarts) && layout == old(layout)
        invariant buffer == before + EncodeOffsets(restarts[..i])
      {
        assert restarts[..i + 1][..i] == restarts[..i];
        buffer := buffer + Fixed32(restarts[i]);
      }
      assert restarts[..|restarts|] == restarts;
      buffer := buffer + Fixed32(|restarts|);
      data := buffer;
      if |data| < TWO32 {
        FinishedIsBlock(before, layout);
      }
    }
  }

  function LastKey(es: seq<KeyValue>): Bytes {
    if es == [] then [] else es[|es| - 1].key
  }

  // Entries and restart points so far.
  ghost predicate Building(buffer: Bytes, l: Layout) {
    Holds(buffer, l) && GoodRestarts(l) && Limit(l) == |buffer|
  }

  ghost function RestartOffsets(l: Layout): (r: seq<nat>)
    requires GoodRestarts(l)
    ensures |r| == |l.restarts| && forall i :: 0 <= i < |r| ==> r[i] == RestartOffset(l, i)
  {
    seq(|l.restarts|, i requires 0 <= i < |l.restarts| => RestartOffset(l, i))
  }

  ghost function Extended(l: Layout, e: KeyValue, shared: nat, end: nat, restart: bool): Layout {
    Layout(l.entries + [e], l.offsets + [end], l.shared + [shared], if restart then l.restarts + [|l.entries|] else l.restarts)
  }

  lemma EntryIs(shared: nat, e: KeyValue)
    requires shared <= |e.key|
    ensures EncodeEntry(shared, e) == Varint(shared) + Varint(|e.key| - shared) + Varint(|e.value|) + e.key[shared..] + e.value
  {
  }

  lemma AddKeepsHolds(buffer: Bytes, l: Layout, e: KeyValue, shared: nat, restart: bool)
    requires Holds(buffer, l) && Limit(l) == |buffer|
    requires shared <= |e.key| && shared <= |LastKey(l.entries)| && LastKey(l.entries)[..shared] == e.key[..shared]
    ensures var b := buffer + EncodeEntry(shared, e); Holds(b, Extended(l, e, shared, |b|, restart))
  {
    hide EncodeEntry;
    var b := buffer + EncodeEntry(shared, e);
    var k := Extended(l, e, shared, |b|, restart);
    forall i: nat | i < |k.entries|
      ensures EntryAt(b, k, i)
    {
      if i < |l.entries| {
        assert EntryAt(buffer, l, i);
        OffsetsAscend(buffer, l, i + 1, |l.entries|);
        assert k.entries[i] == l.entries[i] && k.offsets[i + 1] == l.offsets[i + 1] <= |buffer|;
        assert b[l.offsets[i]..l.offsets[i + 1]] == buffer[l.offsets[i]..l.offsets[i + 1]];
        assert i > 0 ==> k.entries[i - 1] == l.entries[i - 1];
      } else {
        assert b[|buffer|..] == EncodeEntry(shared, e);
      }
    }
  }

  lemma AddKeepsRestarts(l: Layout, e: KeyValue, shared: nat, end: nat, restart: bool)
    requires GoodRestarts(l) && (restart ==> shared == 0 && l.entries != []) && (l.entries == [] ==> shared == 0)
    ensures var k := Extended(l, e, shared, end, restart);
      GoodRestarts(k) && RestartOffsets(k) == RestartOffsets(l) + if restart then [Limit(l)] else []
  {
    ExtendsRestarts(l, e, shared, end, restart);
    hide GoodRestarts;
  }

  lemma ExtendsRestarts(l: Layout, e: KeyValue, shared: nat, end: nat, restart: bool)
    requires GoodRestarts(l) && (restart ==> shared == 0 && l.entries != []) && (l.entries == [] ==> shared == 0)
    ensures GoodRestarts(Extended(l, e, shared, end, restart))
    ensures |l.offsets| > 0 && forall r :: 0 <= r < |l.restarts| ==> l.restarts[r] < |l.offsets|
    ensures restart ==> Limit(l) == l.offsets[|l.entries|]
  {
    var k := Extended(l, e, shared, end, restart);
    forall r | 0 <= r < |k.restarts|
      ensures k.restarts[r] < |k.entries| && k.shared[k.restarts[r]] == 0
    {
      if r < |l.restarts| && l.entries != [] {
        assert l.restarts[r] < |l.entries|;
      }
    }
  }

  lemma InProgressFacts(interval: nat, buffer: Bytes, restarts: seq<nat>, counter: nat, lastKey: Bytes, l: Layout)
    requires InProgress(interval, buffer, restarts, counter, lastKey, l)
    ensures counter <= interval && (counter > 0 ==> l.entries != []) && (l.entries == [] ==> lastKey == [])
  {
  }

  lemma AddKeepsInProgress(interval: nat, buffer: Bytes, restarts: seq<nat>, counter: nat, lastKey: Bytes, l: Layout,
                           e: KeyValue, shared: nat)
    requires interval >= 1 && InProgress(interval, buffer, restarts, counter, lastKey, l)
    requires shared <= |e.key| && shared <= |lastKey| && lastKey[..shared] == e.key[..shared]
    requires counter >= interval ==> shared == 0
    ensures var restart, b := counter >= interval, buffer + EncodeEntry(shared, e);
      InProgress(interval, b, if restart then restarts + [|buffer|] else restarts, (if restart then 0 else counter) + 1,
                 lastKey[..shared] + e.key[shared..], Extended(l, e, shared, |b|, restart))
  {
    var restart, b := counter >= interval, buffer + EncodeEntry(shared, e);
    assert l.entries == [] ==> shared == 0;
    assert restart ==> l.entries != [];
    hide EncodeEntry, RestartOffsets, Holds, GoodRestarts, Regular;
    AddKeepsHolds(buffer, l, e, shared, restart);
    AddKeepsRestarts(l, e, shared, |b|, restart);
    AddKeepsRegular(l, e, shared, |b|, restart, interval);
    assert lastKey[..shared] + e.key[shared..] == e.key;
    assert restarts + [] == restarts;
  }

  lemma AddKeepsRegular(l: Layout, e: KeyValue, shared: nat, end: nat, restart: bool, interval: nat)
    requires Regular(l, interval) && l.restarts != []
    requires restart ==> |l.entries| - l.restarts[|l.restarts| - 1] == interval
    ensures Regular(Extended(l, e, shared, end, restart), interval)
  {
  }

  lemma FinishedIsBlock(buffer: Bytes, l: Layout)
    requires Building(buffer, l)
    requires |buffer| + 4 * |l.restarts| + 4 < TWO32
    ensures IsBlock(buffer + EncodeOffsets(RestartOffsets(l)) + Fixed32(|l.restarts|), l)
  {
    var rs := RestartOffsets(l);
    var data := buffer + EncodeOffsets(rs) + Fixed32(|rs|);
    hide EncodeOffsets, Fixed32;
    forall i: nat | i < |l.entries|
      ensures EntryAt(data, l, i)
    {
      assert EntryAt(buffer, l, i);
      assert data[l.offsets[i]..l.offsets[i + 1]] == buffer[l.offsets[i]..l.offsets[i + 1]];
    }
    hide EntryAt;
    forall r | 0 <= r < |l.restarts|
      ensures data[|buffer| + 4 * r..|buffer| + 4 * r + 4] == Fixed32(RestartOffset(l, r))
    {
      OffsetInPlace(rs, r);
      assert data[|buffer| + 4 * r..|buffer| + 4 * r + 4] == EncodeOffsets(rs)[4 * r..4 * r + 4];
    }
  }
}
