/** The iterator over a finished block. The blocks are those the builder finishes; what the
    source does with a malformed block is not part of this model. */
module BlockIter {
  import opened Keys
  import opened Wrappers
  import opened Coding
  import opened BlockFormat

  // The restart point an iterator at entry p works from: at or before p, with no later restart
  // point strictly before p. It lags by one when p itself was reached by moving forward.
  ghost predicate Covers(l: Layout, r: nat, p: nat) {
    && r < |l.restarts| && l.restarts[r] <= p
    && (r + 1 < |l.restarts| ==> p <= l.restarts[r + 1])
  }

  class Iter {
    const less: Order
    const data: Bytes
    const restarts: nat
    const numRestarts: nat
    var current: nat
    var restartIndex: nat
    var key: Bytes
    var valueStart: nat
    var valueLength: nat
    ghost const layout: Layout
    ghost var pos: nat

    ghost predicate Good()
    {
      && IsBlock(data, layout) && StrictOrder(less) && Ascending(less, layout.entries)
      && restarts == Limit(layout) && numRestarts == |layout.restarts|
    }

    // The iterator stands on entry pos, or is not valid when pos is the number of entries.
    ghost predicate At(p: nat)
      reads this
    {
      && Good() && pos == p <= |layout.entries|
      && (if p == |layout.entries| then current == restarts
          else
            && current == layout.offsets[p]
            && key == layout.entries[p].key
            && valueStart + valueLength == layout.offsets[p + 1] && valueLength == |layout.entries[p].value|
            && Covers(layout, restartIndex, p))
    }

    // On the way to entry p: everything before it has been read, starting from a restart point.
    ghost predicate Before(p: nat)
      reads this
    {
      && Good() && p <= |layout.entries|
      && valueStart + valueLength == layout.offsets[p]
      && (p < |layout.entries| ==>
            && restartIndex < numRestarts && layout.restarts[restartIndex] <= p
            && (if layout.shared[p] == 0 then true else p > 0 && key == layout.entries[p - 1].key))
    }

    predicate Valid()
      reads this
    {
      current < restarts
    }

    // Dereferencing gives the entry.
    method Entry() returns (k: Bytes, v: Bytes)
      requires At(pos) && Valid()
      ensures pos < |layout.entries| && KeyValue(k, v) == layout.entries[pos]
    {
      hide Ascending, StrictOrder;
      assert pos < |layout.entries|;
      BytesInPlace(data, layout, pos);
      k := key;
      v := data[valueStart..valueStart + valueLength];
    }

    constructor (less: Order, data: Bytes, ghost layout: Layout)
      requires IsBlock(data, layout) && StrictOrder(less) && Ascending(less, layout.entries)
      ensures At(|layout.entries|) && !Valid() && this.layout == layout && this.less == less && this.data == data
    {
      BlockSizes(data, layout);
      var n := DecodeFixed(data[|data| - 4..]);
      this.less, this.data, this.layout := less, data, layout;
      restarts, numRestarts := |data| - (1 + n) * 4, n;
      current, restartIndex, key, valueStart, valueLength := |data| - (1 + n) * 4, n, [], 0, 0;
      pos := |layout.entries|;
    }

    method GetRestartPoint(index: nat) returns (offset: nat)
      requires Good() && index < numRestarts
      ensures layout.restarts[index] <= |layout.entries| && offset == layout.offsets[layout.restarts[index]]
    {
      RestartInPlace(data, layout, index);
      offset := DecodeFixed(data[restarts + index * 4..restarts + index * 4 + 4]);
    }

    method SeekToRestartPoint(index: nat)
      requires Good() && index < numRestarts
      modifies this
      ensures pos == old(pos) && current == old(current)
      ensures Before(layout.restarts[index]) && restartIndex == index
    {
      key := [];
      restartIndex := index;
      var offset := GetRestartPoint(index);
      valueStart, valueLength := offset, 0;
      RestartInPlace(data, layout, index);
    }

    method ParseNextKey(ghost p: nat) returns (ok: bool)
      requires Before(p)
      modifies this
      ensures At(p) && ok == (p < |layout.entries|)
    {
      hide IsBlock, Ascending, StrictOrder;
      var next := valueStart + valueLength;
      RestartsOf(data, layout);
      OffsetOrder(data, layout, p, |layout.entries|);
      pos := p;
      current := next;
      if next >= restarts {
        current := restarts;
        restartIndex := numRestarts;
        return false;
      }
      DecodeCurrent();
      AdvanceRestart(p);
      ok := true;
    }

    // Reads the entry at current into key and value.
    method DecodeCurrent()
      requires Good() && pos < |layout.entries| && current == layout.offsets[pos]
      requires layout.shared[pos] == 0 || (pos > 0 && key == layout.entries[pos - 1].key)
      modifies this`key, this`valueStart, this`valueLength
      ensures key == layout.entries[pos].key
      ensures valueStart + valueLength == layout.offsets[pos + 1] && valueLength == |layout.entries[pos].value|
    {
      ParsesEntry(data, layout, pos, key);
      hide IsBlock, Ascending, StrictOrder;
      var h := DecodeEntry(data, current, restarts).value;
      key := key[..h.shared] + data[h.start..h.start + h.nonShared];
      valueStart, valueLength := h.start + h.nonShared, h.valueLength;
    }

    // Catches up with the restart points before the current entry.
    method AdvanceRestart(ghost p: nat)
      requires Good() && p < |layout.entries| && current == layout.offsets[p]
      requires restartIndex < numRestarts && layout.restarts[restartIndex] <= p
      modifies this`restartIndex
      ensures Covers(layout, restartIndex, p)
    {
      hide IsBlock, Ascending, StrictOrder;
      var more := restartIndex + 1 < numRestarts;
      while more
        invariant restartIndex < numRestarts && layout.restarts[restartIndex] <= p
        invariant if more then restartIndex + 1 < numRestarts else Covers(layout, restartIndex, p)
        decreases more, numRestarts - restartIndex
      {
        var offset := GetRestartPoint(restartIndex + 1);
        OffsetOrder(data, layout, layout.restarts[restartIndex + 1], p);
        if offset < current {
          restartIndex := restartIndex + 1;
          more := restartIndex + 1 < numRestarts;
        } else {
          more := false;
        }
      }
    }

    method SeekToFirst()
      requires At(pos)
      modifies this
      ensures At(0)
    {
      SeekToRestartPoint(0);
      var _ := ParseNextKey(0);
    }

    method Next()
      requires At(pos) && Valid()
      modifies this
      ensures At(old(pos) + 1)
    {
      hide IsBlock, Ascending, StrictOrder;
      var _ := ParseNextKey(pos + 1);
    }

    method SeekToLast()
      requires At(pos)
      modifies this
      ensures At(if layout.entries == [] then 0 else |layout.entries| - 1)
    {
      hide IsBlock, Ascending, StrictOrder;
      RestartsOf(data, layout);
      SeekToRestartPoint(numRestarts - 1);
      ghost var p := layout.restarts[numRestarts - 1];
      var ok := ParseNextKey(p);
      while ok && valueStart + valueLength < restarts
        invariant At(p) && ok == (p < |layout.entries|) && (layout.entries != [] ==> ok)
        decreases |layout.entries| - p
      {
        OffsetOrder(data, layout, p + 1, |layout.entries|);
        ok := ParseNextKey(p + 1);
        p := p + 1;
      }
      if ok {
        OffsetOrder(data, layout, p + 1, |layout.entries|);
      }
    }

    // One entry back, or to the invalid position from the first entry.
    method Prev()
      requires At(pos) && Valid()
      modifies this
      ensures At(if old(pos) == 0 then |layout.entries| else old(pos) - 1)
    {
      hide IsBlock, Ascending, StrictOrder, Limit;
      RestartsOf(data, layout);
      var original := current;
      ghost var q := pos;
      var offset := GetRestartPoint(restartIndex);
      while offset >= original
        invariant Good() && restartIndex < numRestarts && layout.restarts[restartIndex] <= q
        invariant offset == layout.offsets[layout.restarts[restartIndex]]
        invariant current == original == layout.offsets[q] && pos == q < |layout.entries|
        decreases restartIndex
      {
        OffsetOrder(data, layout, layout.restarts[restartIndex], q);
        if restartIndex == 0 {
          current := restarts;
          restartIndex := numRestarts;
          pos := |layout.entries|;
          return;
        }
        restartIndex := restartIndex - 1;
        offset := GetRestartPoint(restartIndex);
      }
      OffsetOrder(data, layout, layout.restarts[restartIndex], q);
      SeekToRestartPoint(restartIndex);
      ghost var p := layout.restarts[restartIndex];
      var ok := ParseNextKey(p);
      while ok && valueStart + valueLength < original
        invariant p < q && At(p) && ok
        decreases q - p
      {
        OffsetOrder(data, layout, p + 1, q);
        ok := ParseNextKey(p + 1);
        p := p + 1;
      }
      OffsetOrder(data, layout, p + 1, q);
    }

    // The last restart point whose key is below the target, or the first one.
    method FindRestart(target: Bytes) returns (left: nat)
      requires Good()
      ensures left < numRestarts && (left == 0 || RestartBelow(layout, less, left, target))
      ensures forall r: nat :: left < r < numRestarts ==> !RestartBelow(layout, less, r, target)
    {
      hide IsBlock, Ascending, StrictOrder, RestartBelow;
      RestartsOf(data, layout);
      left := 0;
      var right := numRestarts - 1;
      while left < right
        invariant 0 <= left <= right < numRestarts
        invariant left == 0 || RestartBelow(layout, less, left, target)
        invariant forall r: nat :: right < r < numRestarts ==> !RestartBelow(layout, less, r, target)
      {
        var mid := (left + right + 1) / 2;
        var offset := GetRestartPoint(mid);
        RestartKey(data, layout, mid);
        var h := DecodeEntry(data, offset, restarts).value;
        assert h.shared == 0;
        var midKey := data[h.start..h.start + h.nonShared];
        RestartsAscend(layout, less, mid, target);
        if less(midKey, target) {
          left := mid;
        } else {
          right := mid - 1;
        }
      }
    }

    method Seek(target: Bytes)
      requires At(pos)
      modifies this
      ensures At(pos) && IsFirstFrom(less, layout.entries, target, pos)
    {
      hide IsBlock, Ascending, StrictOrder, IsFirstFrom;
      RestartsOf(data, layout);
      var left := FindRestart(target);
      SeekToRestartPoint(left);
      ghost var p := layout.restarts[left];
      BelowRestart(layout, less, left, target);
      var ok := ParseNextKey(p);
      while ok && less(key, target)
        invariant At(p) && ok == (p < |layout.entries|)
        invariant AllBelow(layout.entries, less, p, target)
        decreases |layout.entries| - p
      {
        ok := ParseNextKey(p + 1);
        p := p + 1;
      }
      FirstFound(layout.entries, less, p, target);
    }
  }

  ghost predicate RestartBelow(l: Layout, less: Order, r: nat, target: Bytes) {
    r < |l.restarts| && l.restarts[r] < |l.entries| && less(l.entries[l.restarts[r]].key, target)
  }

  ghost predicate AllBelow(es: seq<KeyValue>, less: Order, p: nat, target: Bytes) {
    forall i :: 0 <= i < p && i < |es| ==> less(es[i].key, target)
  }

  lemma BelowRestart(l: Layout, less: Order, r: nat, target: Bytes)
    requires StrictOrder(less) && Ascending(less, l.entries) && r < |l.restarts| && l.restarts[0] == 0
    requires r == 0 || RestartBelow(l, less, r, target)
    ensures AllBelow(l.entries, less, l.restarts[r], target)
  {
  }

  lemma FirstFound(es: seq<KeyValue>, less: Order, p: nat, target: Bytes)
    requires StrictOrder(less) && Ascending(less, es) && p <= |es| && AllBelow(es, less, p, target)
    requires p < |es| ==> !less(es[p].key, target)
    ensures IsFirstFrom(less, es, target, p)
  {
    forall i | p < i < |es|
      ensures !less(es[i].key, target)
    {
      assert less(es[p].key, es[i].key);
    }
  }

  lemma RestartKey(data: Bytes, l: Layout, r: nat)
    requires IsBlock(data, l) && 0 < r < |l.restarts|
    ensures l.restarts[r] < |l.entries| && |l.offsets| == |l.entries| + 1 && l.offsets[l.restarts[r]] <= Limit(l) <= |data|
    ensures DecodeEntry(data, l.offsets[l.restarts[r]], Limit(l)).Some?
    ensures var h := DecodeEntry(data, l.offsets[l.restarts[r]], Limit(l)).value;
      && h.shared == 0 && h.start + h.nonShared <= |data|
      && data[h.start..h.start + h.nonShared] == l.entries[l.restarts[r]].key
  {
    var p := l.restarts[r];
    assert l.shared[p] == 0;
    OffsetsAscend(data, l, p, |l.entries|);
    OffsetsAscend(data, l, p + 1, |l.entries|);
    hide DecodeEntry;
    DecodesInPlace(data, l, p, Limit(l));
    BytesInPlace(data, l, p);
    assert l.entries[p].key[0..] == l.entries[p].key;
  }

  lemma RestartsAscend(l: Layout, less: Order, mid: nat, target: Bytes)
    requires StrictOrder(less) && Ascending(less, l.entries)
    requires mid < |l.restarts| && l.restarts[mid] < |l.entries|
    requires forall q, r :: 0 <= q < r < |l.restarts| ==> l.restarts[q] < l.restarts[r]
    ensures RestartBelow(l, less, mid, target) <==> less(l.entries[l.restarts[mid]].key, target)
    ensures !RestartBelow(l, less, mid, target) ==> forall r: nat :: mid <= r < |l.restarts| ==> !RestartBelow(l, less, r, target)
  {
  }

  // Reading a block from the front gives exactly the entries it was built from.
  method AllEntries(it: Iter) returns (es: seq<KeyValue>)
    requires it.At(it.pos)
    modifies it
    ensures it.At(it.pos) && !it.Valid() && es == it.layout.entries
  {
    hide IsBlock, Ascending, StrictOrder, Covers;
    es := [];
    it.SeekToFirst();
    while it.Valid()
      invariant it.At(it.pos) && es == it.layout.entries[..it.pos]
      decreases |it.layout.entries| - it.pos
    {
      var k, v := it.Entry();
      es := es + [KeyValue(k, v)];
      it.Next();
    }
    AtEnd(it);
  }

  lemma StandsAt(it: Iter, p: nat)
    requires it.At(p)
    ensures it.pos == p <= |it.layout.entries| && it.At(it.pos)
  {
  }

  lemma AtEnd(it: Iter)
    requires it.At(it.pos)
    ensures it.pos <= |it.layout.entries| && (it.Valid() <==> it.pos < |it.layout.entries|)
  {
    if it.pos < |it.layout.entries| {
      OffsetOrder(it.data, it.layout, it.pos, |it.layout.entries|);
    }
  }

  lemma BlockSizes(data: Bytes, l: Layout)
    requires IsBlock(data, l)
    ensures |data| >= 8 && DecodeFixed(data[|data| - 4..]) == |l.restarts|
    ensures |data| - (1 + |l.restarts|) * 4 == Limit(l)
  {
    assert |l.restarts| > 0;
    hide Holds, GoodRestarts;
    Fixed32RoundTrip(|l.restarts|);
  }

  lemma RestartInPlace(data: Bytes, l: Layout, r: nat)
    requires IsBlock(data, l) && r < |l.restarts|
    ensures l.restarts[r] <= |l.entries| && Limit(l) + r * 4 + 4 <= |data|
    ensures DecodeFixed(data[Limit(l) + r * 4..Limit(l) + r * 4 + 4]) == l.offsets[l.restarts[r]]
    ensures l.restarts[r] < |l.entries| ==> l.shared[l.restarts[r]] == 0
  {
    assert l.restarts[r] <= |l.entries|;
    OffsetsAscend(data, l, l.restarts[r], |l.entries|);
    hide Holds, DecodeFixed, Fixed32;
    Fixed32RoundTrip(RestartOffset(l, r));
  }

  lemma RestartsOf(data: Bytes, l: Layout)
    requires IsBlock(data, l)
    ensures |l.restarts| > 0 && l.restarts[0] == 0 && |l.offsets| == |l.entries| + 1 && |l.shared| == |l.entries|
    ensures forall r :: 0 <= r < |l.restarts| ==> l.restarts[r] <= |l.entries|
    ensures l.entries != [] ==> forall r :: 0 <= r < |l.restarts| ==> l.restarts[r] < |l.entries|
    ensures forall q, r :: 0 <= q < r < |l.restarts| ==> l.restarts[q] < l.restarts[r]
    ensures Limit(l) == l.offsets[|l.entries|] <= |data| < TWO32
  {
  }

  lemma OffsetOrder(data: Bytes, l: Layout, i: nat, j: nat)
    requires IsBlock(data, l) && i <= |l.entries| && j <= |l.entries|
    ensures l.offsets[i] < l.offsets[j] <==> i < j
    ensures l.offsets[i] <= Limit(l)
  {
    OffsetsAscend(data, l, i, |l.entries|);
    if i < j {
      OffsetsAscend(data, l, i, j);
    } else {
      OffsetsAscend(data, l, j, i);
    }
  }

  // Decoding the entry at p continues a buffer that holds the key before it.
  lemma ParsesEntry(data: Bytes, l: Layout, p: nat, key: Bytes)
    requires IsBlock(data, l) && p < |l.entries|
    requires |l.shared| == |l.entries| && |l.offsets| == |l.entries| + 1
    requires l.shared[p] == 0 || (p > 0 && key == l.entries[p - 1].key)
    ensures l.offsets[p] < Limit(l) <= |data|
    ensures DecodeEntry(data, l.offsets[p], Limit(l)).Some?
    ensures var h, e := DecodeEntry(data, l.offsets[p], Limit(l)).value, l.entries[p];
      && h.shared <= |key| && h.start + h.nonShared + h.valueLength == l.offsets[p + 1] <= |data|
      && h.valueLength == |e.value|
      && key[..h.shared] + data[h.start..h.start + h.nonShared] == e.key
  {
    hide DecodeEntry, EncodeEntry, GoodRestarts, EntryAt, RestartOffset, Fixed32;
    OffsetsAscend(data, l, p, |l.entries|);
    OffsetsAscend(data, l, p + 1, |l.entries|);
    SharedKey(data, l, p);
    hide Holds;
    DecodesInPlace(data, l, p, Limit(l));
    BytesInPlace(data, l, p);
    var e, k := l.entries[p], l.shared[p];
    assert k == 0 ==> key[..k] == e.key[..k];
    assert e.key == e.key[..k] + e.key[k..];
  }

  lemma SharedKey(data: Bytes, l: Layout, p: nat)
    requires Holds(data, l) && p < |l.entries|
    ensures l.shared[p] <= |l.entries[p].key|
    ensures p > 0 ==> l.shared[p] <= |l.entries[p - 1].key| && l.entries[p].key[..l.shared[p]] == l.entries[p - 1].key[..l.shared[p]]
  {
    assert EntryAt(data, l, p);
  }
}
