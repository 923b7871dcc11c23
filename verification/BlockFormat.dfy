/** Table blocks: prefix-compressed entries, then the offsets of the restart points, then their number. */
module BlockFormat {
  import opened Keys
  import opened Wrappers
  import opened Coding

  datatype KeyValue = KeyValue(key: Bytes, value: Bytes)

  /** One entry */

  function EncodeEntry(shared: nat, e: KeyValue): Bytes
    requires shared <= |e.key|
  {
    Varint(shared) + Varint(|e.key| - shared) + Varint(|e.value|) + e.key[shared..] + e.value
  }

  // Sizes of an entry, and where its key bytes start.
  datatype Header = Header(shared: nat, nonShared: nat, valueLength: nat, start: nat)

  // Reads the sizes of the entry at p; None when they do not fit before the limit.
  function DecodeEntry(data: Bytes, p: nat, limit: nat): (r: Option<Header>)
    requires p <= limit <= |data|
    ensures r.Some? ==> p + 3 <= r.value.start <= limit
  {
    if limit - p < 3 then None
    else
      var h := if data[p] < 128 && data[p + 1] < 128 && data[p + 2] < 128
               then Some(Header(data[p], data[p + 1], data[p + 2], p + 3))
               else DecodeSizes(data, p, limit);
      if h.None? || (limit - h.value.start) % TWO32 < (h.value.nonShared + h.value.valueLength) % TWO32 then None else h
  }

  function DecodeSizes(data: Bytes, p: nat, limit: nat): (r: Option<Header>)
    requires p <= limit <= |data|
    ensures r.Some? ==> p + 3 <= r.value.start <= limit
  {
    var b := data[p..limit];
    match GetVarint32(b) {
      case None => None
      case Some(s) =>
        match GetVarint32(s.1) {
          case None => None
          case Some(n) =>
            match GetVarint32(n.1)
            case None => None
            case Some(v) => Some(Header(s.0, n.0, v.0, limit - |v.1|))
        }
    }
  }

  lemma SmallVarint(v: nat, rest: Bytes)
    ensures (Varint(v) + rest)[0] < 128 ==> Varint(v) == [v]
    ensures v < 128 ==> Varint(v) == [v]
  {
  }

  // Three sizes at the front of b.
  lemma SizesFront(b: Bytes, s: nat, n: nat, v: nat, tail: Bytes)
    requires s < TWO32 && n < TWO32 && v < TWO32
    requires b == Varint(s) + (Varint(n) + (Varint(v) + tail))
    ensures |b| >= 3 + |tail|
    ensures GetVarint32(b) == Some((s, Varint(n) + (Varint(v) + tail)))
    ensures GetVarint32(Varint(n) + (Varint(v) + tail)) == Some((n, Varint(v) + tail))
    ensures GetVarint32(Varint(v) + tail) == Some((v, tail))
  {
    hide GetVarint32, Varint;
    GetVarint32RoundTrip(s, Varint(n) + (Varint(v) + tail));
    GetVarint32RoundTrip(n, Varint(v) + tail);
    GetVarint32RoundTrip(v, tail);
  }

  // When each of them fits into one byte.
  lemma SmallSizesFront(b: Bytes, s: nat, n: nat, v: nat, tail: Bytes)
    requires b == Varint(s) + (Varint(n) + (Varint(v) + tail))
    requires |b| >= 3 && b[0] < 128 && b[1] < 128 && b[2] < 128
    ensures b[0] == s && b[1] == n && b[2] == v && |b| == 3 + |tail|
  {
    hide Varint;
    SmallVarint(s, Varint(n) + (Varint(v) + tail));
    assert b[1] == (Varint(n) + (Varint(v) + tail))[0];
    SmallVarint(n, Varint(v) + tail);
    assert b[2] == (Varint(v) + tail)[0];
    SmallVarint(v, tail);
  }

  lemma EntryParts(shared: nat, e: KeyValue, rest: Bytes)
    requires shared <= |e.key|
    ensures EncodeEntry(shared, e) + rest
         == Varint(shared) + (Varint(|e.key| - shared) + (Varint(|e.value|) + (e.key[shared..] + e.value + rest)))
    ensures |EncodeEntry(shared, e)| >= 3 + |e.value| + |e.key| - shared
  {
    hide Varint;
  }

  // An entry at the front of the rest of the block.
  lemma DecodesFront(data: Bytes, p: nat, limit: nat, shared: nat, e: KeyValue, rest: Bytes)
    requires shared <= |e.key| < TWO32 && |e.value| < TWO32
    requires p <= limit <= |data| && data[p..limit] == EncodeEntry(shared, e) + rest && limit - p < TWO32
    ensures p + 3 <= limit - |rest| - |e.value| - (|e.key| - shared)
    ensures DecodeEntry(data, p, limit)
         == Some(Header(shared, |e.key| - shared, |e.value|, limit - |rest| - |e.value| - (|e.key| - shared)))
  {
    hide EncodeEntry, DecodeSizes, DecodeEntry, Varint;
    var n, v := |e.key| - shared, |e.value|;
    var tail := e.key[shared..] + e.value + rest;
    EntryParts(shared, e, rest);
    assert |tail| == n + v + |rest|;
    DecodesSizes(data, p, limit, shared, n, v, tail);
    if data[p] < 128 && data[p + 1] < 128 && data[p + 2] < 128 {
      DecodesFast(data, p, limit, shared, n, v, tail);
    }
    DecodesHeader(data, p, limit, Header(shared, n, v, limit - |tail|));
  }

  lemma DecodesSizes(data: Bytes, p: nat, limit: nat, s: nat, n: nat, v: nat, tail: Bytes)
    requires s < TWO32 && n < TWO32 && v < TWO32 && p <= limit <= |data|
    requires data[p..limit] == Varint(s) + (Varint(n) + (Varint(v) + tail))
    ensures p + 3 <= limit - |tail| && DecodeSizes(data, p, limit) == Some(Header(s, n, v, limit - |tail|))
  {
    hide GetVarint32, Varint;
    SizesFront(data[p..limit], s, n, v, tail);
  }

  lemma DecodesFast(data: Bytes, p: nat, limit: nat, s: nat, n: nat, v: nat, tail: Bytes)
    requires p + 3 <= limit <= |data| && data[p..limit] == Varint(s) + (Varint(n) + (Varint(v) + tail))
    requires data[p] < 128 && data[p + 1] < 128 && data[p + 2] < 128
    ensures s == data[p] && n == data[p + 1] && v == data[p + 2] && limit - |tail| == p + 3
  {
    var b := data[p..limit];
    hide Varint;
    assert b[0] == data[p] && b[1] == data[p + 1] && b[2] == data[p + 2];
    SmallSizesFront(b, s, n, v, tail);
  }

  lemma DecodesHeader(data: Bytes, p: nat, limit: nat, h: Header)
    requires p + 3 <= h.start <= limit <= |data| && limit - p < TWO32
    requires DecodeSizes(data, p, limit) == Some(h)
    requires data[p] < 128 && data[p + 1] < 128 && data[p + 2] < 128 ==> h == Header(data[p], data[p + 1], data[p + 2], p + 3)
    requires h.nonShared + h.valueLength <= limit - h.start
    ensures DecodeEntry(data, p, limit) == Some(h)
  {
    hide DecodeSizes;
  }

  /** A whole block */

  // Entries, their offsets (and where they end), how much of each key is shared with the one
  // before, and which entries are restart points.
  datatype Layout = Layout(entries: seq<KeyValue>, offsets: seq<nat>, shared: seq<nat>, restarts: seq<nat>)

  ghost predicate EntryAt(data: Bytes, l: Layout, i: nat)
    requires i < |l.entries| && |l.offsets| == |l.entries| + 1 && |l.shared| == |l.entries|
  {
    && l.shared[i] <= |l.entries[i].key|
    && l.offsets[i + 1] == l.offsets[i] + |EncodeEntry(l.shared[i], l.entries[i])|
    && l.offsets[i + 1] <= |data|
    && data[l.offsets[i]..l.offsets[i + 1]] == EncodeEntry(l.shared[i], l.entries[i])
    && (if i == 0 then l.shared[i] == 0
        else l.shared[i] <= |l.entries[i - 1].key| && l.entries[i].key[..l.shared[i]] == l.entries[i - 1].key[..l.shared[i]])
  }

  // The part of the block before the restart array.
  ghost predicate Holds(data: Bytes, l: Layout) {
    && |l.offsets| == |l.entries| + 1 && |l.shared| == |l.entries| && l.offsets[0] == 0
    && (forall i: nat :: i < |l.entries| ==> EntryAt(data, l, i))
  }

  ghost predicate GoodRestarts(l: Layout) {
    && |l.offsets| == |l.entries| + 1 && |l.shared| == |l.entries|
    && |l.restarts| > 0 && l.restarts[0] == 0
    && (forall r :: 0 < r < |l.restarts| ==> l.restarts[r] < |l.entries|)
    && (forall q, r :: 0 <= q < r < |l.restarts| ==> l.restarts[q] < l.restarts[r])
    && (forall r :: 0 <= r < |l.restarts| && l.restarts[r] < |l.entries| ==> l.shared[l.restarts[r]] == 0)
  }

  // Where the restart array starts.
  function Limit(l: Layout): nat
    requires l.offsets != []
  {
    l.offsets[|l.offsets| - 1]
  }

  function RestartOffset(l: Layout, r: nat): nat
    requires r < |l.restarts| && l.restarts[r] < |l.offsets|
  {
    l.offsets[l.restarts[r]]
  }

  ghost predicate IsBlock(data: Bytes, l: Layout) {
    && Holds(data, l) && GoodRestarts(l)
    && |data| == Limit(l) + 4 * |l.restarts| + 4 && |data| < TWO32
    && (forall r :: 0 <= r < |l.restarts| ==>
          data[Limit(l) + 4 * r..Limit(l) + 4 * r + 4] == Fixed32(RestartOffset(l, r)))
    && data[|data| - 4..] == Fixed32(|l.restarts|)
  }

  /** Orders on keys */

  type Order = (Bytes, Bytes) -> bool

  ghost predicate StrictOrder(less: Order) {
    && (forall a :: !less(a, a))
    && (forall a, b, c :: less(a, b) && less(b, c) ==> less(a, c))
    && (forall a, b :: less(a, b) || less(b, a) || a == b)
  }

  ghost predicate Ascending(less: Order, es: seq<KeyValue>) {
    forall i, j :: 0 <= i < j < |es| ==> less(es[i].key, es[j].key)
  }

  // r is the position of the first entry whose key is not below the target.
  ghost predicate IsFirstFrom(less: Order, es: seq<KeyValue>, target: Bytes, r: nat) {
    && r <= |es|
    && (forall i :: 0 <= i < r ==> less(es[i].key, target))
    && (forall i :: r <= i < |es| ==> !less(es[i].key, target))
  }

  /** Facts about layouts */

  lemma {:induction false} OffsetsAscend(data: Bytes, l: Layout, i: nat, j: nat)
    requires Holds(data, l) && i <= j <= |l.entries|
    ensures l.offsets[i] <= l.offsets[j] <= Limit(l)
    ensures i < j ==> l.offsets[i] + 3 <= l.offsets[j]
    ensures Limit(l) <= |data| || l.entries == []
    decreases |l.entries| - i
  {
    assert l.entries != [] ==> EntryAt(data, l, |l.entries| - 1);
    if i < |l.entries| {
      assert EntryAt(data, l, i);
      assert |EncodeEntry(l.shared[i], l.entries[i])| >= 3;
      OffsetsAscend(data, l, i + 1, if i < j then j else i + 1);
    }
  }

  // Decoding an entry in place.
  lemma DecodesInPlace(data: Bytes, l: Layout, i: nat, limit: nat)
    requires Holds(data, l) && i < |l.entries| && limit <= |data| < TWO32 && l.offsets[i + 1] <= limit
    ensures l.offsets[i] <= limit
    ensures var e, k := l.entries[i], l.shared[i];
      && k <= |e.key|
      && l.offsets[i] + 3 <= l.offsets[i + 1] - |e.value| - (|e.key| - k)
      && DecodeEntry(data, l.offsets[i], limit)
           == Some(Header(k, |e.key| - k, |e.value|, l.offsets[i + 1] - |e.value| - (|e.key| - k)))
  {
    hide *;
    EntryFacts(data, l, i);
    SharedFits(data, l, i);
    var e, k := l.entries[i], l.shared[i];
    var a, z := l.offsets[i], l.offsets[i + 1];
    Rejoins(data, a, z, limit);
    DecodesFront(data, a, limit, k, e, data[z..limit]);
  }

  // The bytes of the key and the value of an entry in place.
  lemma BytesInPlace(data: Bytes, l: Layout, i: nat)
    requires Holds(data, l) && i < |l.entries|
    ensures var e, k := l.entries[i], l.shared[i];
      && k <= |e.key| && l.offsets[i] + |e.value| + (|e.key| - k) <= l.offsets[i + 1] <= |data|
      && data[l.offsets[i + 1] - |e.value| - (|e.key| - k)..l.offsets[i + 1] - |e.value|] == e.key[k..]
      && data[l.offsets[i + 1] - |e.value|..l.offsets[i + 1]] == e.value
  {
    var e, k := l.entries[i], l.shared[i];
    var z := l.offsets[i + 1];
    EntryFacts(data, l, i);
    var tail := e.key[k..] + e.value;
    hide Holds, EncodeEntry, EntryAt;
    EntryTail(k, e);
    SliceTail(data, l.offsets[i], z, EncodeEntry(k, e), |tail|);
    assert tail[..|e.key| - k] == e.key[k..] && tail[|e.key| - k..] == e.value;
    SliceParts(data, z - |tail|, z, |e.key| - k);
  }

  lemma EntryFacts(data: Bytes, l: Layout, i: nat)
    requires Holds(data, l) && i < |l.entries|
    ensures |l.shared| == |l.entries| && |l.offsets| == |l.entries| + 1
    ensures l.shared[i] <= |l.entries[i].key|
    ensures l.offsets[i + 1] == l.offsets[i] + |EncodeEntry(l.shared[i], l.entries[i])| <= |data|
    ensures data[l.offsets[i]..l.offsets[i + 1]] == EncodeEntry(l.shared[i], l.entries[i])
  {
    assert EntryAt(data, l, i);
  }

  lemma Rejoins(data: Bytes, a: nat, z: nat, limit: nat)
    requires a <= z <= limit <= |data|
    ensures data[a..limit] == data[a..z] + data[z..limit]
  {
  }

  lemma EntryTail(shared: nat, e: KeyValue)
    requires shared <= |e.key|
    ensures var enc, tail := EncodeEntry(shared, e), e.key[shared..] + e.value;
      |tail| <= |enc| && enc[|enc| - |tail|..] == tail
  {
    hide Varint;
  }

  lemma SliceTail(data: Bytes, a: nat, z: nat, enc: Bytes, n: nat)
    requires a <= z <= |data| && data[a..z] == enc && n <= |enc|
    ensures data[z - n..z] == enc[|enc| - n..]
  {
  }

  lemma SliceParts(data: Bytes, a: nat, z: nat, n: nat)
    requires a <= a + n <= z <= |data|
    ensures data[a..a + n] == data[a..z][..n] && data[a + n..z] == data[a..z][n..]
  {
  }

  // Keys are no longer than the block: their bytes are all in it.
  lemma {:induction false} SharedFits(data: Bytes, l: Layout, i: nat)
    requires Holds(data, l) && i < |l.entries|
    ensures |l.entries[i].key| + |l.entries[i].value| <= l.offsets[i + 1]
  {
    assert EntryAt(data, l, i);
    var e, k := l.entries[i], l.shared[i];
    assert |EncodeEntry(k, e)| >= |e.key| - k + |e.value|;
    if i > 0 {
      SharedFits(data, l, i - 1);
    }
  }
}
