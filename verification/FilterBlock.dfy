/** The filter block: one filter for the blocks that start in each 2 KB of the file. */
module FilterBlock {
  import opened Keys
  import opened Coding
  import opened BlockBuilders
  import Bloom
  import KeyOrder

  const BASE_LG: byte := 11
  const BASE: nat := 2048

  // A filter policy: what it writes for a list of keys, and when a key may be in a filter.
  datatype Policy = Policy(create: seq<Bytes> -> Bytes, mayMatch: (Bytes, Bytes) -> bool)

  ghost predicate NoFalseNegatives(p: Policy, ok: Bytes -> bool) {
    forall keys: seq<Bytes>, key :: (forall k :: k in keys ==> ok(k)) && key in keys ==> p.mayMatch(key, p.create(keys))
  }

  function BloomPolicy(hash: Bloom.Hash, bitsPerKey: nat, k: nat): Policy {
    Policy(keys => Bloom.Filter(hash, bitsPerKey, k, keys), (key, filter) => Bloom.MayMatch(hash, key, filter))
  }

  lemma BloomIsSound(hash: Bloom.Hash, bitsPerKey: nat, k: nat)
    ensures NoFalseNegatives(BloomPolicy(hash, bitsPerKey, k), _ => true)
  {
    var p := BloomPolicy(hash, bitsPerKey, k);
    forall keys: seq<Bytes>, key | key in keys
      ensures p.mayMatch(key, p.create(keys))
    {
      Bloom.KeysMatch(hash, bitsPerKey, k, keys, key);
    }
  }

  /** Filters for internal keys look at the user keys only. */

  function UserKeyOf(k: Bytes): Bytes {
    if |k| >= KeyOrder.TAG_SIZE then KeyOrder.UserPart(k) else []
  }

  function UserKeys(keys: seq<Bytes>): (r: seq<Bytes>)
    ensures |r| == |keys| && forall i :: 0 <= i < |keys| ==> r[i] == UserKeyOf(keys[i])
  {
    seq(|keys|, i requires 0 <= i < |keys| => UserKeyOf(keys[i]))
  }

  function InternalPolicy(p: Policy): Policy {
    Policy(keys => p.create(UserKeys(keys)), (key, filter) => p.mayMatch(UserKeyOf(key), filter))
  }

  // A key with the user key of one that was added may match, whatever its tag.
  lemma InternalIsSound(p: Policy, keys: seq<Bytes>, key: Bytes, added: Bytes)
    requires NoFalseNegatives(p, _ => true) && added in keys && UserKeyOf(key) == UserKeyOf(added)
    ensures InternalPolicy(p).mayMatch(key, InternalPolicy(p).create(keys))
  {
    var i :| 0 <= i < |keys| && keys[i] == added;
    assert UserKeys(keys)[i] == UserKeyOf(key);
  }

  /** The layout */

  function FilterOf(p: Policy, keys: seq<Bytes>): Bytes {
    if keys == [] then [] else p.create(keys)
  }

  function FilterList(p: Policy, groups: seq<seq<Bytes>>): (r: seq<Bytes>)
    ensures |r| == |groups| && forall i :: 0 <= i < |groups| ==> r[i] == FilterOf(p, groups[i])
  {
    seq(|groups|, i requires 0 <= i < |groups| => FilterOf(p, groups[i]))
  }

  /** Strings one after another, and where each of them starts */

  function Flat(keys: seq<Bytes>): Bytes {
    if keys == [] then [] else Flat(keys[..|keys| - 1]) + keys[|keys| - 1]
  }

  function Starts(keys: seq<Bytes>): (r: seq<nat>)
    ensures |r| == |keys|
  {
    if keys == [] then [] else Starts(keys[..|keys| - 1]) + [|Flat(keys[..|keys| - 1])|]
  }

  lemma FlatAppends(keys: seq<Bytes>, key: Bytes)
    ensures Flat(keys + [key]) == Flat(keys) + key && Starts(keys + [key]) == Starts(keys) + [|Flat(keys)|]
  {
  }

  lemma PrefixSlice(a: Bytes, b: Bytes, i: nat, j: nat)
    requires i <= j <= |a|
    ensures (a + b)[i..j] == a[i..j]
  {
  }

  lemma {:induction false} KeyInPlace(keys: seq<Bytes>, i: nat)
    requires i < |keys|
    ensures var starts := Starts(keys) + [|Flat(keys)|];
      starts[i] <= starts[i + 1] <= |Flat(keys)| && Flat(keys)[starts[i]..starts[i + 1]] == keys[i]
  {
    var n := |keys| - 1;
    if i < n {
      KeyInPlace(keys[..n], i);
      var starts := Starts(keys) + [|Flat(keys)|];
      assert starts[..n + 1] == Starts(keys[..n]) + [|Flat(keys[..n])|];
      PrefixSlice(Flat(keys[..n]), keys[n], starts[i], starts[i + 1]);
    }
  }

  // The filters and their offsets.
  function Filters(p: Policy, groups: seq<seq<Bytes>>): Bytes {
    Flat(FilterList(p, groups))
  }

  function Offsets(p: Policy, groups: seq<seq<Bytes>>): (r: seq<nat>)
    ensures |r| == |groups|
  {
    Starts(FilterList(p, groups))
  }

  lemma FiltersAppend(p: Policy, groups: seq<seq<Bytes>>, keys: seq<Bytes>)
    ensures Filters(p, groups + [keys]) == Filters(p, groups) + FilterOf(p, keys)
    ensures Offsets(p, groups + [keys]) == Offsets(p, groups) + [|Filters(p, groups)|]
  {
    assert FilterList(p, groups + [keys]) == FilterList(p, groups) + [FilterOf(p, keys)];
    FlatAppends(FilterList(p, groups), FilterOf(p, keys));
  }

  function Finished(p: Policy, groups: seq<seq<Bytes>>): Bytes {
    Contents(Filters(p, groups), Offsets(p, groups))
  }

  /** The reader */

  function Word32(contents: Bytes, p: nat): nat
    requires p + 4 <= |contents|
  {
    DecodeFixed(contents[p..p + 4])
  }

  function ShiftRight(v: nat, n: nat): nat {
    if n == 0 then v else ShiftRight(v / 2, n - 1)
  }

  function FilterIndex(contents: Bytes, blockOffset: nat): nat
    requires contents != []
  {
    ShiftRight(blockOffset, contents[|contents| - 1])
  }

  // Anything unexpected counts as a match.
  function KeyMayMatch(p: Policy, contents: Bytes, blockOffset: nat, key: Bytes): bool {
    |contents| < 5 || MatchesAt(p, contents, Word32(contents, |contents| - 5), FilterIndex(contents, blockOffset), key)
  }

  function MatchesAt(p: Policy, contents: Bytes, arrayStart: nat, index: nat, key: Bytes): bool
    requires |contents| >= 5
  {
    var n := |contents| - 5;
    if arrayStart > n || index >= (n - arrayStart) / 4 then true
    else
      var start, limit := Word32(contents, arrayStart + 4 * index), Word32(contents, arrayStart + 4 * index + 4);
      if start <= limit <= arrayStart then p.mayMatch(key, contents[start..limit]) else start != limit
  }

  // The words after the filters: their offsets, then where the offsets start.
  function Trailer(n: nat): (r: Bytes)
    ensures |r| == 5 && r[4] == BASE_LG && r[0..4] == Fixed32(n)
  {
    Fixed32(n) + [BASE_LG]
  }

  function Contents(filters: Bytes, offsets: seq<nat>): (r: Bytes)
    ensures |r| == |filters| + 4 * |offsets| + 5 && r[|r| - 1] == BASE_LG
  {
    filters + (EncodeOffsets(offsets) + Trailer(|filters|))
  }

  lemma WordsInPlace(filters: Bytes, offsets: seq<nat>, i: nat)
    requires i <= |offsets| && (forall k :: 0 <= k < |offsets| ==> offsets[k] < TWO32) && |filters| < TWO32
    ensures Word32(Contents(filters, offsets), |filters| + 4 * i) == if i < |offsets| then offsets[i] else |filters|
  {
    hide EncodeOffsets, Word32, Trailer;
    var words, tail := EncodeOffsets(offsets), Trailer(|filters|);
    InnerSlice(filters, words + tail, 4 * i, 4 * i + 4);
    if i < |offsets| {
      OffsetInPlace(offsets, i);
      PrefixSlice(words, tail, 4 * i, 4 * i + 4);
      WordAt(Contents(filters, offsets), |filters| + 4 * i, offsets[i]);
    } else {
      InnerSlice(words, tail, 0, 4);
      WordAt(Contents(filters, offsets), |filters| + 4 * i, |filters|);
    }
  }

  lemma WordAt(contents: Bytes, p: nat, v: nat)
    requires p + 4 <= |contents| && v < TWO32 && contents[p..p + 4] == Fixed32(v)
    ensures Word32(contents, p) == v
  {
    Fixed32RoundTrip(v);
  }

  lemma Regroup(a: Bytes, b: Bytes, c: Bytes, d: Bytes)
    ensures a + b + c + d == a + (b + (c + d))
  {
  }

  lemma InnerSlice(a: Bytes, b: Bytes, i: nat, j: nat)
    requires i <= j <= |b|
    ensures (a + b)[|a| + i..|a| + j] == b[i..j]
  {
  }

  // The group a block belongs to is the one at its 2 KB.
  lemma ReadsFilter(p: Policy, groups: seq<seq<Bytes>>, blockOffset: nat, key: Bytes)
    requires |Finished(p, groups)| < TWO32 && blockOffset / 2048 < |groups|
    ensures KeyMayMatch(p, Finished(p, groups), blockOffset, key) == p.mayMatch(key, FilterOf(p, groups[blockOffset / 2048]))
  {
    hide Flat, Starts, EncodeOffsets, Fixed32, Word32, FilterIndex;
    var filters, offsets := Filters(p, groups), Offsets(p, groups);
    var contents := Finished(p, groups);
    var i, list := blockOffset / BASE, FilterList(p, groups);
    assert |contents| == |filters| + 4 * |offsets| + 5;
    assert FilterIndex(contents, blockOffset) == i by { IndexIs(contents, blockOffset); }
    forall k | 0 <= k < |offsets|
      ensures offsets[k] <= |filters|
    {
      KeyInPlace(list, k);
    }
    KeyInPlace(list, i);
    WordsInPlace(filters, offsets, |offsets|);
    WordsInPlace(filters, offsets, i);
    WordsInPlace(filters, offsets, i + 1);
    var limit := if i + 1 < |groups| then offsets[i + 1] else |filters|;
    PrefixSlice(filters, EncodeOffsets(offsets) + Trailer(|filters|), offsets[i], limit);
  }

  lemma IndexIs(contents: Bytes, blockOffset: nat)
    requires contents != [] && contents[|contents| - 1] == BASE_LG
    ensures FilterIndex(contents, blockOffset) == blockOffset / BASE
  {
    ShiftFour(blockOffset, 7);
    ShiftFour(blockOffset / 16, 3);
    assert ShiftRight(blockOffset / 256, 3) == ShiftRight(blockOffset / 1024, 1);
  }

  lemma ShiftFour(v: nat, n: nat)
    ensures ShiftRight(v, n + 4) == ShiftRight(v / 16, n)
  {
    assert ShiftRight(v, n + 4) == ShiftRight(v / 4, n + 2);
    assert ShiftRight(v / 4, n + 2) == ShiftRight(v / 16, n);
  }

  /** The builder */

  // Keys that were added, each with the offset of the block it went to.
  ghost predicate Placed(added: set<(nat, Bytes)>, groups: seq<seq<Bytes>>, pending: seq<Bytes>) {
    forall a :: a in added ==>
      var i := a.0 / BASE;
      i <= |groups| && a.1 in (if i < |groups| then groups[i] else pending)
  }

  class FilterBlockBuilder {
    const policy: Policy
    var keys: Bytes
    var start: seq<nat>
    var result: Bytes
    var filterOffsets: seq<nat>
    ghost var pending: seq<Bytes>
    ghost var groups: seq<seq<Bytes>>
    ghost var blockOffset: nat
    ghost var added: set<(nat, Bytes)>

    ghost predicate Valid()
      reads this
    {
      && |start| == |pending| && keys == Flat(pending) && start == Starts(pending)
      && result == Filters(policy, groups) && filterOffsets == Offsets(policy, groups)
      && blockOffset / BASE == |groups| && Placed(added, groups, pending)
    }

    constructor (policy: Policy)
      ensures Valid() && this.policy == policy && added == {} && blockOffset == 0
    {
      this.policy := policy;
      keys, start, result, filterOffsets := [], [], [], [];
      pending, groups, blockOffset, added := [], [], 0, {};
    }

    // Filters for the ranges before the one the block starts in are finished.
    method StartBlock(offset: nat)
      requires Valid() && blockOffset <= offset
      modifies this
      ensures Valid() && blockOffset == offset && added == old(added)
    {
      var filterIndex := offset / BASE;
      while filterIndex > |filterOffsets|
        invariant |start| == |pending| && keys == Flat(pending) && start == Starts(pending)
        invariant result == Filters(policy, groups) && filterOffsets == Offsets(policy, groups)
        invariant |groups| <= filterIndex && Placed(added, groups, pending) && added == old(added)
        decreases filterIndex - |filterOffsets|
      {
        GenerateFilter();
      }
      blockOffset := offset;
    }

    method AddKey(key: Bytes)
      requires Valid()
      modifies this
      ensures Valid() && blockOffset == old(blockOffset) && added == old(added) + {(blockOffset, key)}
    {
      start := start + [|keys|];
      keys := keys + key;
      FlatAppends(pending, key);
      pending := pending + [key];
      added := added + {(blockOffset, key)};
    }

    method GenerateFilter()
      requires |start| == |pending| && keys == Flat(pending) && start == Starts(pending)
      requires result == Filters(policy, groups) && filterOffsets == Offsets(policy, groups)
      requires Placed(added, groups, pending)
      modifies this
      ensures added == old(added) && blockOffset == old(blockOffset)
      ensures groups == old(groups) + [old(pending)] && pending == [] && keys == [] && start == []
      ensures result == Filters(policy, groups) && filterOffsets == Offsets(policy, groups)
      ensures Placed(added, groups, pending)
    {
      groups := groups + [pending];
      FiltersAppend(policy, old(groups), pending);
      filterOffsets := filterOffsets + [|result|];
      if |start| != 0 {
        var tmpKeys := SplitKeys();
        result := result + policy.create(tmpKeys);
        keys, start := [], [];
      }
      pending := [];
    }

    // The list of keys from the flattened form.
    method SplitKeys() returns (tmpKeys: seq<Bytes>)
      requires |start| == |pending| && keys == Flat(pending) && start == Starts(pending)
      ensures tmpKeys == pending
    {
      var starts := start + [|keys|];
      tmpKeys := [];
      for i := 0 to |start|
        invariant tmpKeys == pending[..i]
      {
        KeyInPlace(pending, i);
        tmpKeys := tmpKeys + [keys[starts[i]..starts[i + 1]]];
      }
    }

    method Finish() returns (contents: Bytes)
      requires Valid()
      modifies this
      ensures contents == Finished(policy, groups) && added == old(added) && Placed(added, groups, [])
    {
      if |start| != 0 {
        GenerateFilter();
      }
      hide Filters, Offsets, Placed, EncodeOffsets, Fixed32;
      var arrayOffset := |result|;
      AppendOffsets();
      Regroup(Filters(policy, groups), EncodeOffsets(filterOffsets), Fixed32(arrayOffset), [BASE_LG]);
      result := result + Fixed32(arrayOffset);
      result := result + [BASE_LG];
      contents := result;
    }

    method AppendOffsets()
      modifies this`result
      ensures result == old(result) + EncodeOffsets(filterOffsets)
    {
      assert EncodeOffsets(filterOffsets[..0]) == [];
      for i := 0 to |filterOffsets|
        invariant result == old(result) + EncodeOffsets(filterOffsets[..i])
      {
        assert filterOffsets[..i + 1][..i] == filterOffsets[..i];
        result := result + Fixed32(filterOffsets[i]);
      }
      assert filterOffsets[..|filterOffsets|] == filterOffsets;
    }
  }

  // No false negatives for the block a key went to, through the sharing of filters between blocks.
  lemma AddedKeysMatch(p: Policy, groups: seq<seq<Bytes>>, added: set<(nat, Bytes)>, offset: nat, key: Bytes, sought: Bytes)
    requires NoFalseNegatives(p, _ => true)
    requires Placed(added, groups, []) && (offset, key) in added && UserKeyOf(sought) == UserKeyOf(key)
    requires |Finished(InternalPolicy(p), groups)| < TWO32
    ensures KeyMayMatch(InternalPolicy(p), Finished(InternalPolicy(p), groups), offset, sought)
  {
    var q := InternalPolicy(p);
    var i := offset / BASE;
    ReadsFilter(q, groups, offset, sought);
    InternalIsSound(p, groups[i], sought, key);
  }
}
