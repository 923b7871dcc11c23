/** The hash table of the cache: buckets of handles, doubled when there are more handles than buckets. */
module HandleTables {
  import opened Keys

  class LRUHandle {
    const key: Bytes
    const hash: nat
    const charge: nat
    var refs: nat
    var inCache: bool
    // how often the deleter has been called
    ghost var deletions: nat

    constructor (key: Bytes, hash: nat, charge: nat)
      ensures this.key == key && this.hash == hash && this.charge == charge
      ensures refs == 1 && !inCache && deletions == 0
    {
      this.key, this.hash, this.charge := key, hash, charge;
      refs, inCache, deletions := 1, false, 0;
    }
  }

  predicate Matches(h: LRUHandle, key: Bytes, hash: nat) {
    h.hash == hash && h.key == key
  }

  function Members(bucket: seq<LRUHandle>): set<LRUHandle> {
    set h | h in bucket
  }

  function AllMembers(buckets: seq<seq<LRUHandle>>): set<LRUHandle> {
    set i, h | 0 <= i < |buckets| && h in buckets[i] :: h
  }

  // No two handles match the same key, and none is listed twice.
  ghost predicate NoRepeats(bucket: seq<LRUHandle>) {
    forall i, j :: 0 <= i < j < |bucket| ==> !Matches(bucket[i], bucket[j].key, bucket[j].hash)
  }

  ghost predicate Hashed(buckets: seq<seq<LRUHandle>>) {
    && |buckets| > 0
    && (forall i: nat, h :: i < |buckets| && h in buckets[i] ==> h.hash % |buckets| == i)
    && (forall i: nat :: i < |buckets| ==> NoRepeats(buckets[i]))
  }

  function Count(buckets: seq<seq<LRUHandle>>): nat {
    if buckets == [] then 0 else Count(buckets[..|buckets| - 1]) + |buckets[|buckets| - 1]|
  }

  lemma {:induction false} CountUpdate(buckets: seq<seq<LRUHandle>>, i: nat, b: seq<LRUHandle>)
    requires i < |buckets|
    ensures Count(buckets[i := b]) == Count(buckets) - |buckets[i]| + |b|
  {
    var n := |buckets| - 1;
    if i < n {
      CountUpdate(buckets[..n], i, b);
      assert buckets[i := b][..n] == buckets[..n][i := b];
    } else {
      assert buckets[i := b][..n] == buckets[..n];
    }
  }

  lemma {:induction false} CountEmpty(n: nat)
    ensures Count(Empty(n)) == 0 && AllMembers(Empty(n)) == {}
  {
    if n > 0 {
      CountEmpty(n - 1);
      assert Empty(n)[..n - 1] == Empty(n - 1);
    }
  }

  function Empty(n: nat): (r: seq<seq<LRUHandle>>)
    ensures |r| == n && forall i :: 0 <= i < n ==> r[i] == []
  {
    seq(n, _ => [])
  }

  lemma UpdateMembers(buckets: seq<seq<LRUHandle>>, i: nat, b: seq<LRUHandle>, gone: set<LRUHandle>, come: set<LRUHandle>)
    requires Hashed(buckets) && i < |buckets| && Members(b) == Members(buckets[i]) - gone + come
    requires gone <= Members(buckets[i]) && NoRepeats(b) && forall h :: h in come ==> h.hash % |buckets| == i
    ensures Hashed(buckets[i := b])
    ensures AllMembers(buckets[i := b]) == AllMembers(buckets) - gone + come
  {
    var after := buckets[i := b];
    forall k: nat, h: LRUHandle | k < |after| && h in after[k]
      ensures h.hash % |after| == k
    {
      assert k == i ==> h in Members(b);
    }
    forall h
      ensures h in AllMembers(after) <==> h in AllMembers(buckets) - gone + come
    {
      if h in AllMembers(after) {
        var k :| 0 <= k < |after| && h in after[k];
        assert k != i ==> h in buckets[k];
        assert k == i ==> h in Members(b);
        assert h in gone ==> h in Members(buckets[i]);
      }
      if h in AllMembers(buckets) - gone + come {
        if h in come {
          assert h in Members(b) && h in after[i];
        } else {
          var k :| 0 <= k < |buckets| && h in buckets[k];
          assert k == i ==> h in Members(b);
          assert h in after[k];
        }
      }
    }
  }

  lemma AtMostOne(buckets: seq<seq<LRUHandle>>, a: LRUHandle, b: LRUHandle)
    requires Hashed(buckets) && a in AllMembers(buckets) && b in AllMembers(buckets) && Matches(a, b.key, b.hash)
    ensures a == b
  {
    var i :| 0 <= i < |buckets| && a in buckets[i];
    var j :| 0 <= j < |buckets| && b in buckets[j];
    assert i == a.hash % |buckets| == j;
  }

  class HandleTable {
    var list: seq<seq<LRUHandle>>
    var elems: nat

    ghost predicate Valid()
      reads this
    {
      Hashed(list) && elems == Count(list)
    }

    ghost function Handles(): set<LRUHandle>
      reads this
    {
      AllMembers(list)
    }

    constructor ()
      ensures Valid() && Handles() == {}
    {
      list, elems := Empty(4), 0;
      CountEmpty(4);
    }

    // The bucket of the key and the position in it of the handle that matches, or the bucket's end.
    method FindPointer(key: Bytes, hash: nat) returns (i: nat, j: nat)
      requires Valid()
      ensures i == hash % |list| && j <= |list[i]|
      ensures j < |list[i]| ==> Matches(list[i][j], key, hash)
      ensures j == |list[i]| ==> forall h :: h in Handles() ==> !Matches(h, key, hash)
    {
      i := hash % |list|;
      j := 0;
      while j < |list[i]| && !(list[i][j].hash == hash && list[i][j].key == key)
        invariant j <= |list[i]| && forall k :: 0 <= k < j ==> !Matches(list[i][k], key, hash)
      {
        j := j + 1;
      }
    }

    method Lookup(key: Bytes, hash: nat) returns (r: LRUHandle?)
      requires Valid()
      ensures r != null ==> r in Handles() && r.key == key && r.hash == hash
      ensures r == null ==> forall h :: h in Handles() ==> h.key != key || h.hash != hash
    {
      var i, j := FindPointer(key, hash);
      r := null;
      if j < |list[i]| {
        assert list[i][j] in list[i];
        r := list[i][j];
      }
    }

    // A handle that matches the same key gives up its place.
    method Insert(h: LRUHandle) returns (replaced: LRUHandle?)
      requires Valid()
      modifies this
      ensures Valid()
      ensures replaced != null ==> replaced in old(Handles()) && replaced.key == h.key && replaced.hash == h.hash
      ensures replaced == null ==> forall x :: x in old(Handles()) ==> x.key != h.key || x.hash != h.hash
      ensures Handles() == old(Handles()) - (if replaced == null then {} else {replaced}) + {h}
      // there are always at least as many buckets as handles
      ensures old(elems <= |list|) ==> elems <= |list|
    {
      var i, j := FindPointer(h.key, h.hash);
      var bucket := list[i];
      if j < |bucket| {
        replaced := bucket[j];
        ReplaceMembers(bucket, j, h);
        UpdateMembers(list, i, bucket[j := h], {replaced}, {h});
        CountUpdate(list, i, bucket[j := h]);
        list := list[i := bucket[j := h]];
      } else {
        replaced := null;
        AppendMembers(bucket, h, list);
        UpdateMembers(list, i, bucket + [h], {}, {h});
        CountUpdate(list, i, bucket + [h]);
        list := list[i := bucket + [h]];
        elems := elems + 1;
        if elems > |list| {
          Resize();
        }
      }
    }

    method Remove(key: Bytes, hash: nat) returns (r: LRUHandle?)
      requires Valid()
      modifies this
      ensures Valid()
      ensures r != null ==> r in old(Handles()) && r.key == key && r.hash == hash && Handles() == old(Handles()) - {r}
      ensures r == null ==> Handles() == old(Handles()) && forall h :: h in Handles() ==> h.key != key || h.hash != hash
    {
      var i, j := FindPointer(key, hash);
      var bucket := list[i];
      r := null;
      if j < |bucket| {
        r := bucket[j];
        RemoveMembers(bucket, j);
        UpdateMembers(list, i, bucket[..j] + bucket[j + 1..], {r}, {});
        CountUpdate(list, i, bucket[..j] + bucket[j + 1..]);
        list := list[i := bucket[..j] + bucket[j + 1..]];
        elems := elems - 1;
      }
    }

    // Spreads the handles over a larger array of buckets, each pushed to the front of its new one.
    method Resize()
      requires Valid()
      modifies this
      ensures Valid() && Handles() == old(Handles()) && elems == old(elems)
      ensures |list| >= elems && |list| >= 4
    {
      var newLength := 4;
      while newLength < elems
        invariant newLength >= 4
        decreases elems - newLength
      {
        newLength := newLength * 2;
      }
      var newList := Empty(newLength);
      CountEmpty(newLength);
      assert AllMembers(list[..0]) == {};
      for i := 0 to |list|
        invariant list == old(list) && elems == old(elems) && |newList| == newLength
        invariant Hashed(newList) && AllMembers(newList) == AllMembers(list[..i]) && Count(newList) == Count(list[..i])
      {
        newList := MoveBucket(newList, i);
      }
      assert list[..|list|] == list;
      list := newList;
    }

    // Moves one bucket of the old list.
    method MoveBucket(newList0: seq<seq<LRUHandle>>, i: nat) returns (newList: seq<seq<LRUHandle>>)
      requires Hashed(list) && i < |list|
      requires Hashed(newList0) && AllMembers(newList0) == AllMembers(list[..i]) && Count(newList0) == Count(list[..i])
      ensures |newList| == |newList0|
      ensures Hashed(newList) && AllMembers(newList) == AllMembers(list[..i + 1]) && Count(newList) == Count(list[..i + 1])
    {
      hide Hashed, AllMembers, Members, Count;
      newList := newList0;
      var bucket := list[i];
      EmptyMembers();
      for j := 0 to |bucket|
        invariant |newList| == |newList0| && Hashed(newList)
        invariant AllMembers(newList) == AllMembers(list[..i]) + Members(bucket[..j])
        invariant Count(newList) == Count(list[..i]) + j
      {
        var h := bucket[j];
        MoveHandle(list, i, j, newList);
        var k := h.hash % |newList|;
        newList := newList[k := [h] + newList[k]];
      }
      assert bucket[..|bucket|] == bucket;
      CountStep(list, i);
      MembersStep(list, i);
    }
  }

  lemma MembersStep(buckets: seq<seq<LRUHandle>>, i: nat)
    requires i < |buckets|
    ensures AllMembers(buckets[..i + 1]) == AllMembers(buckets[..i]) + Members(buckets[i])
  {
    forall h
      ensures h in AllMembers(buckets[..i + 1]) <==> h in AllMembers(buckets[..i]) + Members(buckets[i])
    {
      if h in AllMembers(buckets[..i + 1]) {
        var k :| 0 <= k < i + 1 && h in buckets[..i + 1][k];
        assert k < i ==> h in buckets[..i][k];
      }
      if h in AllMembers(buckets[..i]) {
        var k :| 0 <= k < i && h in buckets[..i][k];
        assert h in buckets[..i + 1][k];
      }
      if h in Members(buckets[i]) {
        assert h in buckets[..i + 1][i];
      }
    }
  }

  // A handle still to be moved matches none that was moved.
  lemma EmptyMembers()
    ensures Members([]) == {}
  {
  }

  lemma CountStep(buckets: seq<seq<LRUHandle>>, i: nat)
    requires i < |buckets|
    ensures Count(buckets[..i + 1]) == Count(buckets[..i]) + |buckets[i]|
  {
    assert buckets[..i + 1][..i] == buckets[..i];
  }

  // One handle goes from the old buckets to the front of its new one.
  lemma MoveHandle(buckets: seq<seq<LRUHandle>>, i: nat, j: nat, moved: seq<seq<LRUHandle>>)
    requires Hashed(buckets) && i < |buckets| && j < |buckets[i]| && Hashed(moved)
    requires AllMembers(moved) == AllMembers(buckets[..i]) + Members(buckets[i][..j])
    ensures |moved| > 0
    ensures var h := buckets[i][j];
      var k := h.hash % |moved|;
      var after := moved[k := [h] + moved[k]];
      && Hashed(after) && AllMembers(after) == AllMembers(buckets[..i]) + Members(buckets[i][..j + 1])
      && Count(after) == Count(moved) + 1
  {
    var h := buckets[i][j];
    assert |moved| > 0;
    var k := h.hash % |moved|;
    NotMovedYet(buckets, i, j, moved);
    PushMembers(moved[k], h, moved);
    UpdateMembers(moved, k, [h] + moved[k], {}, {h});
    CountUpdate(moved, k, [h] + moved[k]);
    hide Hashed, AllMembers;
    assert Members(buckets[i][..j + 1]) == Members(buckets[i][..j]) + {h};
  }

  lemma NotMovedYet(buckets: seq<seq<LRUHandle>>, i: nat, j: nat, moved: seq<seq<LRUHandle>>)
    requires Hashed(buckets) && i < |buckets| && j < |buckets[i]|
    requires AllMembers(moved) == AllMembers(buckets[..i]) + Members(buckets[i][..j])
    ensures forall x :: x in AllMembers(moved) ==> !Matches(x, buckets[i][j].key, buckets[i][j].hash)
  {
    var h := buckets[i][j];
    forall x | x in AllMembers(moved)
      ensures !Matches(x, h.key, h.hash)
    {
      if x in AllMembers(buckets[..i]) {
        var k :| 0 <= k < i && x in buckets[..i][k];
        assert x in buckets[k] && x.hash % |buckets| == k && h.hash % |buckets| == i;
      } else {
        var k :| 0 <= k < j && buckets[i][k] == x;
      }
    }
  }

  lemma ReplaceMembers(bucket: seq<LRUHandle>, j: nat, h: LRUHandle)
    requires NoRepeats(bucket) && j < |bucket| && Matches(bucket[j], h.key, h.hash)
    ensures NoRepeats(bucket[j := h]) && Members(bucket[j := h]) == Members(bucket) - {bucket[j]} + {h}
  {
    var after := bucket[j := h];
    forall x
      ensures x in Members(after) <==> x in Members(bucket) - {bucket[j]} + {h}
    {
      if x in Members(bucket) && x != bucket[j] {
        var k :| 0 <= k < |bucket| && bucket[k] == x;
        assert after[k] == x;
      }
      if x == h {
        assert after[j] == x;
      }
    }
  }

  lemma AppendMembers(bucket: seq<LRUHandle>, h: LRUHandle, buckets: seq<seq<LRUHandle>>)
    requires NoRepeats(bucket) && bucket in buckets && forall x :: x in AllMembers(buckets) ==> !Matches(x, h.key, h.hash)
    ensures NoRepeats(bucket + [h]) && Members(bucket + [h]) == Members(bucket) - {} + {h}
  {
    var i :| 0 <= i < |buckets| && buckets[i] == bucket;
    forall k | 0 <= k < |bucket|
      ensures !Matches(bucket[k], h.key, h.hash)
    {
      assert bucket[k] in buckets[i];
    }
  }

  lemma PushMembers(bucket: seq<LRUHandle>, h: LRUHandle, buckets: seq<seq<LRUHandle>>)
    requires NoRepeats(bucket) && bucket in buckets && forall x :: x in AllMembers(buckets) ==> !Matches(x, h.key, h.hash)
    ensures NoRepeats([h] + bucket) && Members([h] + bucket) == Members(bucket) - {} + {h}
  {
    var i :| 0 <= i < |buckets| && buckets[i] == bucket;
    forall k | 0 <= k < |bucket|
      ensures !Matches(h, bucket[k].key, bucket[k].hash)
    {
      assert bucket[k] in buckets[i];
    }
  }

  lemma RemoveMembers(bucket: seq<LRUHandle>, j: nat)
    requires NoRepeats(bucket) && j < |bucket|
    ensures NoRepeats(bucket[..j] + bucket[j + 1..])
    ensures Members(bucket[..j] + bucket[j + 1..]) == Members(bucket) - {bucket[j]} + {}
  {
    var after := bucket[..j] + bucket[j + 1..];
    forall x
      ensures x in Members(after) <==> x in Members(bucket) - {bucket[j]}
    {
      if x in Members(bucket) && x != bucket[j] {
        var k :| 0 <= k < |bucket| && bucket[k] == x;
        assert after[if k < j then k else k - 1] == x;
      }
    }
  }
}
