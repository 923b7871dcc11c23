/** One shard of the block cache. The two lists are sequences here, oldest entry first. */
module LruCache {
  import opened Keys
  import opened HandleTables

  function TotalCharge(list: seq<LRUHandle>): nat {
    if list == [] then 0 else TotalCharge(list[..|list| - 1]) + list[|list| - 1].charge
  }

  lemma {:induction false} ChargesAdd(a: seq<LRUHandle>, b: seq<LRUHandle>)
    ensures TotalCharge([]) == 0 && TotalCharge(a + b) == TotalCharge(a) + TotalCharge(b)
    ensures |b| == 1 ==> TotalCharge(b) == b[0].charge
  {
    if b == [] {
      assert a + b == a;
    } else {
      assert (a + b)[..|a + b| - 1] == a + b[..|b| - 1];
      ChargesAdd(a, b[..|b| - 1]);
    }
  }

  function Without(list: seq<LRUHandle>, e: LRUHandle): seq<LRUHandle> {
    if list == [] then []
    else
      var n := |list| - 1;
      if list[n] == e then list[..n] else Without(list[..n], e) + [list[n]]
  }

  ghost predicate NoDuplicates(list: seq<LRUHandle>) {
    forall i, j :: 0 <= i < j < |list| ==> list[i] != list[j]
  }

  lemma {:induction false} WithoutFacts(list: seq<LRUHandle>, e: LRUHandle)
    requires NoDuplicates(list)
    ensures NoDuplicates(Without(list, e)) && Members(Without(list, e)) == Members(list) - {e}
    ensures TotalCharge(Without(list, e)) == TotalCharge(list) - if e in list then e.charge else 0
  {
    if list != [] {
      var n := |list| - 1;
      WithoutFacts(list[..n], e);
      assert Members(list) == Members(list[..n]) + {list[n]};
      if list[n] != e {
        var r := Without(list[..n], e);
        assert Without(list, e) == r + [list[n]];
        assert (r + [list[n]])[..|r|] == r;
        assert Members(r + [list[n]]) == Members(r) + {list[n]};
        assert list[n] !in Members(list[..n]);
      }
    }
  }

  // The list without e, element by element.
  lemma WithoutElements(list: seq<LRUHandle>, e: LRUHandle)
    requires NoDuplicates(list)
    ensures forall h :: h in Without(list, e) <==> h in list && h != e
  {
  }

  // Moving a handle from one list to the other.
  lemma MoveFacts(cached: set<LRUHandle>, a: seq<LRUHandle>, b: seq<LRUHandle>, e: LRUHandle)
    requires Partition(cached, a, b) && e in a
    ensures Partition(cached, Without(a, e), b + [e])
    ensures TotalCharge(Without(a, e)) + TotalCharge(b + [e]) == TotalCharge(a) + TotalCharge(b)
    ensures forall h :: h in Without(a, e) <==> h in a && h != e
  {
    hide TotalCharge;
    assert e in Members(a);
    assert e !in b by { assert e !in Members(b); }
    WithoutFacts(a, e);
    WithoutElements(a, e);
    AppendFacts(b, e);
  }

  lemma PartitionSwaps(cached: set<LRUHandle>, a: seq<LRUHandle>, b: seq<LRUHandle>)
    ensures Partition(cached, a, b) ==> Partition(cached, b, a)
  {
  }

  // Taking a handle out of the cache.
  lemma DropFacts(cached: set<LRUHandle>, a: seq<LRUHandle>, b: seq<LRUHandle>, e: LRUHandle)
    requires Partition(cached + {e}, a, b) && e !in cached
    ensures Partition(cached, Without(a, e), Without(b, e))
    ensures TotalCharge(Without(a, e)) + TotalCharge(Without(b, e)) == TotalCharge(a) + TotalCharge(b) - e.charge
    ensures forall h :: h in Without(a, e) ==> h in a && h != e
    ensures forall h :: h in Without(b, e) ==> h in b && h != e
  {
    hide TotalCharge, Without;
    WithoutFacts(a, e);
    WithoutFacts(b, e);
    WithoutElements(a, e);
    WithoutElements(b, e);
    InOneList(cached + {e}, a, b, e);
    var x, y := Without(a, e), Without(b, e);
    assert Members(x) + Members(y) == Members(a) + Members(b) - {e};
    hide Members, NoDuplicates;
  }

  lemma AppendFacts(list: seq<LRUHandle>, e: LRUHandle)
    ensures Members(list + [e]) == Members(list) + {e} && TotalCharge(list + [e]) == TotalCharge(list) + e.charge
    ensures NoDuplicates(list) && e !in list ==> NoDuplicates(list + [e])
  {
  }

  lemma {:induction false} WithoutFirst(list: seq<LRUHandle>)
    requires NoDuplicates(list) && list != []
    ensures Without(list, list[0]) == list[1..]
  {
    var n := |list| - 1;
    if n > 0 {
      WithoutFirst(list[..n]);
      assert list[..n][1..] + [list[n]] == list[1..];
    }
  }

  class Cache {
    var capacity: nat
    var usage: nat
    var lru: seq<LRUHandle>
    var inUse: seq<LRUHandle>
    const table: HandleTable
    // every handle ever made, and the references that clients hold
    ghost var handles: set<LRUHandle>
    ghost var clients: map<LRUHandle, nat>

    ghost predicate Valid()
      reads this, table, handles
    {
      table.Valid() && ValidFor(table.Handles())
    }

    // cached are the handles that count as being in the cache.
    ghost predicate ValidFor(cached: set<LRUHandle>)
      reads this, handles
    {
      && cached <= handles && clients.Keys == handles
      && Partition(cached, lru, inUse) && usage == TotalCharge(lru) + TotalCharge(inUse)
      && (forall h :: h in handles ==> Counted(h, h in cached))
      && (forall h :: h in lru ==> h.refs == 1)
      && (forall h :: h in inUse ==> h.refs >= 2)
    }

    // Reference counts, and the deleter called once when the count has come to zero.
    ghost predicate Counted(h: LRUHandle, cached: bool)
      requires h in clients
      reads this, h
    {
      && h.inCache == cached
      && h.refs == clients[h] + (if h.inCache then 1 else 0)
      && h.deletions == if h.refs == 0 then 1 else 0
    }

    constructor ()
      ensures Valid() && capacity == 0 && handles == {} && fresh(table)
    {
      capacity, usage, lru, inUse := 0, 0, [], [];
      table := new HandleTable();
      handles, clients := {}, map[];
    }

    method SetCapacity(n: nat)
      requires Valid()
      modifies this`capacity
      ensures Valid() && capacity == n
    {
      capacity := n;
    }

    method Ref(e: LRUHandle)
      requires Valid() && e in table.Handles()
      modifies this`lru, this`inUse, this`clients, e
      ensures Valid() && clients == old(clients)[e := old(clients[e]) + 1]
      ensures lru == Without(old(lru), e)
    {
      hide TotalCharge, Partition, HandleTable.Valid, Without;
      WithoutOther(lru, e);
      InOneList(table.Handles(), lru, inUse, e);
      assert Counted(e, true);
      if e.refs == 1 && e.inCache {
        MoveFacts(table.Handles(), lru, inUse, e);
        lru := Without(lru, e);
        inUse := inUse + [e];
      }
      e.refs := e.refs + 1;
      clients := clients[e := clients[e] + 1];
    }

    method Unref(e: LRUHandle)
      requires e.refs > 0 && (e.refs == 1 ==> !e.inCache)
      modifies this`lru, this`inUse, e
      ensures e.refs == old(e.refs) - 1 && e.inCache == old(e.inCache)
      ensures e.deletions == old(e.deletions) + if e.refs == 0 then 1 else 0
      ensures if e.inCache && e.refs == 1 then inUse == Without(old(inUse), e) && lru == old(lru) + [e]
              else inUse == old(inUse) && lru == old(lru)
    {
      e.refs := e.refs - 1;
      if e.refs == 0 {
        e.deletions := e.deletions + 1;
      } else if e.inCache && e.refs == 1 {
        inUse := Without(inUse, e);
        lru := lru + [e];
      }
    }

    method Lookup(key: Bytes, hash: nat) returns (e: LRUHandle?)
      requires Valid()
      modifies this`lru, this`inUse, this`clients, handles
      ensures Valid() && table.Handles() == old(table.Handles())
      ensures e == null ==> (forall h :: h in table.Handles() ==> h.key != key || h.hash != hash) && clients == old(clients) && lru == old(lru)
      ensures e != null ==> e in table.Handles() && e.key == key && e.hash == hash
                            && clients == old(clients)[e := old(clients[e]) + 1] && lru == Without(old(lru), e)
    {
      e := table.Lookup(key, hash);
      if e != null {
        Ref(e);
      }
    }

    method Release(e: LRUHandle)
      requires Valid() && e in handles && clients[e] > 0
      modifies this`lru, this`inUse, this`clients, e
      ensures Valid() && clients == old(clients)[e := old(clients[e]) - 1]
      ensures lru == if e in table.Handles() && clients[e] == 0 then old(lru) + [e] else old(lru)
    {
      hide TotalCharge, Partition, HandleTable.Valid, Without;
      InOneList(table.Handles(), lru, inUse, e);
      assert Counted(e, e in table.Handles());
      assert e !in lru && (e.inCache ==> e in inUse);
      if e in inUse {
        PartitionSwaps(table.Handles(), lru, inUse);
        MoveFacts(table.Handles(), inUse, lru, e);
        PartitionSwaps(table.Handles(), Without(inUse, e), lru + [e]);
      }
      clients := clients[e := clients[e] - 1];
      Unref(e);
      StillInUse(table.Handles(), old(lru), old(inUse), e);
      assert e in inUse ==> e.refs >= 2;
    }

    // e has left the hash table already.
    method FinishErase(e: LRUHandle)
      requires table.Valid() && e !in table.Handles() && ValidFor(table.Handles() + {e})
      modifies this`lru, this`inUse, this`usage, e
      ensures Valid() && lru == Without(old(lru), e)
      ensures usage == old(usage) - e.charge
    {
      hide TotalCharge, Partition;
      DropFacts(table.Handles(), lru, inUse, e);
      assert Counted(e, true);
      lru := Without(lru, e);
      inUse := Without(inUse, e);
      e.inCache := false;
      usage := usage - e.charge;
      Unref(e);
    }

    method Erase(key: Bytes, hash: nat)
      requires Valid()
      modifies this`lru, this`inUse, this`usage, table, handles
      ensures Valid() && clients == old(clients)
      ensures table.Handles() == set h | h in old(table.Handles()) && (h.key != key || h.hash != hash)
    {
      ghost var before := table.list;
      var e := table.Remove(key, hash);
      if e != null {
        assert table.Handles() + {e} == old(table.Handles());
        FinishErase(e);
      }
    }

    // Returns a handle that the client holds. An entry with the same key is replaced; the oldest
    // entries nobody holds make room, and no more of them than needed. Capacity zero turns caching off.
    method Insert(key: Bytes, hash: nat, charge: nat)
      returns (e: LRUHandle, ghost replaced: LRUHandle?, ghost evicted: seq<LRUHandle>)
      requires Valid()
      modifies this`lru, this`inUse, this`usage, this`clients, this`handles, table, handles
      ensures Valid() && fresh(e) && e.key == key && e.hash == hash && e.charge == charge
      ensures handles == old(handles) + {e} && clients == old(clients)[e := 1]
      ensures replaced != null ==> replaced in old(table.Handles()) && replaced.key == key && replaced.hash == hash
      ensures capacity > 0 && replaced == null ==> forall h :: h in old(table.Handles()) ==> h.key != key || h.hash != hash
      ensures evicted + lru == if replaced == null then old(lru) else Without(old(lru), replaced)
      ensures table.Handles() == old(table.Handles()) - (if replaced == null then {} else {replaced})
                                 + (if capacity > 0 then {e} else {}) - Members(evicted)
      ensures usage <= capacity || lru == []
      ensures evicted != [] ==> usage + evicted[|evicted| - 1].charge > capacity
    {
      hide Cache.Valid, Cache.ValidFor, Without;
      e := NewHandle(key, hash, charge);
      replaced, evicted := null, [];
      if capacity > 0 {
        replaced := AddToTable(e);
      }
      evicted := Evict();
    }

    // A handle outside the cache, held by the caller.
    method NewHandle(key: Bytes, hash: nat, charge: nat) returns (e: LRUHandle)
      requires Valid()
      modifies this`clients, this`handles
      ensures Valid() && fresh(e) && Matches(e, key, hash) && e.charge == charge
      ensures e !in table.Handles() && handles == old(handles) + {e} && clients == old(clients)[e := 1]
    {
      e := new LRUHandle(key, hash, charge);
      handles, clients := handles + {e}, clients[e := 1];
    }

    // Drops the oldest entries that nobody holds, until the rest fits.
    method Evict() returns (ghost evicted: seq<LRUHandle>)
      requires Valid()
      modifies this`lru, this`inUse, this`usage, table, handles
      ensures Valid() && evicted + lru == old(lru) && table.Handles() == old(table.Handles()) - Members(evicted)
      ensures usage <= capacity || lru == []
      ensures evicted != [] ==> usage + evicted[|evicted| - 1].charge > capacity
    {
      hide Cache.Valid;
      evicted := [];
      ghost var before, cached := lru, table.Handles();
      while usage > capacity && lru != []
        invariant Valid() && evicted + lru == before && table.Handles() == cached - Members(evicted)
        invariant evicted != [] ==> usage + evicted[|evicted| - 1].charge > capacity
        decreases |lru|
      {
        ghost var oldest := lru[0];
        DropOldest();
        assert before == evicted + ([oldest] + lru);
        evicted := evicted + [oldest];
      }
    }

    // The cache's own reference to a new handle.
    method Hold(e: LRUHandle)
      requires Valid() && e in handles && e !in table.Handles() && clients[e] == 1
      modifies this`inUse, this`usage, e
      ensures ValidFor(table.Handles() + {e})
    {
      hide TotalCharge, Partition;
      assert Counted(e, false);
      AddFacts(table.Handles(), lru, inUse, e);
      InOneList(table.Handles(), lru, inUse, e);
      e.refs := e.refs + 1;
      e.inCache := true;
      inUse := inUse + [e];
      usage := usage + e.charge;
    }

    method AddToTable(e: LRUHandle) returns (ghost replaced: LRUHandle?)
      requires Valid() && e in handles && e !in table.Handles() && clients[e] == 1
      modifies this`lru, this`inUse, this`usage, table, handles
      ensures Valid() && clients == old(clients)
      ensures replaced != null ==> replaced in old(table.Handles()) && Matches(replaced, e.key, e.hash)
      ensures replaced == null ==> forall h :: h in old(table.Handles()) ==> !Matches(h, e.key, e.hash)
      ensures table.Handles() == old(table.Handles()) - (if replaced == null then {} else {replaced}) + {e}
      ensures lru == if replaced == null then old(lru) else Without(old(lru), replaced)
    {
      Hold(e);
      hide Cache.ValidFor;
      ghost var before := table.Handles();
      var r := table.Insert(e);
      replaced := r;
      if r != null {
        assert table.Handles() + {r} == before + {e};
        FinishErase(r);
      } else {
        assert table.Handles() == before + {e};
      }
    }

    // Drops the entries no client holds.
    method Prune()
      requires Valid()
      modifies this`lru, this`inUse, this`usage, table, handles
      ensures Valid() && clients == old(clients) && lru == []
      ensures table.Handles() == set h | h in old(table.Handles()) && clients[h] > 0
    {
      while lru != []
        invariant Valid() && clients == old(clients) && handles == old(handles)
        invariant table.Handles() <= old(table.Handles())
        invariant forall h :: h in old(table.Handles()) && clients[h] > 0 ==> h in table.Handles()
        decreases |lru|
      {
        DropOldest();
      }
    }

    // The destructor, once every client has released its handles: each handle that was ever made
    // has been deleted exactly once.
    method Destroy()
      requires Valid() && forall h :: h in handles ==> clients[h] == 0
      modifies this`lru, this`inUse, handles
      ensures forall h :: h in handles ==> h.refs == 0 && h.deletions == 1
    {
      hide TotalCharge;
      ghost var all := lru;
      assert Members(inUse) == {};
      for i := 0 to |lru|
        invariant lru == all == old(lru) && NoDuplicates(lru) && handles == old(handles)
        invariant forall h :: h in handles && h !in Members(lru) ==> h.refs == 0 && h.deletions == 1
        invariant forall j :: 0 <= j < i ==> lru[j].refs == 0 && lru[j].deletions == 1
        invariant forall j :: i <= j < |lru| ==> lru[j].refs == 1 && lru[j].deletions == 0 && lru[j] in handles
      {
        var e := lru[i];
        e.inCache := false;
        Unref(e);
      }
    }

    // Removes the oldest entry of the list that may be evicted.
    method DropOldest()
      requires Valid() && lru != []
      modifies this`lru, this`inUse, this`usage, table, handles
      ensures Valid() && lru == old(lru[1..]) && usage == old(usage) - old(lru[0]).charge
      ensures old(lru[0]) in handles
      ensures table.Handles() == old(table.Handles()) - {old(lru[0])} && old(lru[0]) in old(table.Handles())
      ensures old(clients[lru[0]]) == 0
    {
      var e := lru[0];
      assert e in Members(lru);
      assert Counted(e, true);
      WithoutFirst(lru);
      ghost var before := table.list;
      var r := table.Remove(e.key, e.hash);
      AtMostOne(before, r, e);
      assert table.Handles() + {e} == old(table.Handles());
      FinishErase(r);
    }
  }

  lemma StillInUse(cached: set<LRUHandle>, lru: seq<LRUHandle>, inUse: seq<LRUHandle>, e: LRUHandle)
    requires Partition(cached, lru, inUse)
    ensures forall h :: h in Without(inUse, e) ==> h in inUse && h != e
  {
    WithoutFacts(inUse, e);
    forall h | h in Without(inUse, e)
      ensures h in inUse && h != e
    {
      assert h in Members(Without(inUse, e));
    }
  }

  lemma AddFacts(cached: set<LRUHandle>, lru: seq<LRUHandle>, inUse: seq<LRUHandle>, e: LRUHandle)
    requires Partition(cached, lru, inUse) && e !in cached
    ensures Partition(cached + {e}, lru, inUse + [e]) && TotalCharge(inUse + [e]) == TotalCharge(inUse) + e.charge
  {
  }

  lemma InOneList(cached: set<LRUHandle>, lru: seq<LRUHandle>, inUse: seq<LRUHandle>, e: LRUHandle)
    requires Partition(cached, lru, inUse)
    ensures e in cached <==> e in lru || e in inUse
    ensures !(e in lru && e in inUse)
  {
  }

  lemma {:induction false} WithoutOther(list: seq<LRUHandle>, e: LRUHandle)
    ensures e !in list ==> Without(list, e) == list
  {
    if list != [] {
      WithoutOther(list[..|list| - 1], e);
    }
  }

  // The cached handles are in one list or the other, and once.
  ghost predicate Partition(cached: set<LRUHandle>, lru: seq<LRUHandle>, inUse: seq<LRUHandle>) {
    && NoDuplicates(lru) && NoDuplicates(inUse) && Members(lru) !! Members(inUse) && Members(lru) + Members(inUse) == cached
  }
}