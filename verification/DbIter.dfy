/** DBIter: a bidirectional cursor over the user keys that a reader at one sequence number sees. It
    drives the merging iterator over memtables and tables. */
module DbIter {
  import opened Keys
  import opened Wrappers
  import opened Versions
  import opened Cursors
  import opened Merger
  import InternalIterators

  /** What the iterator is meant to range over */

  // Which user keys an operation may land on.
  datatype Scope = All | From(key: UserKey) | Over(key: UserKey) | Under(key: UserKey)

  predicate In(sc: Scope, u: UserKey) {
    match sc
    case All => true
    case From(k) => k <= u
    case Over(k) => k < u
    case Under(k) => u < k
  }

  // A user key and its value; None when the iterator is not valid.
  type Spot = Option<(UserKey, Bytes)>

  // r is the first user key in scope, in the direction of travel, that has a value at sequence number s.
  ghost predicate Lands(es: set<Entry>, s: nat, sc: Scope, upward: bool, r: Spot) {
    match r
    case None => forall u :: In(sc, u) ==> View(es, u, s) == Absent
    case Some(kv) =>
      && In(sc, kv.0) && View(es, kv.0, s) == Present(kv.1)
      && forall u :: In(sc, u) && (if upward then u < kv.0 else u > kv.0) ==> View(es, u, s) == Absent
  }

  /** The same, in terms of positions in the internal list */

  predicate Visible(es: seq<Entry>, s: nat, i: nat) {
    i < |es| && es[i].key.seqno <= s
  }

  // Entry i is the newest visible entry of its user key, and a value.
  ghost predicate Shown(es: seq<Entry>, s: nat, i: nat) {
    && Visible(es, s, i) && es[i].key.kind == Value
    && forall j :: 0 <= j < i && es[j].key.ukey == es[i].key.ukey ==> es[j].key.seqno > s
  }

  ghost predicate GoodList(es: seq<Entry>) {
    Sorted(es) && Distinct(Elements(es))
  }

  lemma ShownIsPresent(es: seq<Entry>, s: nat, i: nat)
    requires GoodList(es) && Shown(es, s, i)
    ensures View(Elements(es), es[i].key.ukey, s) == Present(es[i].value)
  {
    var u := es[i].key.ukey;
    forall x | x in Elements(es) && Hit(x, u, s)
      ensures x.key.seqno <= es[i].key.seqno
    {
      var j :| 0 <= j < |es| && es[j] == x;
      assert j >= i;
      assert j > i ==> Less(es[i].key, es[j].key);
    }
    assert Newest(Elements(es), u, s, es[i]);
    ViewIs(Elements(es), u, s, es[i]);
  }

  lemma PresentIsShown(es: seq<Entry>, u: UserKey, s: nat)
    requires GoodList(es)
    ensures View(Elements(es), u, s) == Absent || exists i :: 0 <= i < |es| && es[i].key.ukey == u && Shown(es, s, i)
  {
  }

  lemma Ascending(es: seq<Entry>, i: nat, j: nat)
    requires GoodList(es) && i <= j < |es|
    ensures es[i].key.ukey <= es[j].key.ukey
  {
  }

  lemma LandsUp(es: seq<Entry>, s: nat, sc: Scope, p: nat)
    requires GoodList(es) && p <= |es|
    requires forall i :: 0 <= i < p && Shown(es, s, i) ==> !In(sc, es[i].key.ukey)
    requires p < |es| ==> Shown(es, s, p) && In(sc, es[p].key.ukey)
    ensures Lands(Elements(es), s, sc, true, if p < |es| then Some((es[p].key.ukey, es[p].value)) else None)
  {
    hide View, Shown;
    if p < |es| {
      ShownIsPresent(es, s, p);
    }
    forall i | 0 <= i < |es| && Shown(es, s, i) && In(sc, es[i].key.ukey)
      ensures p <= i && es[p].key.ukey <= es[i].key.ukey
    {
      Ascending(es, p, i);
    }
    forall u | In(sc, u) && (p < |es| ==> u < es[p].key.ukey)
      ensures View(Elements(es), u, s) == Absent
    {
      PresentIsShown(es, u, s);
    }
  }

  lemma LandsDown(es: seq<Entry>, s: nat, sc: Scope, m: Option<nat>)
    requires GoodList(es) && (m.Some? ==> m.value < |es|)
    requires forall i :: 0 <= i < |es| && Shown(es, s, i) && In(sc, es[i].key.ukey) ==> m.Some? && i <= m.value
    requires m.Some? ==> Shown(es, s, m.value) && In(sc, es[m.value].key.ukey)
    ensures Lands(Elements(es), s, sc, false, if m.Some? then Some((es[m.value].key.ukey, es[m.value].value)) else None)
  {
    hide View, Shown;
    if m.Some? {
      ShownIsPresent(es, s, m.value);
    }
    forall i | 0 <= i < |es| && Shown(es, s, i) && In(sc, es[i].key.ukey)
      ensures m.Some? && es[i].key.ukey <= es[m.value].key.ukey
    {
      Ascending(es, i, m.value);
    }
    forall u | In(sc, u) && (m.Some? ==> u > es[m.value].key.ukey)
      ensures View(Elements(es), u, s) == Absent
    {
      PresentIsShown(es, u, s);
    }
  }

  /** Moving forward: the state of FindNextUserEntry before it looks at position p */

  ghost predicate NoneInScope(sc: Scope, skip: UserKey) {
    forall u :: u <= skip ==> !In(sc, u)
  }

  ghost predicate Passed(es: seq<Entry>, s: nat, p: nat, u: UserKey) {
    exists d :: 0 <= d < p && Visible(es, s, d) && es[d].key.ukey == u
  }

  // Visible entries passed so far are out of scope or covered by the key to skip.
  ghost predicate Behind(es: seq<Entry>, s: nat, sc: Scope, p: nat, skipping: bool, skip: UserKey) {
    && (forall i :: 0 <= i < p <= |es| && Shown(es, s, i) ==> !In(sc, es[i].key.ukey))
    && (forall j :: 0 <= j < p <= |es| && Visible(es, s, j) ==> (skipping && es[j].key.ukey <= skip) || !In(sc, es[j].key.ukey))
    && (skipping ==> NoneInScope(sc, skip) || Passed(es, s, p, skip))
  }

  // Entries ahead are in scope or skipped; none that is visible precedes the key to skip.
  ghost predicate Ahead(es: seq<Entry>, s: nat, sc: Scope, p: nat, skipping: bool, skip: UserKey) {
    && (forall j :: p <= j < |es| ==> In(sc, es[j].key.ukey) || (skipping && es[j].key.ukey <= skip))
    && (skipping ==> forall j :: p <= j < |es| && Visible(es, s, j) ==> es[j].key.ukey >= skip)
  }

  ghost predicate Scanning(es: seq<Entry>, s: nat, sc: Scope, p: nat, skipping: bool, skip: UserKey) {
    p <= |es| && Behind(es, s, sc, p, skipping, skip) && Ahead(es, s, sc, p, skipping, skip)
  }

  lemma ScanFinds(es: seq<Entry>, s: nat, sc: Scope, p: nat, skipping: bool, skip: UserKey)
    requires GoodList(es) && Scanning(es, s, sc, p, skipping, skip) && p < |es|
    requires Visible(es, s, p) && es[p].key.kind == Value && !(skipping && es[p].key.ukey <= skip)
    ensures Shown(es, s, p) && In(sc, es[p].key.ukey)
  {
  }

  lemma ScanEnds(es: seq<Entry>, s: nat, sc: Scope, p: nat, skipping: bool, skip: UserKey)
    requires GoodList(es) && Scanning(es, s, sc, p, skipping, skip) && p <= |es|
    requires p < |es| ==> Visible(es, s, p) && es[p].key.kind == Value && !(skipping && es[p].key.ukey <= skip)
    ensures p < |es| ==> Shown(es, s, p)
    ensures Lands(Elements(es), s, sc, true, if p < |es| then Some((es[p].key.ukey, es[p].value)) else None)
  {
    if p < |es| {
      ScanFinds(es, s, sc, p, skipping, skip);
    }
    hide Shown, GoodList, In, Passed, NoneInScope, Lands;
    LandsUp(es, s, sc, p);
  }

  lemma ScanStep(es: seq<Entry>, s: nat, sc: Scope, p: nat, skipping: bool, skip: UserKey)
    requires GoodList(es) && Scanning(es, s, sc, p, skipping, skip) && p < |es|
    requires Visible(es, s, p) ==> es[p].key.kind == Deletion || (skipping && es[p].key.ukey <= skip)
    ensures Visible(es, s, p) && es[p].key.kind == Deletion ==> Scanning(es, s, sc, p + 1, true, es[p].key.ukey)
    ensures !(Visible(es, s, p) && es[p].key.kind == Deletion) ==> Scanning(es, s, sc, p + 1, skipping, skip)
  {
    HiddenIsNotShown(es, s, sc, p, skipping, skip);
    hide Shown, GoodList, In, Scanning;
    if Visible(es, s, p) && es[p].key.kind == Deletion {
      ScanDeletion(es, s, sc, p, skipping, skip);
    } else {
      ScanOver(es, s, sc, p, skipping, skip);
    }
  }

  // A deletion becomes the key to skip.
  lemma ScanDeletion(es: seq<Entry>, s: nat, sc: Scope, p: nat, skipping: bool, skip: UserKey)
    requires GoodList(es) && Scanning(es, s, sc, p, skipping, skip) && p < |es|
    requires Visible(es, s, p) && es[p].key.kind == Deletion
    ensures Scanning(es, s, sc, p + 1, true, es[p].key.ukey)
  {
    assert !Shown(es, s, p);
    assert skipping ==> skip <= es[p].key.ukey;
    hide Shown, GoodList, In, NoneInScope, Behind, Ahead;
    SkipMoreBehind(es, s, sc, p, skipping, skip);
    SkipMoreAhead(es, s, sc, p, skipping, skip);
  }

  lemma SkipMoreBehind(es: seq<Entry>, s: nat, sc: Scope, p: nat, skipping: bool, skip: UserKey)
    requires Behind(es, s, sc, p, skipping, skip) && p < |es| && (skipping ==> skip <= es[p].key.ukey)
    requires Visible(es, s, p) && !Shown(es, s, p)
    ensures Behind(es, s, sc, p + 1, true, es[p].key.ukey)
  {
  }

  lemma SkipMoreAhead(es: seq<Entry>, s: nat, sc: Scope, p: nat, skipping: bool, skip: UserKey)
    requires GoodList(es) && Ahead(es, s, sc, p, skipping, skip) && p < |es| && (skipping ==> skip <= es[p].key.ukey)
    ensures Ahead(es, s, sc, p + 1, true, es[p].key.ukey)
  {
  }

  lemma ScanOver(es: seq<Entry>, s: nat, sc: Scope, p: nat, skipping: bool, skip: UserKey)
    requires Scanning(es, s, sc, p, skipping, skip) && p < |es|
    requires Visible(es, s, p) ==> skipping && es[p].key.ukey <= skip
    requires Shown(es, s, p) ==> !In(sc, es[p].key.ukey)
    ensures Scanning(es, s, sc, p + 1, skipping, skip)
  {
  }

  lemma HiddenIsNotShown(es: seq<Entry>, s: nat, sc: Scope, p: nat, skipping: bool, skip: UserKey)
    requires GoodList(es) && Scanning(es, s, sc, p, skipping, skip) && p < |es|
    requires Visible(es, s, p) ==> es[p].key.kind == Deletion || (skipping && es[p].key.ukey <= skip)
    ensures Shown(es, s, p) ==> !In(sc, es[p].key.ukey)
  {
  }

  /** Moving backward: the state of FindPrevUserEntry with q entries still to look at */

  // found is the position of the last value seen, None while value_type is kTypeDeletion.
  ghost predicate Unwinding(es: seq<Entry>, s: nat, sc: Scope, q: nat, found: Option<nat>) {
    && q <= |es|
    && (forall j :: 0 <= j < q ==> In(sc, es[j].key.ukey))
    && (forall i :: q <= i < |es| && Shown(es, s, i) && In(sc, es[i].key.ukey) ==> found == Some(i))
    && (found.Some? ==>
          && q <= found.value < |es| && Visible(es, s, found.value) && es[found.value].key.kind == Value
          && In(sc, es[found.value].key.ukey)
          && forall j :: q <= j < found.value ==> !Visible(es, s, j))
  }

  // A visible entry of an earlier user key, or running out of entries, settles the key found.
  lemma UnwindFinds(es: seq<Entry>, s: nat, sc: Scope, q: nat, m: nat)
    requires GoodList(es) && Unwinding(es, s, sc, q, Some(m))
    requires q > 0 ==> es[q - 1].key.ukey < es[m].key.ukey
    ensures Shown(es, s, m)
    ensures forall i :: 0 <= i < |es| && Shown(es, s, i) && In(sc, es[i].key.ukey) ==> i <= m
  {
    forall j | 0 <= j < q
      ensures es[j].key.ukey < es[m].key.ukey
    {
      Ascending(es, j, q - 1);
    }
    forall j | 0 <= j < m && es[j].key.ukey == es[m].key.ukey
      ensures es[j].key.seqno > s
    {
      assert !Visible(es, s, j);
    }
  }

  lemma UnwindStep(es: seq<Entry>, s: nat, sc: Scope, p: nat, found: Option<nat>)
    requires GoodList(es) && Unwinding(es, s, sc, p + 1, found) && p < |es|
    requires Visible(es, s, p) && found.Some? ==> es[p].key.ukey == es[found.value].key.ukey
    ensures Unwinding(es, s, sc, p, if !Visible(es, s, p) then found else if es[p].key.kind == Deletion then None else Some(p))
  {
  }

  // Backed up before the entries of key: entries passed over on the way cannot be seen.
  ghost predicate JustBefore(es: seq<Entry>, s: nat, p: nat, key: UserKey) {
    && p <= |es|
    && (p < |es| ==> es[p].key.ukey < key)
    && forall j :: (p == |es| || j > p) && 0 <= j < |es| && es[j].key.ukey < key ==> !Visible(es, s, j)
  }

  // Reverse position: the last visible entry of a smaller user key, or the end position when there is none.
  ghost predicate AtLastVisibleBefore(es: seq<Entry>, s: nat, p: nat, key: UserKey) {
    JustBefore(es, s, p, key) && (p < |es| ==> Visible(es, s, p))
  }

  // Reverse iteration rests on the entry just before those of its key exactly when that entry is
  // visible, or when there is no entry before them.
  lemma RestsJustBeforeIff(es: seq<Entry>, s: nat, p: nat, f: nat)
    requires GoodList(es) && f < |es| && (f > 0 ==> es[f - 1].key.ukey < es[f].key.ukey)
    requires AtLastVisibleBefore(es, s, p, es[f].key.ukey)
    ensures p == PrevPos(es, f) <==> f == 0 || es[f - 1].key.seqno <= s
  {
    if p < |es| && f <= p {
      Ascending(es, f, p);
    }
    if f == 0 && p < |es| {
      Ascending(es, f, p);
    }
  }

  // Three user keys, the middle one written after the reader's sequence number 5.
  function HiddenMiddle(): seq<Entry> {
    [Entry(IKey(0, 1, Value), []), Entry(IKey(1, 9, Value), []), Entry(IKey(2, 2, Value), [])]
  }

  lemma LastKeyShown(r: Spot)
    requires Lands(Elements(HiddenMiddle()), 5, All, false, r)
    ensures r == Some((2, []))
  {
    hide View;
    var list := HiddenMiddle();
    ShownIsPresent(list, 5, 2);
    assert r.Some? && r.value.0 >= 2;
    PresentIsShown(list, r.value.0, 5);
  }

  // The last key is shown, and the internal iterator is two entries before it, not one.
  method LastKeyRestsEarly() returns (it: DBIter)
    ensures it.list == HiddenMiddle() && it.sequence == 5 && it.Valid() && it.valid && !it.forward
    ensures it.savedKey == 2 && it.list[2].key.ukey == 2 && PrevPos(it.list, 2) == 1 && it.pos == 0
  {
    var list := HiddenMiddle();
    hide Shown, View, GoodList, Lands, GoodChildren, Merger.Settled, Union, HiddenMiddle;
    MiddleFacts();
    InternalIterators.OneChild(list);
    it := new DBIter([list], 5);
    ListFacts(it.list);
    SortedIsUnique(list, it.list);
    it.SeekToLast();
    LastKeyShown(it.Spot());
    assert it.savedKey == 2;
    assert list[0].key.ukey < 2 && Visible(list, 5, 0);
  }

  lemma MiddleFacts()
    ensures var list := HiddenMiddle();
      && |list| == 3 && Sorted(list) && Distinct(Elements(list))
      && list[0].key == IKey(0, 1, Value) && list[1].key == IKey(1, 9, Value) && list[2].key.ukey == 2
  {
  }

  class DBIter {
    const iter: MergingIterator
    const sequence: nat
    var savedKey: UserKey
    var savedValue: Bytes
    var forward: bool
    var valid: bool
    // the entries of all children in order, and where iter stands among them
    ghost const list: seq<Entry>
    ghost var pos: nat

    ghost predicate Synced()
      reads this, iter
    {
      && iter.Valid() && GoodList(list) && Elements(list) == Union(iter.children)
      && pos <= |list| && iter.Entry() == At(list, pos)
    }

    ghost predicate Valid()
      reads this, iter
    {
      && Synced()
      && (valid && forward ==> Shown(list, sequence, pos))
      && (valid && !forward ==> AtLastVisibleBefore(list, sequence, pos, savedKey)
                                && View(Elements(list), savedKey, sequence) == Present(savedValue))
    }

    function Key(): UserKey
      reads this, iter
      requires Valid() && valid
    {
      if forward then iter.Entry().value.key.ukey else savedKey
    }

    // The current user key and value.
    function Spot(): Spot
      reads this, iter
      requires Valid()
    {
      if !valid then None
      else if forward then Some((Key(), iter.Entry().value.value))
      else Some((Key(), savedValue))
    }

    constructor (children: seq<seq<Entry>>, sequence: nat)
      requires GoodChildren(children) && Distinct(Union(children))
      ensures Valid() && !valid && fresh(iter) && iter.children == children && this.sequence == sequence
    {
      ghost var l := SortedList(Union(children));
      iter := new MergingIterator(children);
      this.sequence := sequence;
      savedKey, savedValue, forward, valid := 0, [], true, false;
      list, pos := l, |l|;
    }

    /** The operations of the internal iterator, as moves in the list */

    method IterSeekToFirst()
      requires Synced()
      modifies this`pos, iter
      ensures Synced() && pos == 0
    {
      hide GoodChildren, Merger.Settled, Union, GoodList;
      iter.SeekToFirst();
      ListFacts(list);
      MergesLikeOneList(iter.children, list, 0, IKey(0, 0, Value), iter.Entry());
      pos := 0;
    }

    method IterSeekToLast()
      requires Synced()
      modifies this`pos, iter
      ensures Synced() && pos == LastPos(list)
    {
      hide GoodChildren, Merger.Settled, Union, GoodList;
      iter.SeekToLast();
      ListFacts(list);
      MergesLikeOneList(iter.children, list, 0, IKey(0, 0, Value), iter.Entry());
      pos := LastPos(list);
    }

    method IterSeek(key: IKey)
      requires Synced()
      modifies this`pos, iter
      ensures Synced() && pos == SeekIndex(list, key)
    {
      hide GoodChildren, Merger.Settled, Union, GoodList, SeekIndex;
      iter.Seek(key);
      ListFacts(list);
      MergesLikeOneList(iter.children, list, 0, key, iter.Entry());
      pos := SeekIndex(list, key);
    }

    method IterNext()
      requires Synced() && iter.Entry().Some?
      modifies this`pos, iter
      ensures Synced() && pos == old(pos) + 1
    {
      hide GoodChildren, Merger.Settled, Union, GoodList;
      iter.Next();
      ListFacts(list);
      MergesLikeOneList(iter.children, list, pos, IKey(0, 0, Value), iter.Entry());
      pos := pos + 1;
    }

    method IterPrev()
      requires Synced() && iter.Entry().Some?
      modifies this`pos, iter
      ensures Synced() && old(pos) < |list| && pos == PrevPos(list, old(pos))
    {
      hide GoodChildren, Merger.Settled, Union, GoodList;
      iter.Prev();
      ListFacts(list);
      MergesLikeOneList(iter.children, list, pos, IKey(0, 0, Value), iter.Entry());
      pos := PrevPos(list, pos);
    }

    method FindNextUserEntry(skipping0: bool, skip0: UserKey, ghost sc: Scope)
      requires Synced() && iter.Entry().Some? && forward
      requires Scanning(list, sequence, sc, pos, skipping0, skip0)
      modifies this, iter
      ensures Valid() && forward && Lands(Elements(list), sequence, sc, true, Spot())
    {
      hide Scanning, View, JustBefore, Lands, In, Shown, GoodList, GoodChildren, Merger.Settled, Union;
      var skipping, skip := skipping0, skip0;
      while iter.Entry().Some?
        invariant Synced() && forward && Scanning(list, sequence, sc, pos, skipping, skip)
        decreases |list| - pos
      {
        var e := iter.Entry().value;
        if e.key.seqno <= sequence && e.key.kind == Value && !(skipping && e.key.ukey <= skip) {
          ScanEnds(list, sequence, sc, pos, skipping, skip);
          valid := true;
          return;
        }
        ScanStep(list, sequence, sc, pos, skipping, skip);
        if e.key.seqno <= sequence && e.key.kind == Deletion {
          skip := e.key.ukey;
          skipping := true;
        }
        IterNext();
      }
      ScanEnds(list, sequence, sc, pos, skipping, skip);
      valid := false;
    }

    method FindPrevUserEntry(ghost sc: Scope)
      requires Synced() && !forward
      requires Unwinding(list, sequence, sc, if pos < |list| then pos + 1 else 0, None)
      modifies this, iter
      ensures Valid() && (valid ==> !forward) && Lands(Elements(list), sequence, sc, false, Spot())
    {
      hide Unwinding, View, JustBefore, Lands, In, Shown, GoodList, GoodChildren, Merger.Settled, Union;
      var valueType := Deletion;
      ghost var found: Option<nat> := None;
      while iter.Entry().Some?
        invariant Synced() && !forward
        invariant Unwinding(list, sequence, sc, if pos < |list| then pos + 1 else 0, found)
        invariant valueType == Value <==> found.Some?
        invariant found.Some? ==> found.value < |list| && savedKey == list[found.value].key.ukey && savedValue == list[found.value].value
        decreases if pos < |list| then pos + 1 else 0
      {
        var e := iter.Entry().value;
        FoundFacts(list, sequence, sc, pos + 1, found);
        if e.key.seqno <= sequence {
          if valueType != Deletion && e.key.ukey < savedKey {
            break;
          }
        }
        UnwindStep(list, sequence, sc, pos, found);
        if e.key.seqno <= sequence {
          valueType := e.key.kind;
          found := if valueType == Value then Some(pos) else None;
          if valueType == Value {
            savedKey := e.key.ukey;
            savedValue := e.value;
          }
        }
        IterPrev();
      }
      UnwindEnds(list, sequence, sc, pos, found);
      if valueType == Deletion {
        valid := false;
        forward := true;
      } else {
        valid := true;
      }
    }

    method SeekToFirst()
      requires Valid()
      modifies this, iter
      ensures Valid() && forward && Lands(Elements(list), sequence, All, true, Spot())
    {
      forward := true;
      IterSeekToFirst();
      if iter.Entry().Some? {
        FindNextUserEntry(false, savedKey, All);
      } else {
        LandsUp(list, sequence, All, 0);
        valid := false;
      }
    }

    method SeekToLast()
      requires Valid()
      modifies this, iter
      ensures Valid() && (valid ==> !forward) && Lands(Elements(list), sequence, All, false, Spot())
    {
      forward := false;
      IterSeekToLast();
      FindPrevUserEntry(All);
    }

    method Seek(target: UserKey)
      requires Valid()
      modifies this, iter
      ensures Valid() && forward && Lands(Elements(list), sequence, From(target), true, Spot())
    {
      forward := true;
      var key := IKey(target, sequence, SEEK_TYPE);
      IterSeek(key);
      SeekIsScanning(list, sequence, target);
      if iter.Entry().Some? {
        FindNextUserEntry(false, savedKey, From(target));
      } else {
        LandsUp(list, sequence, From(target), pos);
        valid := false;
      }
    }

    method Next()
      requires Valid() && valid
      modifies this, iter
      ensures Valid() && forward && Lands(Elements(list), sequence, Over(old(Key())), true, Spot())
    {
      hide Scanning, View, Lands, In, GoodList;
      if !forward {
        forward := true;
        ReverseIsScanning(list, sequence, pos, savedKey);
        SomethingAhead(list, sequence, pos, savedKey);
        if iter.Entry().None? {
          IterSeekToFirst();
        } else {
          IterNext();
        }
        // The source tests for the end of the list here as well; it is never reached.
        assert iter.Entry().Some?;
      } else {
        savedKey := iter.Entry().value.key.ukey;
        CurrentIsScanning(list, sequence, pos);
      }
      FindNextUserEntry(true, savedKey, Over(savedKey));
    }

    method Prev()
      requires Valid() && valid
      modifies this, iter
      ensures Valid() && (valid ==> !forward) && Lands(Elements(list), sequence, Under(old(Key())), false, Spot())
    {
      hide View, JustBefore, Lands, Shown, Unwinding, GoodList, GoodChildren, Merger.Settled, Union;
      if forward {
        CurrentIsAllFrom(list, sequence, pos);
        savedKey := iter.Entry().value.key.ukey;
        ghost var start := pos;
        while true
          invariant Synced() && pos <= start < |list| && forward && savedKey == list[start].key.ukey
          invariant AllFrom(list, pos, savedKey)
          decreases pos
        {
          IterPrev();
          if iter.Entry().None? {
            NothingUnder(list, sequence, savedKey);
            valid := false;
            return;
          }
          if iter.Entry().value.key.ukey < savedKey {
            break;
          }
        }
        forward := false;
        BackedUpIsJustBefore(list, sequence, pos, savedKey);
      }
      // pos is now just before the entries of savedKey
      ReverseIsUnwinding(list, sequence, pos, savedKey);
      FindPrevUserEntry(Under(savedKey));
    }
  }

  lemma ListFacts(es: seq<Entry>)
    requires GoodList(es)
    ensures Sorted(es)
  {
  }

  lemma SavedIsJustBefore(es: seq<Entry>, s: nat, sc: Scope, p: nat, m: nat)
    requires GoodList(es) && p <= |es|
    requires Unwinding(es, s, sc, if p < |es| then p + 1 else 0, Some(m))
    requires p < |es| ==> es[p].key.ukey < es[m].key.ukey
    ensures JustBefore(es, s, p, es[m].key.ukey)
  {
    forall j | (p == |es| || j > p) && 0 <= j < |es| && es[j].key.ukey < es[m].key.ukey
      ensures !Visible(es, s, j)
    {
      assert j < m by {
        if m <= j {
          Ascending(es, m, j);
        }
      }
    }
  }

  lemma SeekIsScanning(es: seq<Entry>, s: nat, target: UserKey)
    requires GoodList(es)
    ensures Scanning(es, s, From(target), SeekIndex(es, IKey(target, s, SEEK_TYPE)), false, 0)
    ensures forall k :: Scanning(es, s, From(target), SeekIndex(es, IKey(target, s, SEEK_TYPE)), false, k)
  {
    var p := SeekIndex(es, IKey(target, s, SEEK_TYPE));
    forall j | p <= j < |es|
      ensures target <= es[j].key.ukey
    {
      Ascending(es, p, j);
    }
    forall j | 0 <= j < p && Visible(es, s, j)
      ensures !In(From(target), es[j].key.ukey)
    {
    }
    hide GoodList, Sorted;
  }

  lemma CurrentIsScanning(es: seq<Entry>, s: nat, p: nat)
    requires GoodList(es) && p < |es|
    ensures Scanning(es, s, Over(es[p].key.ukey), p, true, es[p].key.ukey)
  {
  }

  lemma ReverseIsScanning(es: seq<Entry>, s: nat, p: nat, key: UserKey)
    requires GoodList(es) && JustBefore(es, s, p, key)
    ensures Scanning(es, s, Over(key), if p == |es| then 0 else p + 1, true, key)
  {
  }

  ghost predicate AllFrom(es: seq<Entry>, p: nat, key: UserKey) {
    forall j :: p <= j < |es| ==> es[j].key.ukey >= key
  }

  lemma CurrentIsAllFrom(es: seq<Entry>, s: nat, p: nat)
    requires GoodList(es) && Shown(es, s, p)
    ensures p < |es| && AllFrom(es, p, es[p].key.ukey)
  {
  }

  lemma NothingUnder(es: seq<Entry>, s: nat, key: UserKey)
    requires GoodList(es) && AllFrom(es, 0, key)
    ensures Lands(Elements(es), s, Under(key), false, None)
  {
  }

  lemma BackedUpIsJustBefore(es: seq<Entry>, s: nat, p: nat, key: UserKey)
    requires p < |es| && AllFrom(es, p + 1, key) && es[p].key.ukey < key
    ensures JustBefore(es, s, p, key)
  {
  }

  // There are entries of the current user key after a reverse position.
  lemma SomethingAhead(es: seq<Entry>, s: nat, p: nat, key: UserKey)
    requires GoodList(es) && JustBefore(es, s, p, key) && View(Elements(es), key, s) != Absent
    ensures 0 < |es| && p != |es| - 1
  {
  }

  // What FindPrevUserEntry knows when its loop ends.
  lemma UnwindEnds(es: seq<Entry>, s: nat, sc: Scope, p: nat, found: Option<nat>)
    requires GoodList(es) && p <= |es| && Unwinding(es, s, sc, if p < |es| then p + 1 else 0, found)
    requires p < |es| ==> found.Some? && es[p].key.ukey < es[found.value].key.ukey && Visible(es, s, p)
    ensures found.Some? ==> found.value < |es|
    ensures Lands(Elements(es), s, sc, false, if found.Some? then Some((es[found.value].key.ukey, es[found.value].value)) else None)
    ensures found.Some? ==> AtLastVisibleBefore(es, s, p, es[found.value].key.ukey)
    ensures found.Some? ==> View(Elements(es), es[found.value].key.ukey, s) == Present(es[found.value].value)
  {
    if found.Some? {
      UnwindFinds(es, s, sc, if p < |es| then p + 1 else 0, found.value);
      SavedIsJustBefore(es, s, sc, p, found.value);
      ShownIsPresent(es, s, found.value);
    }
    hide View, Shown, JustBefore, GoodList;
    LandsDown(es, s, sc, found);
  }

  lemma FoundFacts(es: seq<Entry>, s: nat, sc: Scope, q: nat, found: Option<nat>)
    requires GoodList(es) && Unwinding(es, s, sc, q, found)
    ensures found.Some? ==> q <= found.value < |es|
    ensures found.Some? && 0 < q ==> es[q - 1].key.ukey <= es[found.value].key.ukey
  {
  }

  lemma ReverseIsUnwinding(es: seq<Entry>, s: nat, p: nat, key: UserKey)
    requires GoodList(es) && JustBefore(es, s, p, key)
    ensures Unwinding(es, s, Under(key), if p < |es| then p + 1 else 0, None)
  {
  }
}
