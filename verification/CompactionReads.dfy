/** Exactly when a compaction leaves every read at or above its snapshot unchanged. */
module CompactionReads {
  import opened Keys
  import opened Versions
  import opened CompactionWork

  lemma ViewSkips(a: set<Entry>, b: set<Entry>, u: UserKey, s: nat)
    requires Distinct(a + b) && NoHit(a, u, s)
    ensures View(a + b, u, s) == View(b, u, s)
  {
  }

  // Raising the bound changes nothing when it admits nothing new.
  lemma ViewSameHits(es: set<Entry>, u: UserKey, s: nat, t: nat)
    requires Distinct(es) && s <= t
    requires forall e :: e in es && Hit(e, u, t) ==> e.key.seqno <= s
    ensures View(es, u, t) == View(es, u, s)
  {
  }

  // The compaction drops the deletion that hid an older value of u, kept in a file outside its inputs.
  ghost predicate Resurfaces(v: Version, level: nat, inputs: set<Entry>, rest: set<Entry>, snapshot: nat, u: UserKey)
    requires |v.levels| == NUM_LEVELS
  {
    exists t :: t in inputs && Newest(inputs + rest, u, snapshot, t)
                && ObsoleteDeletion(v, level, t, snapshot) && View(rest, u, snapshot) != Absent
  }

  lemma NewestIsNotHidden(m: seq<Entry>, rest: set<Entry>, snapshot: nat, u: UserKey, s: nat, i: nat)
    requires Sorted(m) && Distinct(Elements(m) + rest)
    requires snapshot < MAX_SEQUENCE && snapshot <= s && i < |m|
    requires Newest(Elements(m) + rest, u, s, m[i])
    ensures !HiddenByNewer(m, i, snapshot)
  {
  }

  lemma OlderIsHidden(m: seq<Entry>, snapshot: nat, i: nat, j: nat)
    requires Sorted(m) && i < j < |m|
    requires m[i].key.ukey == m[j].key.ukey && m[i].key.seqno <= snapshot
    ensures HiddenByNewer(m, j, snapshot)
  {
  }

  // Once the newest visible entry is an obsolete deletion, no input entry for its user key survives.
  lemma NothingSurvives(v: Version, level: nat, m: seq<Entry>, rest: set<Entry>, snapshot: nat, u: UserKey, s: nat, t: Entry)
    requires |v.levels| == NUM_LEVELS && Sorted(m) && Distinct(Elements(m) + rest)
    requires snapshot <= s && t in m
    requires Newest(Elements(m) + rest, u, s, t) && ObsoleteDeletion(v, level, t, snapshot)
    ensures NoHit(Elements(Kept(v, level, m, snapshot, |m|)), u, s)
  {
    KeptElements(v, level, m, snapshot, |m|);
    var i :| 0 <= i < |m| && m[i] == t;
    forall x | x in Kept(v, level, m, snapshot, |m|)
      ensures !Hit(x, u, s)
    {
      var j: nat :| j < |m| && m[j] == x && !Dropped(v, level, m, j, snapshot);
      assert x in Elements(m) && t in Elements(m);
      assert x != t;
      if j < i {
        assert Less(x.key, t.key);
      } else if x.key.ukey == u {
        OlderIsHidden(m, snapshot, i, j);
      }
    }
  }

  // The rest of u's history, as a reader sees it once the deletion is gone.
  lemma DeletionGone(v: Version, level: nat, m: seq<Entry>, rest: set<Entry>, snapshot: nat, u: UserKey, s: nat, t: Entry)
    requires |v.levels| == NUM_LEVELS && Sorted(m) && Distinct(Elements(m) + rest)
    requires snapshot <= s && t in m
    requires Newest(Elements(m) + rest, u, s, t) && ObsoleteDeletion(v, level, t, snapshot)
    ensures View(Elements(m) + rest, u, s) == Absent
    ensures View(Elements(Kept(v, level, m, snapshot, |m|)) + rest, u, s) == View(rest, u, snapshot)
    ensures Newest(Elements(m) + rest, u, snapshot, t)
  {
    var all, kept := Elements(m) + rest, Elements(Kept(v, level, m, snapshot, |m|));
    KeptElements(v, level, m, snapshot, |m|);
    NothingSurvives(v, level, m, rest, snapshot, u, s, t);
    ViewIs(all, u, s, t);
    DistinctPart(all, kept + rest);
    DistinctPart(all, rest);
    ViewSkips(kept, rest, u, s);
    ViewSameHits(rest, u, snapshot, s);
  }

  lemma ReadKept(v: Version, level: nat, m: seq<Entry>, rest: set<Entry>, snapshot: nat, u: UserKey, s: nat)
    requires |v.levels| == NUM_LEVELS && Sorted(m) && Distinct(Elements(m) + rest)
    requires snapshot < MAX_SEQUENCE && snapshot <= s
    requires !Resurfaces(v, level, Elements(m), rest, snapshot, u)
    ensures View(Elements(Kept(v, level, m, snapshot, |m|)) + rest, u, s) == View(Elements(m) + rest, u, s)
  {
    var all, kept := Elements(m) + rest, Elements(Kept(v, level, m, snapshot, |m|));
    KeptElements(v, level, m, snapshot, |m|);
    assert kept + rest <= all;
    if NoHit(all, u, s) {
      assert NoHit(kept + rest, u, s);
    } else {
      NewestExists(all, u, s);
      var e :| Newest(all, u, s, e);
      if e in m && ObsoleteDeletion(v, level, e, snapshot) {
        DeletionGone(v, level, m, rest, snapshot, u, s, e);
        assert e in Elements(m);
      } else {
        if e in m {
          var i :| 0 <= i < |m| && m[i] == e;
          NewestIsNotHidden(m, rest, snapshot, u, s, i);
        }
        DistinctPart(all, kept + rest);
        assert Newest(kept + rest, u, s, e);
        ViewIs(all, u, s, e);
        ViewIs(kept + rest, u, s, e);
      }
    }
  }

  // Entries above the snapshot are never dropped.
  lemma RecentAreKept(v: Version, level: nat, m: seq<Entry>, snapshot: nat, e: Entry)
    requires |v.levels| == NUM_LEVELS && Sorted(m) && snapshot < MAX_SEQUENCE && e in m && e.key.seqno > snapshot
    ensures e in Kept(v, level, m, snapshot, |m|)
  {
    KeptElements(v, level, m, snapshot, |m|);
    var i :| 0 <= i < |m| && m[i] == e;
    assert i > 0 ==> Less(m[i - 1].key, m[i].key);
    assert !Dropped(v, level, m, i, snapshot);
  }

  /** Reads at or above the snapshot survive the compaction if and only if no deleted value resurfaces. */
  lemma ReadsKeptIff(v: Version, level: nat, m: seq<Entry>, rest: set<Entry>, snapshot: nat)
    requires |v.levels| == NUM_LEVELS && Sorted(m) && Distinct(Elements(m) + rest)
    requires snapshot < MAX_SEQUENCE
    ensures (forall u, s: nat :: snapshot <= s ==>
               View(Elements(Kept(v, level, m, snapshot, |m|)) + rest, u, s) == View(Elements(m) + rest, u, s))
       <==> (forall u :: !Resurfaces(v, level, Elements(m), rest, snapshot, u))
  {
    var all, kept := Elements(m) + rest, Elements(Kept(v, level, m, snapshot, |m|));
    forall u, s: nat | snapshot <= s && !Resurfaces(v, level, Elements(m), rest, snapshot, u)
      ensures View(kept + rest, u, s) == View(all, u, s)
    {
      ReadKept(v, level, m, rest, snapshot, u, s);
    }
    forall u | Resurfaces(v, level, Elements(m), rest, snapshot, u)
      ensures View(kept + rest, u, snapshot) != View(all, u, snapshot)
    {
      var t :| t in Elements(m) && Newest(all, u, snapshot, t)
               && ObsoleteDeletion(v, level, t, snapshot) && View(rest, u, snapshot) != Absent;
      DeletionGone(v, level, m, rest, snapshot, u, snapshot, t);
    }
  }
}
