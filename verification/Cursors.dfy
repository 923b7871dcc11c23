/** Positions in an ordered set of entries, and the cursor over one sorted list that realises them. */
module Cursors {
  import opened Keys
  import opened Wrappers
  import opened Versions

  ghost predicate Least(es: set<Entry>, r: Option<Entry>) {
    match r
    case None => es == {}
    case Some(e) => e in es && forall x :: x in es ==> AtMost(e.key, x.key)
  }

  ghost predicate Greatest(es: set<Entry>, r: Option<Entry>) {
    match r
    case None => es == {}
    case Some(e) => e in es && forall x :: x in es ==> AtMost(x.key, e.key)
  }

  ghost function Above(es: set<Entry>, k: IKey): set<Entry> {
    set x | x in es && Less(k, x.key)
  }

  ghost function Below(es: set<Entry>, k: IKey): set<Entry> {
    set x | x in es && Less(x.key, k)
  }

  ghost function FromKey(es: set<Entry>, k: IKey): set<Entry> {
    set x | x in es && AtMost(k, x.key)
  }

  // Where the five operations of an iterator over the set es have to land.
  ghost predicate IsFirst(es: set<Entry>, r: Option<Entry>) { Least(es, r) }

  ghost predicate IsLast(es: set<Entry>, r: Option<Entry>) { Greatest(es, r) }

  ghost predicate IsSeek(es: set<Entry>, k: IKey, r: Option<Entry>) { Least(FromKey(es, k), r) }

  ghost predicate IsNext(es: set<Entry>, k: IKey, r: Option<Entry>) { Least(Above(es, k), r) }

  ghost predicate IsPrev(es: set<Entry>, k: IKey, r: Option<Entry>) { Greatest(Below(es, k), r) }

  // No two entries of the set have equal keys.
  ghost predicate KeysDiffer(es: set<Entry>) {
    forall x, y :: x in es && y in es && x != y ==> Less(x.key, y.key) || Less(y.key, x.key)
  }

  lemma LeastIsUnique(es: set<Entry>, a: Option<Entry>, b: Option<Entry>)
    requires KeysDiffer(es)
    ensures Least(es, a) && Least(es, b) ==> a == b
    ensures Greatest(es, a) && Greatest(es, b) ==> a == b
  {
  }

  /** The list cursor: a position in a sorted list, with |es| for every invalid position. */

  function At(es: seq<Entry>, p: nat): Option<Entry> {
    if p < |es| then Some(es[p]) else None
  }

  function LastPos(es: seq<Entry>): nat {
    if es == [] then 0 else |es| - 1
  }

  function PrevPos(es: seq<Entry>, p: nat): nat
    requires p < |es|
  {
    if p == 0 then |es| else p - 1
  }

  lemma ListCursor(es: seq<Entry>, k: IKey)
    requires Sorted(es)
    ensures KeysDiffer(Elements(es))
    ensures IsFirst(Elements(es), At(es, 0))
    ensures IsLast(Elements(es), At(es, LastPos(es)))
    ensures IsSeek(Elements(es), k, At(es, SeekIndex(es, k)))
  {
    var all := Elements(es);
    forall x, y | x in all && y in all && x != y
      ensures Less(x.key, y.key) || Less(y.key, x.key)
    {
      var i :| 0 <= i < |es| && es[i] == x;
      var j :| 0 <= j < |es| && es[j] == y;
    }
    var p := SeekIndex(es, k);
    forall x | x in FromKey(all, k)
      ensures p < |es| && AtMost(es[p].key, x.key)
    {
      var i :| 0 <= i < |es| && es[i] == x;
      assert i >= p;
    }
  }

  lemma ListCursorMoves(es: seq<Entry>, p: nat)
    requires Sorted(es) && p < |es|
    ensures IsNext(Elements(es), es[p].key, At(es, p + 1))
    ensures IsPrev(Elements(es), es[p].key, At(es, PrevPos(es, p)))
  {
    var all, k := Elements(es), es[p].key;
    forall x | x in Above(all, k)
      ensures p + 1 < |es| && AtMost(es[p + 1].key, x.key)
    {
      var i :| 0 <= i < |es| && es[i] == x;
      assert i > p;
    }
    forall x | x in Below(all, k)
      ensures p > 0 && AtMost(x.key, es[p - 1].key)
    {
      var i :| 0 <= i < |es| && es[i] == x;
      assert i < p;
    }
  }

  /** An iterator that lands where the specification says is indistinguishable from the cursor
      over the sorted list of the same entries. */
  lemma AgreesWithList(es: seq<Entry>, p: nat, k: IKey, r: Option<Entry>)
    requires Sorted(es) && KeysDiffer(Elements(es))
    ensures IsFirst(Elements(es), r) ==> r == At(es, 0)
    ensures IsLast(Elements(es), r) ==> r == At(es, LastPos(es))
    ensures IsSeek(Elements(es), k, r) ==> r == At(es, SeekIndex(es, k))
    ensures p < |es| && IsNext(Elements(es), es[p].key, r) ==> r == At(es, p + 1)
    ensures p < |es| && IsPrev(Elements(es), es[p].key, r) ==> r == At(es, PrevPos(es, p))
  {
    ListCursor(es, k);
    LeastIsUnique(Elements(es), r, At(es, 0));
    LeastIsUnique(Elements(es), r, At(es, LastPos(es)));
    LeastIsUnique(FromKey(Elements(es), k), r, At(es, SeekIndex(es, k)));
    if p < |es| {
      ListCursorMoves(es, p);
      LeastIsUnique(Above(Elements(es), es[p].key), r, At(es, p + 1));
      LeastIsUnique(Below(Elements(es), es[p].key), r, At(es, PrevPos(es, p)));
    }
  }

  /** The sorted list of a set */

  lemma GreatestExists(es: set<Entry>) returns (e: Entry)
    requires es != {}
    ensures e in es && forall x :: x in es ==> AtMost(x.key, e.key)
  {
    e :| e in es;
    var rest := es - {e};
    if rest != {} {
      var g := GreatestExists(rest);
      if AtMost(e.key, g.key) {
        e := g;
      }
    }
  }

  lemma {:induction false} SortedList(es: set<Entry>) returns (r: seq<Entry>)
    requires Distinct(es)
    ensures Sorted(r) && Elements(r) == es
  {
    if es == {} {
      r := [];
    } else {
      var e := GreatestExists(es);
      var rest := SortedList(es - {e});
      forall x | x in rest
        ensures Less(x.key, e.key)
      {
        assert x in Elements(rest);
      }
      r := rest + [e];
      forall x
        ensures x in Elements(r) <==> x in es
      {
        assert x in Elements(r) <==> x in Elements(rest) || x == e;
      }
    }
  }

  lemma HeadIsElement(es: seq<Entry>)
    ensures es != [] ==> es[0] in Elements(es)
    ensures es == [] ==> Elements(es) == {}
  {
  }

  lemma {:induction false} SortedIsUnique(a: seq<Entry>, b: seq<Entry>)
    requires Sorted(a) && Sorted(b) && Elements(a) == Elements(b)
    ensures a == b
    decreases |a|
  {
    HeadIsElement(a);
    HeadIsElement(b);
    if a != [] {
      assert a[0] == b[0];
      forall x
        ensures x in Elements(a[1..]) <==> x in Elements(b[1..])
      {
        assert x in Elements(a[1..]) <==> x in Elements(a) && x != a[0];
        assert x in Elements(b[1..]) <==> x in Elements(b) && x != b[0];
      }
      SortedIsUnique(a[1..], b[1..]);
    }
  }
}
