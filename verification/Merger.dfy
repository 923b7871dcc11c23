/** MergingIterator: several sorted children read as one cursor over the union of their entries. */
module Merger {
  import opened Keys
  import opened Wrappers
  import opened Versions
  import opened Cursors

  ghost function Union(children: seq<seq<Entry>>): set<Entry> {
    set i, e | 0 <= i < |children| && e in children[i] :: e
  }

  // Sorted children; entries of different children have different keys.
  ghost predicate GoodChildren(children: seq<seq<Entry>>) {
    && (forall i :: 0 <= i < |children| ==> Sorted(children[i]))
    && forall i, j, x, y :: 0 <= i < j < |children| && x in children[i] && y in children[j] ==> x.key != y.key
  }

  /** Where a child stands relative to a cut of the union */

  // p is the first position of the child whose entry is in `up`.
  ghost predicate FirstIn(child: seq<Entry>, p: nat, up: set<Entry>) {
    p <= |child| && forall j :: 0 <= j < |child| ==> (child[j] in up <==> p <= j)
  }

  // p is the last position whose entry is in `down`; |child| if there is none.
  ghost predicate LastIn(child: seq<Entry>, p: nat, down: set<Entry>) {
    && p <= |child|
    && (p < |child| ==> forall j :: 0 <= j < |child| ==> (child[j] in down <==> j <= p))
    && (p == |child| ==> forall j :: 0 <= j < |child| ==> child[j] !in down)
  }

  ghost function UpTo(es: set<Entry>, k: IKey): set<Entry> {
    set x | x in es && AtMost(x.key, k)
  }

  ghost predicate Front(children: seq<seq<Entry>>, pos: seq<nat>, up: set<Entry>) {
    |pos| == |children| && forall i :: 0 <= i < |children| ==> FirstIn(children[i], pos[i], up)
  }

  ghost predicate Back(children: seq<seq<Entry>>, pos: seq<nat>, down: set<Entry>) {
    |pos| == |children| && forall i :: 0 <= i < |children| ==> LastIn(children[i], pos[i], down)
  }

  ghost predicate Positioned(children: seq<seq<Entry>>, pos: seq<nat>) {
    |pos| == |children| && forall i :: 0 <= i < |children| ==> pos[i] <= |children[i]|
  }

  // The entry under the iterator.
  function EntryAt(children: seq<seq<Entry>>, pos: seq<nat>, current: Option<nat>): Option<Entry> {
    if current.Some? && current.value < |children| && current.value < |pos| then At(children[current.value], pos[current.value]) else None
  }

  // The iterator's invariant: moving forward, every child is at its first entry from the current key
  // on; moving backward, at its last entry up to the current key.
  ghost predicate Settled(children: seq<seq<Entry>>, pos: seq<nat>, current: Option<nat>, forward: bool) {
    && Positioned(children, pos)
    && match current
       case None => forall i :: 0 <= i < |children| ==> pos[i] == |children[i]|
       case Some(c) =>
         && c < |children| && pos[c] < |children[c]|
         && var k := children[c][pos[c]].key;
            if forward then Front(children, pos, FromKey(Union(children), k)) else Back(children, pos, UpTo(Union(children), k))
  }

  lemma InUnion(children: seq<seq<Entry>>, i: nat, j: nat)
    requires i < |children| && j < |children[i]|
    ensures children[i][j] in Union(children)
  {
    assert children[i][j] in children[i];
  }

  ghost predicate SmallestAt(children: seq<seq<Entry>>, pos: seq<nat>, current: Option<nat>)
    requires Positioned(children, pos)
  {
    match current
    case None => forall i :: 0 <= i < |children| ==> pos[i] == |children[i]|
    case Some(c) =>
      && c < |children| && pos[c] < |children[c]|
      && forall i :: 0 <= i < |children| && pos[i] < |children[i]| ==> AtMost(children[c][pos[c]].key, children[i][pos[i]].key)
  }

  ghost predicate LargestAt(children: seq<seq<Entry>>, pos: seq<nat>, current: Option<nat>)
    requires Positioned(children, pos)
  {
    match current
    case None => forall i :: 0 <= i < |children| ==> pos[i] == |children[i]|
    case Some(c) =>
      && c < |children| && pos[c] < |children[c]|
      && forall i :: 0 <= i < |children| && pos[i] < |children[i]| ==> AtMost(children[i][pos[i]].key, children[c][pos[c]].key)
  }

  // Cuts of the union: closed upwards, closed downwards.
  ghost predicate UpClosed(all: set<Entry>, up: set<Entry>) {
    up <= all && forall x, y :: x in up && y in all && AtMost(x.key, y.key) ==> y in up
  }

  ghost predicate DownClosed(all: set<Entry>, down: set<Entry>) {
    down <= all && forall x, y :: x in down && y in all && AtMost(y.key, x.key) ==> y in down
  }

  lemma SmallestBounds(children: seq<seq<Entry>>, pos: seq<nat>, current: Option<nat>, up: set<Entry>, i: nat, j: nat)
    requires GoodChildren(children) && Positioned(children, pos) && SmallestAt(children, pos, current)
    requires i < |children| && FirstIn(children[i], pos[i], up) && j < |children[i]| && children[i][j] in up
    ensures current.Some? && AtMost(children[current.value][pos[current.value]].key, children[i][j].key)
  {
  }

  // Behind the new current key nothing of the cut is lost.
  lemma SmallestFront(child: seq<Entry>, p: nat, all: set<Entry>, up: set<Entry>, e: Entry)
    requires FirstIn(child, p, up) && UpClosed(all, up) && e in up
    requires forall j :: 0 <= j < |child| ==> child[j] in all
    requires forall j :: p <= j < |child| ==> AtMost(e.key, child[j].key)
    ensures FirstIn(child, p, FromKey(all, e.key))
  {
  }

  lemma SmallestIsLeast(children: seq<seq<Entry>>, pos: seq<nat>, current: Option<nat>, up: set<Entry>)
    requires GoodChildren(children) && Positioned(children, pos)
    requires Front(children, pos, up) && UpClosed(Union(children), up) && SmallestAt(children, pos, current)
    ensures Least(up, EntryAt(children, pos, current))
    ensures Settled(children, pos, current, true)
  {
    hide GoodChildren, FirstIn, Union;
    forall x | x in up
      ensures current.Some? && AtMost(children[current.value][pos[current.value]].key, x.key)
    {
      var i, j := PlaceOf(children, x);
      SmallestBounds(children, pos, current, up, i, j);
    }
    if current.Some? {
      var c := current.value;
      var e := children[c][pos[c]];
      FirstIsIn(children[c], pos[c], up);
      forall i | 0 <= i < |children|
        ensures FirstIn(children[i], pos[i], FromKey(Union(children), e.key))
      {
        forall j | 0 <= j < |children[i]|
          ensures children[i][j] in Union(children)
          ensures pos[i] <= j ==> AtMost(e.key, children[i][j].key)
        {
          InUnion(children, i, j);
          if pos[i] <= j {
            IsFrom(children[i], pos[i], up, j);
            SmallestBounds(children, pos, current, up, i, j);
          }
        }
        SmallestFront(children[i], pos[i], Union(children), up, e);
      }
    }
  }

  lemma PlaceOf(children: seq<seq<Entry>>, x: Entry) returns (i: nat, j: nat)
    requires x in Union(children)
    ensures i < |children| && j < |children[i]| && children[i][j] == x
  {
    i :| i < |children| && x in children[i];
    j :| j < |children[i]| && children[i][j] == x;
  }

  lemma FirstIsIn(child: seq<Entry>, p: nat, up: set<Entry>)
    requires FirstIn(child, p, up) && p < |child|
    ensures child[p] in up
  {
  }

  lemma IsFrom(child: seq<Entry>, p: nat, up: set<Entry>, j: nat)
    requires FirstIn(child, p, up) && p <= j < |child|
    ensures child[j] in up
  {
  }

  lemma LargestBounds(children: seq<seq<Entry>>, pos: seq<nat>, current: Option<nat>, down: set<Entry>, i: nat, j: nat)
    requires GoodChildren(children) && Positioned(children, pos) && LargestAt(children, pos, current)
    requires i < |children| && LastIn(children[i], pos[i], down) && j < |children[i]| && children[i][j] in down
    ensures current.Some? && AtMost(children[i][j].key, children[current.value][pos[current.value]].key)
  {
  }

  lemma LargestBack(child: seq<Entry>, p: nat, all: set<Entry>, down: set<Entry>, e: Entry)
    requires LastIn(child, p, down) && DownClosed(all, down) && e in down
    requires forall j :: 0 <= j < |child| ==> child[j] in all
    requires forall j :: 0 <= j < |child| && child[j] in down ==> AtMost(child[j].key, e.key)
    ensures LastIn(child, p, UpTo(all, e.key))
  {
  }

  lemma LargestIsGreatest(children: seq<seq<Entry>>, pos: seq<nat>, current: Option<nat>, down: set<Entry>)
    requires GoodChildren(children) && Positioned(children, pos)
    requires Back(children, pos, down) && DownClosed(Union(children), down) && LargestAt(children, pos, current)
    ensures Greatest(down, EntryAt(children, pos, current))
    ensures Settled(children, pos, current, false)
  {
    hide GoodChildren, LastIn, Union;
    forall x | x in down
      ensures current.Some? && AtMost(x.key, children[current.value][pos[current.value]].key)
    {
      var i, j := PlaceOf(children, x);
      LargestBounds(children, pos, current, down, i, j);
    }
    if current.Some? {
      var c := current.value;
      var e := children[c][pos[c]];
      LastIsIn(children[c], pos[c], down);
      forall i | 0 <= i < |children|
        ensures LastIn(children[i], pos[i], UpTo(Union(children), e.key))
      {
        forall j | 0 <= j < |children[i]|
          ensures children[i][j] in Union(children)
          ensures children[i][j] in down ==> AtMost(children[i][j].key, e.key)
        {
          InUnion(children, i, j);
          if children[i][j] in down {
            LargestBounds(children, pos, current, down, i, j);
          }
        }
        LargestBack(children[i], pos[i], Union(children), down, e);
      }
    }
  }

  lemma LastIsIn(child: seq<Entry>, p: nat, down: set<Entry>)
    requires LastIn(child, p, down) && p < |child|
    ensures child[p] in down
  {
  }

  /** Repositioning one child */

  // Seek(k), and one step further if that landed on k itself.
  function SeekAfter(child: seq<Entry>, k: IKey): nat {
    var p := SeekIndex(child, k);
    if p < |child| && child[p].key == k then p + 1 else p
  }

  // Seek(k), then one step back, or to the last entry if every entry is before k.
  function SeekBefore(child: seq<Entry>, k: IKey): nat {
    var p := SeekIndex(child, k);
    if p < |child| then PrevPos(child, p) else LastPos(child)
  }

  lemma SeekSplits(child: seq<Entry>, k: IKey, j: nat)
    requires Sorted(child) && j < |child|
    ensures AtMost(k, child[j].key) <==> SeekIndex(child, k) <= j
    ensures Less(k, child[j].key) <==> SeekAfter(child, k) <= j
  {
  }

  lemma ChildSeeks(children: seq<seq<Entry>>, i: nat, k: IKey)
    requires GoodChildren(children) && i < |children|
    ensures FirstIn(children[i], SeekIndex(children[i], k), FromKey(Union(children), k))
    ensures FirstIn(children[i], SeekAfter(children[i], k), Above(Union(children), k))
    ensures LastIn(children[i], SeekBefore(children[i], k), Below(Union(children), k))
  {
    var child := children[i];
    assert Sorted(child);
    hide GoodChildren, Union, Sorted, SeekIndex;
    forall j | 0 <= j < |child|
      ensures child[j] in Union(children)
      ensures AtMost(k, child[j].key) <==> SeekIndex(child, k) <= j
      ensures Less(k, child[j].key) <==> SeekAfter(child, k) <= j
    {
      InUnion(children, i, j);
      SeekSplits(child, k, j);
    }
  }

  // Moving forward, a child other than the current one is already past the current key.
  lemma OthersPast(children: seq<seq<Entry>>, pos: seq<nat>, c: nat, i: nat)
    requires GoodChildren(children) && Settled(children, pos, Some(c), true) && i < |children|
    ensures FirstIn(children[i], if i == c then pos[i] + 1 else pos[i], Above(Union(children), children[c][pos[c]].key))
  {
  }

  lemma OthersBefore(children: seq<seq<Entry>>, pos: seq<nat>, c: nat, i: nat)
    requires GoodChildren(children) && Settled(children, pos, Some(c), false) && i < |children|
    ensures LastIn(children[i], if i == c then PrevPos(children[i], pos[i]) else pos[i], Below(Union(children), children[c][pos[c]].key))
  {
    var k := children[c][pos[c]].key;
    var child := children[i];
    assert LastIn(child, pos[i], UpTo(Union(children), k));
    assert Sorted(child);
    forall j | 0 <= j < |child|
      ensures child[j] in Below(Union(children), k) <==> child[j] in UpTo(Union(children), k) && !(i == c && j == pos[c])
    {
      InUnion(children, i, j);
      if i != c {
        assert child[j] in child && children[c][pos[c]] in children[c];
        assert child[j].key != k;
      } else if j < pos[c] {
        assert Less(child[j].key, k);
      } else if j > pos[c] {
        assert Less(k, child[j].key);
      }
    }
  }

  // The current child itself, whichever way the iterator was moving.
  lemma CurrentMoves(children: seq<seq<Entry>>, c: nat, p: nat)
    requires GoodChildren(children) && c < |children| && p < |children[c]|
    ensures FirstIn(children[c], p + 1, Above(Union(children), children[c][p].key))
    ensures LastIn(children[c], PrevPos(children[c], p), Below(Union(children), children[c][p].key))
  {
    var child, k := children[c], children[c][p].key;
    assert Sorted(child);
    forall j | 0 <= j < |child|
      ensures child[j] in Union(children) && (Less(k, child[j].key) <==> p < j) && (Less(child[j].key, k) <==> j < p)
    {
      InUnion(children, c, j);
      if j < p {
        assert Less(child[j].key, child[p].key);
      } else if p < j {
        assert Less(child[p].key, child[j].key);
      }
    }
  }

  lemma CutsAreClosed(all: set<Entry>, k: IKey)
    ensures UpClosed(all, all) && UpClosed(all, FromKey(all, k)) && UpClosed(all, Above(all, k))
    ensures DownClosed(all, all) && DownClosed(all, Below(all, k))
  {
  }

  class MergingIterator {
    const children: seq<seq<Entry>>
    var pos: seq<nat>
    var current: Option<nat>
    var forward: bool

    ghost predicate Valid()
      reads this
    {
      GoodChildren(children) && Settled(children, pos, current, forward)
    }

    // The entry the iterator is at; None when it is not valid.
    function Entry(): Option<Entry>
      reads this
    {
      EntryAt(children, pos, current)
    }

    constructor (children: seq<seq<Entry>>)
      requires GoodChildren(children)
      ensures Valid() && this.children == children && Entry() == None
    {
      this.children := children;
      pos := seq(|children|, i requires 0 <= i < |children| => |children[i]|);
      current := None;
      forward := true;
    }

    method FindSmallest()
      requires Positioned(children, pos)
      modifies this`current
      ensures SmallestAt(children, pos, current)
    {
      current := None;
      for i := 0 to |children|
        invariant current == None ==> forall j :: 0 <= j < i ==> pos[j] == |children[j]|
        invariant current.Some? ==> current.value < i && pos[current.value] < |children[current.value]|
        invariant current.Some? ==> forall j :: 0 <= j < i ==>
          pos[j] < |children[j]| ==> AtMost(children[current.value][pos[current.value]].key, children[j][pos[j]].key)
      {
        if pos[i] < |children[i]| {
          if current == None {
            current := Some(i);
          } else if Less(children[i][pos[i]].key, children[current.value][pos[current.value]].key) {
            current := Some(i);
          }
        }
      }
    }

    method FindLargest()
      requires Positioned(children, pos)
      modifies this`current
      ensures LargestAt(children, pos, current)
    {
      current := None;
      var i := |children|;
      while i > 0
        invariant 0 <= i <= |children|
        invariant current == None ==> forall j :: i <= j < |children| ==> pos[j] == |children[j]|
        invariant current.Some? ==> i <= current.value < |children| && pos[current.value] < |children[current.value]|
        invariant current.Some? ==> forall j :: i <= j < |children| ==>
          pos[j] < |children[j]| ==> AtMost(children[j][pos[j]].key, children[current.value][pos[current.value]].key)
      {
        i := i - 1;
        if pos[i] < |children[i]| {
          if current == None {
            current := Some(i);
          } else if Less(children[current.value][pos[current.value]].key, children[i][pos[i]].key) {
            current := Some(i);
          }
        }
      }
    }

    method SeekToFirst()
      requires Valid()
      modifies this
      ensures Valid() && IsFirst(Union(children), Entry())
    {
      pos := seq(|children|, _ => 0);
      forall i | 0 <= i < |children|
        ensures FirstIn(children[i], pos[i], Union(children))
      {
        forall j | 0 <= j < |children[i]| ensures children[i][j] in Union(children) { InUnion(children, i, j); }
      }
      FindSmallest();
      forward := true;
      CutsAreClosed(Union(children), IKey(0, 0, Deletion));
      SmallestIsLeast(children, pos, current, Union(children));
    }

    method SeekToLast()
      requires Valid()
      modifies this
      ensures Valid() && IsLast(Union(children), Entry())
    {
      pos := seq(|children|, i requires 0 <= i < |children| => LastPos(children[i]));
      forall i | 0 <= i < |children|
        ensures LastIn(children[i], pos[i], Union(children))
      {
        forall j | 0 <= j < |children[i]| ensures children[i][j] in Union(children) { InUnion(children, i, j); }
      }
      FindLargest();
      forward := false;
      CutsAreClosed(Union(children), IKey(0, 0, Deletion));
      LargestIsGreatest(children, pos, current, Union(children));
    }

    method Seek(target: IKey)
      requires Valid()
      modifies this
      ensures Valid() && IsSeek(Union(children), target, Entry())
    {
      pos := seq(|children|, i requires 0 <= i < |children| => SeekIndex(children[i], target));
      forall i | 0 <= i < |children|
        ensures FirstIn(children[i], pos[i], FromKey(Union(children), target))
      {
        ChildSeeks(children, i, target);
      }
      FindSmallest();
      forward := true;
      CutsAreClosed(Union(children), target);
      SmallestIsLeast(children, pos, current, FromKey(Union(children), target));
    }

    method Next()
      requires Valid() && Entry().Some?
      modifies this
      ensures Valid() && IsNext(Union(children), old(Entry()).value.key, Entry())
    {
      hide GoodChildren, FirstIn, UpClosed, Union;
      var c := current.value;
      var key := children[c][pos[c]].key;
      ghost var pos0 := pos;
      if !forward {
        for i := 0 to |children|
          invariant |pos| == |children| && current == Some(c) && pos[c] == pos0[c]
          invariant forall j :: 0 <= j < |children| ==> pos[j] == if j < i && j != c then SeekAfter(children[j], key) else pos0[j]
        {
          if i != c {
            pos := pos[i := SeekAfter(children[i], key)];
          }
        }
        forward := true;
      }
      pos := pos[c := pos[c] + 1];
      forall i | 0 <= i < |children|
        ensures FirstIn(children[i], pos[i], Above(Union(children), key))
      {
        CurrentMoves(children, c, pos0[c]);
        ChildSeeks(children, i, key);
        if old(forward) {
          OthersPast(children, pos0, c, i);
        }
      }
      FrontIsPositioned(children, pos, Above(Union(children), key));
      FindSmallest();
      CutsAreClosed(Union(children), key);
      SmallestIsLeast(children, pos, current, Above(Union(children), key));
    }

    method Prev()
      requires Valid() && Entry().Some?
      modifies this
      ensures Valid() && IsPrev(Union(children), old(Entry()).value.key, Entry())
    {
      hide GoodChildren, LastIn, DownClosed, Union;
      var c := current.value;
      var key := children[c][pos[c]].key;
      ghost var pos0 := pos;
      if forward {
        for i := 0 to |children|
          invariant |pos| == |children| && current == Some(c) && pos[c] == pos0[c]
          invariant forall j :: 0 <= j < |children| ==> pos[j] == if j < i && j != c then SeekBefore(children[j], key) else pos0[j]
        {
          if i != c {
            pos := pos[i := SeekBefore(children[i], key)];
          }
        }
        forward := false;
      }
      pos := pos[c := PrevPos(children[c], pos[c])];
      forall i | 0 <= i < |children|
        ensures LastIn(children[i], pos[i], Below(Union(children), key))
      {
        CurrentMoves(children, c, pos0[c]);
        ChildSeeks(children, i, key);
        if !old(forward) {
          OthersBefore(children, pos0, c, i);
        }
      }
      BackIsPositioned(children, pos, Below(Union(children), key));
      FindLargest();
      CutsAreClosed(Union(children), key);
      LargestIsGreatest(children, pos, current, Below(Union(children), key));
    }
  }

  lemma FrontIsPositioned(children: seq<seq<Entry>>, pos: seq<nat>, up: set<Entry>)
    requires |pos| == |children| && forall i :: 0 <= i < |children| ==> FirstIn(children[i], pos[i], up)
    ensures Positioned(children, pos) && Front(children, pos, up)
  {
  }

  lemma BackIsPositioned(children: seq<seq<Entry>>, pos: seq<nat>, down: set<Entry>)
    requires |pos| == |children| && forall i :: 0 <= i < |children| ==> LastIn(children[i], pos[i], down)
    ensures Positioned(children, pos) && Back(children, pos, down)
  {
  }

  /** Whatever mix of operations was made, the merging iterator stands where the cursor over the
      merged list stands. */
  lemma MergesLikeOneList(children: seq<seq<Entry>>, merged: seq<Entry>, p: nat, k: IKey, r: Option<Entry>)
    requires Sorted(merged) && Elements(merged) == Union(children)
    ensures IsFirst(Union(children), r) ==> r == At(merged, 0)
    ensures IsLast(Union(children), r) ==> r == At(merged, LastPos(merged))
    ensures IsSeek(Union(children), k, r) ==> r == At(merged, SeekIndex(merged, k))
    ensures p < |merged| && IsNext(Union(children), merged[p].key, r) ==> r == At(merged, p + 1)
    ensures p < |merged| && IsPrev(Union(children), merged[p].key, r) ==> r == At(merged, PrevPos(merged, p))
  {
    ListCursor(merged, k);
    AgreesWithList(merged, p, k, r);
  }
}
