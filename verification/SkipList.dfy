/** The skip list of the memtable. Keys are positions in the comparator's order; the height of a new
    node, which the source draws at random, is a parameter. */
module SkipLists {

  const MAX_HEIGHT: nat := 12

  class Node {
    const key: int
    // next[0] is the link of the lowest level
    var next: seq<Node?>

    constructor (key: int, height: nat)
      ensures this.key == key && |next| == height && forall i :: 0 <= i < height ==> next[i] == null
    {
      this.key := key;
      next := seq(height, _ => null);
    }
  }

  /** Levels as lists, each starting with the head node */

  type Level = seq<Node>

  ghost predicate SortedLevel(head: Node, l: Level) {
    && l != [] && l[0] == head && (forall j :: 1 <= j < |l| ==> l[j] != head)
    && (forall j, k :: 1 <= j < k < |l| ==> l[j].key < l[k].key)
  }

  ghost predicate SortedLevels(head: Node, levels: seq<Level>) {
    && |levels| == MAX_HEIGHT
    && (forall i: nat :: i < MAX_HEIGHT ==> SortedLevel(head, levels[i]))
    && (forall i: nat, j: nat :: j < i < MAX_HEIGHT ==> Sublist(levels[i], levels[j]))
  }

  // For sorted lists, having no other nodes is being a sublist.
  ghost predicate Sublist(upper: Level, lower: Level) {
    forall n :: n in upper ==> n in lower
  }

  // The links of level i form the list.
  ghost predicate Linked(levels: seq<Level>, i: nat)
    requires i < |levels|
    reads levels[i]
  {
    forall j {:trigger levels[i][j].next} :: 0 <= j < |levels[i]| ==>
      |levels[i][j].next| > i && levels[i][j].next[i] == NodeAt(levels[i], j + 1)
  }

  function NodeAt(l: Level, k: nat): Node? {
    if k < |l| then l[k] else null
  }

  // p is the position of the last node before the key; the head comes before every key.
  ghost predicate IsPred(l: Level, key: int, p: nat) {
    && p < |l|
    && (forall j :: 1 <= j <= p ==> l[j].key < key)
    && (forall j :: p < j < |l| ==> l[j].key >= key)
  }

  ghost function KeysOf(l: Level): set<int> {
    set j | 1 <= j < |l| :: l[j].key
  }

  ghost function NodesOf(levels: seq<Level>): set<Node> {
    set i, n | 0 <= i < |levels| && n in levels[i] :: n
  }

  class SkipList {
    const head: Node
    var maxHeight: nat
    ghost var levels: seq<Level>

    ghost predicate Valid()
      reads this, NodesOf(levels)
    {
      && SortedLevels(head, levels) && AllLinked(levels)
      && 1 <= maxHeight <= MAX_HEIGHT
      && (forall i: nat :: maxHeight <= i < MAX_HEIGHT ==> levels[i] == [head])
    }

    ghost function Keys(): set<int>
      reads this
      requires |levels| > 0
    {
      KeysOf(levels[0])
    }

    constructor ()
      ensures Valid() && Keys() == {}
    {
      head := new Node(0, MAX_HEIGHT);
      maxHeight := 1;
      new;
      levels := seq(MAX_HEIGHT, _ => [head]);
    }

    // The first node at or after the key, and on every level in use the last node before it.
    method FindGreaterOrEqual(key: int) returns (r: Node?, prev: seq<Node>, ghost at: seq<nat>)
      requires Valid()
      ensures |prev| == |at| == maxHeight
      ensures forall i :: 0 <= i < maxHeight ==> IsPred(levels[i], key, at[i]) && prev[i] == levels[i][at[i]]
      ensures r == if at[0] + 1 < |levels[0]| then levels[0][at[0] + 1] else null
      ensures r == null ==> forall k :: k in Keys() ==> k < key
      ensures r != null ==> r.key in Keys() && r.key >= key && forall k :: k in Keys() && k >= key ==> k >= r.key
    {
      hide SortedLevels;
      var x := head;
      var level := maxHeight - 1;
      prev, at := [], [];
      HeadFirst(head, levels, level);
      ghost var p: nat := 0;
      while true
        invariant 0 <= level < maxHeight && p < |levels[level]| && x == levels[level][p]
        invariant forall j :: 1 <= j <= p ==> levels[level][j].key < key
        invariant |prev| == |at| == maxHeight - 1 - level
        invariant forall i :: level < i < maxHeight ==>
          IsPred(levels[i], key, at[i - level - 1]) && prev[i - level - 1] == levels[i][at[i - level - 1]]
        decreases level, |levels[level]| - p
      {
        LevelLinked(levels, level, p);
        var next := x.next[level];
        if next != null && next.key < key {
          x := next;
          p := p + 1;
        } else {
          PredHere(head, levels, level, key, p);
          prev, at := [x] + prev, [p] + at;
          if level == 0 {
            r := next;
            KeysAround(head, levels, key, p);
            return;
          }
          p := Below(head, levels, level, key, p);
          level := level - 1;
        }
      }
    }

    // Keys are inserted once. Publishing from the lowest level up keeps the levels sorted, each a
    // sublist of those below, after every single store that readers can see.
    method Insert(key: int, height: nat)
      requires Valid() && 1 <= height <= MAX_HEIGHT && key !in Keys()
      modifies this, NodesOf(levels)
      ensures Valid() && Keys() == old(Keys()) + {key}
      ensures |levels| == 12 && maxHeight == if height > old(maxHeight) then height else old(maxHeight)
      ensures exists x: Node :: fresh(x) && x.key == key && NodesOf(levels) == old(NodesOf(levels)) + {x}
                                && InLowest(levels, height, x)
    {
      hide SortedLevels, SortedLevel, IsPred, KeysOf, AllLinked, Splice, Linked, Sublist, Spliced, InLowest;
      var r, prev, at := FindGreaterOrEqual(key);
      HeadFirst(head, levels, 0);
      FoundOrAbsent(head, levels, key, at[0]);
      assert r == null || r.key != key;
      ghost var before := levels;
      prev, at := ExtendPrev(key, height, prev, at);
      if height > maxHeight {
        maxHeight := height;
      }
      var x := new Node(key, height);
      assert x !in NodesOf(levels);
      NoneSpliced(head, levels, x);
      for i := 0 to height
        invariant x.key == key && |x.next| == height && fresh(x) && height <= maxHeight <= MAX_HEIGHT
        invariant maxHeight == if height > old(maxHeight) then height else old(maxHeight)
        invariant AllLinked(levels) && Spliced(head, before, levels, i, x)
      {
        SplicedSoFar(head, before, levels, i, x);
        assert prev[i] in before[i] && prev[i] in NodesOf(before);
        UpperKeys(head, before, i);
        ghost var now := levels;
        Publish(x, prev[i], i, at[i]);
        SplicedNext(head, before, now, i, at[i], x);
      }
      SplicedAll(head, before, levels, height, maxHeight, x);
      SplicedBelow(head, before, levels, height, x);
    }

    // The two stores at one level.
    method Publish(x: Node, p: Node, i: nat, ghost at: nat)
      requires SortedLevels(head, levels) && AllLinked(levels) && i < |x.next|
      requires |levels| == MAX_HEIGHT && i < MAX_HEIGHT && at < |levels[i]| && p == levels[i][at] && IsPred(levels[i], x.key, at)
      requires x.key !in KeysOf(levels[i]) && x !in levels[i] && x != head
      requires forall j :: 0 <= j < i ==> x in levels[j]
      modifies x`next, p`next, this`levels
      ensures levels == old(levels)[i := Splice(old(levels[i]), at, x)]
      ensures SortedLevels(head, levels) && AllLinked(levels)
      ensures |x.next| == old(|x.next|)
    {
      hide SortedLevels, SortedLevel, IsPred, KeysOf;
      LevelLinked(levels, i, at);
      PublishSorted(head, levels, i, at, x);
      DistinctNodes(head, levels, i);
      x.next := x.next[i := p.next[i]];
      p.next := p.next[i := x];
      levels := levels[i := Splice(levels[i], at, x)];
      forall l: nat | l < |levels|
        ensures Linked(levels, l)
      {
        assert old(Linked(levels, l));
      }
    }

    // On the levels not in use so far the head comes before the key.
    method ExtendPrev(key: int, height: nat, prev: seq<Node>, ghost at: seq<nat>) returns (r: seq<Node>, ghost rat: seq<nat>)
      requires Valid() && height <= MAX_HEIGHT && |prev| == |at| == maxHeight
      requires forall i :: 0 <= i < maxHeight ==> IsPred(levels[i], key, at[i]) && prev[i] == levels[i][at[i]]
      ensures height <= |r| == |rat|
      ensures forall i :: 0 <= i < height ==> rat[i] < |levels[i]| && IsPred(levels[i], key, rat[i]) && r[i] == levels[i][rat[i]]
    {
      r, rat := prev, at;
      while |r| < height
        invariant maxHeight <= |r| == |rat|
        invariant forall j :: 0 <= j < |r| && j < MAX_HEIGHT ==> IsPred(levels[j], key, rat[j]) && r[j] == levels[j][rat[j]]
      {
        r, rat := r + [head], rat + [0];
      }
    }

    // The last node before the key, or the head.
    method FindLessThan(key: int) returns (r: Node, ghost p: nat)
      requires Valid()
      ensures IsPred(levels[0], key, p) && r == levels[0][p]
      ensures r == head ==> forall k :: k in Keys() ==> k >= key
      ensures r != head ==> r.key in Keys() && r.key < key && forall k :: k in Keys() && k < key ==> k <= r.key
    {
      hide SortedLevels;
      var x := head;
      var level := maxHeight - 1;
      HeadFirst(head, levels, level);
      p := 0;
      while true
        invariant 0 <= level < maxHeight && p < |levels[level]| && x == levels[level][p]
        invariant forall j :: 1 <= j <= p ==> levels[level][j].key < key
        decreases level, |levels[level]| - p
      {
        LevelLinked(levels, level, p);
        var next := x.next[level];
        if next == null || next.key >= key {
          PredHere(head, levels, level, key, p);
          if level == 0 {
            KeysAround(head, levels, key, p);
            return x, p;
          }
          p := Below(head, levels, level, key, p);
          level := level - 1;
        } else {
          x := next;
          p := p + 1;
        }
      }
    }

    method FindLast() returns (r: Node)
      requires Valid()
      ensures r == levels[0][|levels[0]| - 1]
    {
      hide SortedLevels;
      var x := head;
      var level := maxHeight - 1;
      HeadFirst(head, levels, level);
      ghost var p: nat := 0;
      while true
        invariant 0 <= level < maxHeight && p < |levels[level]| && x == levels[level][p]
        decreases level, |levels[level]| - p
      {
        LevelLinked(levels, level, p);
        var next := x.next[level];
        if next == null {
          if level == 0 {
            return x;
          }
          p := InLevelBelow(head, levels, level, x);
          level := level - 1;
        } else {
          x := next;
          p := p + 1;
        }
      }
    }

    method Contains(key: int) returns (b: bool)
      requires Valid()
      ensures b <==> key in Keys()
    {
      var x, _, at := FindGreaterOrEqual(key);
      FoundOrAbsent(head, levels, key, at[0]);
      b := x != null && x.key == key;
    }
  }

  function Splice(l: Level, p: nat, x: Node): (r: Level)
    requires p < |l|
    ensures |r| == |l| + 1
    ensures forall j :: 0 <= j < |r| ==> r[j] == if j <= p then l[j] else if j == p + 1 then x else l[j - 1]
  {
    l[..p + 1] + [x] + l[p + 1..]
  }

  lemma SpliceElements(l: Level, p: nat, x: Node)
    requires p < |l|
    ensures forall n :: n in Splice(l, p, x) <==> n in l || n == x
  {
    var r := Splice(l, p, x);
    forall n
      ensures n in r <==> n in l || n == x
    {
      if n in l {
        var j :| 0 <= j < |l| && l[j] == n;
        assert r[if j <= p then j else j + 1] == n;
      }
      assert r[p + 1] == x;
    }
  }

  lemma SpliceKeys(l: Level, p: nat, x: Node)
    requires p < |l|
    ensures KeysOf(Splice(l, p, x)) == KeysOf(l) + {x.key}
  {
    var r := Splice(l, p, x);
    forall k
      ensures k in KeysOf(r) <==> k in KeysOf(l) + {x.key}
    {
      if k in KeysOf(l) {
        var j :| 1 <= j < |l| && l[j].key == k;
        assert r[if j <= p then j else j + 1].key == k;
      }
      assert r[p + 1].key == x.key;
    }
  }

  // The node x has been put into the levels below i.
  ghost predicate Spliced(head: Node, before: seq<Level>, levels: seq<Level>, i: nat, x: Node) {
    && |before| == |levels| == MAX_HEIGHT && i <= MAX_HEIGHT && levels[i..] == before[i..] && SortedLevels(head, levels)
    && (forall j :: 0 <= j < i ==> x in levels[j])
    && NodesOf(levels) == NodesOf(before) + (if i == 0 then {} else {x})
    && (i > 0 ==> KeysOf(levels[0]) == KeysOf(before[0]) + {x.key})
  }

  // The node is in so many of the twelve levels.
  ghost predicate InLowest(levels: seq<Level>, height: nat, x: Node)
    requires |levels| == 12
  {
    forall i: nat :: i < 12 ==> (x in levels[i] <==> i < height)
  }

  lemma SplicedBelow(head: Node, before: seq<Level>, levels: seq<Level>, i: nat, x: Node)
    requires Spliced(head, before, levels, i, x) && x !in NodesOf(before)
    ensures |levels| == 12 && InLowest(levels, i, x)
  {
    forall j: nat | i <= j < MAX_HEIGHT
      ensures x !in levels[j]
    {
      assert levels[j] == levels[i..][j - i] == before[i..][j - i] == before[j];
    }
  }

  lemma NoneSpliced(head: Node, levels: seq<Level>, x: Node)
    requires SortedLevels(head, levels)
    ensures Spliced(head, levels, levels, 0, x)
  {
  }

  lemma SplicedSoFar(head: Node, before: seq<Level>, levels: seq<Level>, i: nat, x: Node)
    requires Spliced(head, before, levels, i, x) && i < MAX_HEIGHT && x !in NodesOf(before)
    ensures |before| == |levels| == MAX_HEIGHT && levels[i] == before[i] && x !in before[i] && SortedLevels(head, levels)
    ensures forall j :: 0 <= j < i ==> x in levels[j]
  {
    hide SortedLevels;
    assert levels[i] == levels[i..][0] == before[i..][0];
  }

  lemma SplicedNext(head: Node, before: seq<Level>, levels: seq<Level>, i: nat, p: nat, x: Node)
    requires Spliced(head, before, levels, i, x) && i < MAX_HEIGHT && p < |levels[i]|
    requires SortedLevels(head, levels[i := Splice(levels[i], p, x)])
    ensures Spliced(head, before, levels[i := Splice(levels[i], p, x)], i + 1, x)
  {
    hide SortedLevels, Splice, KeysOf, NodesOf;
    SpliceNodes(levels, i, p, x);
    SpliceKeys(levels[i], p, x);
    SpliceElements(levels[i], p, x);
    assert levels[i] == levels[i..][0] == before[i..][0];
    assert levels[i + 1..] == levels[i..][1..] == before[i + 1..];
  }

  lemma SplicedAll(head: Node, before: seq<Level>, levels: seq<Level>, height: nat, maxHeight: nat, x: Node)
    requires Spliced(head, before, levels, height, x) && 1 <= height <= maxHeight <= MAX_HEIGHT
    requires forall i: nat :: maxHeight <= i < MAX_HEIGHT ==> before[i] == [head]
    ensures forall i: nat :: maxHeight <= i < MAX_HEIGHT ==> levels[i] == [head]
    ensures SortedLevels(head, levels) && NodesOf(levels) == NodesOf(before) + {x} && KeysOf(levels[0]) == KeysOf(before[0]) + {x.key}
  {
    hide SortedLevels;
    forall i: nat | maxHeight <= i < MAX_HEIGHT
      ensures levels[i] == [head]
    {
      assert levels[i] == levels[height..][i - height] == before[height..][i - height];
    }
  }

  lemma SpliceSorted(head: Node, l: Level, p: nat, x: Node)
    requires SortedLevel(head, l) && IsPred(l, x.key, p) && x != head && x.key !in KeysOf(l)
    ensures SortedLevel(head, Splice(l, p, x))
  {
    forall j | p < j < |l|
      ensures l[j].key > x.key
    {
      assert l[j].key in KeysOf(l);
    }
  }

  // Publishing at level i, after all the levels below it.
  lemma PublishSorted(head: Node, levels: seq<Level>, i: nat, p: nat, x: Node)
    requires SortedLevels(head, levels) && i < MAX_HEIGHT && IsPred(levels[i], x.key, p)
    requires x != head && x.key !in KeysOf(levels[i])
    requires forall j :: 0 <= j < i ==> x in levels[j]
    ensures SortedLevels(head, levels[i := Splice(levels[i], p, x)])
  {
    var l := Splice(levels[i], p, x);
    var after := levels[i := l];
    assert SortedLevel(head, levels[i]);
    SpliceSorted(head, levels[i], p, x);
    SpliceElements(levels[i], p, x);
    hide SortedLevel, IsPred, KeysOf, Splice;
    forall k: nat, j: nat | j < k < MAX_HEIGHT
      ensures Sublist(after[k], after[j])
    {
      assert Sublist(levels[k], levels[j]);
    }
  }

  // Keys of a level are keys of every level below it.
  lemma UpperKeys(head: Node, levels: seq<Level>, i: nat)
    requires SortedLevels(head, levels) && i < MAX_HEIGHT
    ensures KeysOf(levels[i]) <= KeysOf(levels[0])
  {
    assert SortedLevel(head, levels[i]) && SortedLevel(head, levels[0]);
    assert i > 0 ==> Sublist(levels[i], levels[0]);
    forall k | k in KeysOf(levels[i])
      ensures k in KeysOf(levels[0])
    {
      var j :| 1 <= j < |levels[i]| && levels[i][j].key == k;
      assert levels[i][j] in levels[i];
    }
  }

  lemma SpliceNodes(levels: seq<Level>, i: nat, p: nat, x: Node)
    requires i < |levels| && p < |levels[i]|
    ensures NodesOf(levels[i := Splice(levels[i], p, x)]) == NodesOf(levels) + {x}
  {
    var l := Splice(levels[i], p, x);
    var after := levels[i := l];
    SpliceElements(levels[i], p, x);
    assert after[i] == l;
    forall n
      ensures n in NodesOf(after) <==> n in NodesOf(levels) || n == x
    {
      if n in NodesOf(after) {
        var k :| 0 <= k < |after| && n in after[k];
        assert k != i ==> n in levels[k];
      }
      if n in NodesOf(levels) {
        var k :| 0 <= k < |levels| && n in levels[k];
        assert n in after[k];
      }
      assert x in after[i];
    }
  }

  lemma DistinctNodes(head: Node, levels: seq<Level>, i: nat)
    requires SortedLevels(head, levels) && i < MAX_HEIGHT
    ensures forall j, k :: 0 <= j < k < |levels[i]| ==> levels[i][j] != levels[i][k]
  {
    assert SortedLevel(head, levels[i]);
  }

  lemma PredOf(head: Node, l: Level, p: nat, q: nat)
    requires SortedLevel(head, l) && 1 <= p < |l| && IsPred(l, l[p].key, q)
    ensures q == p - 1
    ensures l[q] == head <==> p == 1
  {
    assert p > 1 ==> l[p - 1].key < l[p].key;
  }

  /** A cursor over the lowest level, whose position 0 is the head */

  class Iterator {
    const list: SkipList
    var node: Node?

    constructor (list: SkipList)
      ensures this.list == list && node == null
    {
      this.list, node := list, null;
    }

    // The node is the one at position p; past the end there is none.
    ghost predicate At(p: nat)
      reads this, list
    {
      && |list.levels| == MAX_HEIGHT && 1 <= p <= |list.levels[0]|
      && node == if p < |list.levels[0]| then list.levels[0][p] else null
    }

    method SeekToFirst()
      requires list.Valid()
      modifies this
      ensures At(1)
    {
      LevelLinked(list.levels, 0, 0);
      assert SortedLevel(list.head, list.levels[0]);
      node := list.head.next[0];
    }

    method Next(ghost p: nat)
      requires list.Valid() && At(p) && node != null
      modifies this
      ensures At(p + 1)
    {
      LevelLinked(list.levels, 0, p);
      node := node.next[0];
    }

    // Searches from the top for the node before; the head means there is none.
    method Prev(ghost p: nat)
      requires list.Valid() && At(p) && node != null
      modifies this
      ensures At(if p == 1 then |list.levels[0]| else p - 1)
    {
      var n, q := list.FindLessThan(node.key);
      assert SortedLevel(list.head, list.levels[0]);
      PredOf(list.head, list.levels[0], p, q);
      node := n;
      if node == list.head {
        node := null;
      }
    }

    method Seek(target: int) returns (ghost p: nat)
      requires list.Valid()
      modifies this
      ensures At(p) && IsPred(list.levels[0], target, p - 1)
    {
      var n, _, at := list.FindGreaterOrEqual(target);
      node := n;
      p := at[0] + 1;
    }

    method SeekToLast()
      requires list.Valid()
      modifies this
      ensures At(if |list.levels[0]| == 1 then 1 else |list.levels[0]| - 1)
    {
      assert SortedLevel(list.head, list.levels[0]);
      node := list.FindLast();
      if node == list.head {
        node := null;
      }
    }
  }

  ghost predicate AllLinked(levels: seq<Level>)
    reads NodesOf(levels)
  {
    forall i: nat :: i < |levels| ==>
      assert forall n :: n in levels[i] ==> n in NodesOf(levels);
      Linked(levels, i)
  }

  lemma HeadFirst(head: Node, levels: seq<Level>, i: nat)
    requires SortedLevels(head, levels) && i < MAX_HEIGHT
    ensures |levels| == MAX_HEIGHT && levels[i] != [] && levels[i][0] == head
  {
    assert SortedLevel(head, levels[i]);
  }

  lemma LevelLinked(levels: seq<Level>, i: nat, p: nat)
    requires i < |levels| && p < |levels[i]| && AllLinked(levels)
    ensures |levels[i][p].next| > i
    ensures levels[i][p].next[i] == if p + 1 < |levels[i]| then levels[i][p + 1] else null
  {
    assert Linked(levels, i);
  }

  lemma PredHere(head: Node, levels: seq<Level>, i: nat, key: int, p: nat)
    requires SortedLevels(head, levels) && i < MAX_HEIGHT && p < |levels[i]|
    requires forall j :: 1 <= j <= p ==> levels[i][j].key < key
    requires p + 1 < |levels[i]| ==> levels[i][p + 1].key >= key
    ensures IsPred(levels[i], key, p)
  {
    assert SortedLevel(head, levels[i]);
  }

  lemma InLevelBelow(head: Node, levels: seq<Level>, i: nat, x: Node) returns (p: nat)
    requires SortedLevels(head, levels) && 0 < i < MAX_HEIGHT && x in levels[i]
    ensures p < |levels[i - 1]| && levels[i - 1][p] == x
  {
    var lower := levels[i - 1];
    assert Sublist(levels[i], lower);
    p :| 0 <= p < |lower| && lower[p] == x;
  }

  // Going down a level, the node stands at or before the last node before the key.
  lemma Below(head: Node, levels: seq<Level>, i: nat, key: int, p: nat) returns (q: nat)
    requires SortedLevels(head, levels) && 0 < i < MAX_HEIGHT && p < |levels[i]|
    requires forall j :: 1 <= j <= p ==> levels[i][j].key < key
    ensures q < |levels[i - 1]| && levels[i - 1][q] == levels[i][p]
    ensures var lower := levels[i - 1]; forall j :: 1 <= j <= q ==> lower[j].key < key
  {
    q := InLevelBelow(head, levels, i, levels[i][p]);
    assert SortedLevel(head, levels[i]) && SortedLevel(head, levels[i - 1]);
  }

  // The nodes next to a position hold the nearest keys.
  lemma KeysAround(head: Node, levels: seq<Level>, key: int, p: nat)
    requires SortedLevels(head, levels) && IsPred(levels[0], key, p)
    ensures levels[0][p] == head <==> p == 0
    ensures p == 0 ==> forall k :: k in KeysOf(levels[0]) ==> k >= key
    ensures p > 0 ==> levels[0][p].key in KeysOf(levels[0])
    ensures p > 0 ==> forall k :: k in KeysOf(levels[0]) && k < key ==> k <= levels[0][p].key
    ensures p + 1 == |levels[0]| ==> forall k :: k in KeysOf(levels[0]) ==> k < key
    ensures p + 1 < |levels[0]| ==> levels[0][p + 1].key in KeysOf(levels[0])
    ensures p + 1 < |levels[0]| ==> forall k :: k in KeysOf(levels[0]) && k >= key ==> k >= levels[0][p + 1].key
  {
    assert SortedLevel(head, levels[0]);
  }

  lemma FoundOrAbsent(head: Node, levels: seq<Level>, key: int, p: nat)
    requires SortedLevels(head, levels) && IsPred(levels[0], key, p)
    ensures key in KeysOf(levels[0]) <==> p + 1 < |levels[0]| && levels[0][p + 1].key == key
  {
    assert SortedLevel(head, levels[0]);
  }
}
