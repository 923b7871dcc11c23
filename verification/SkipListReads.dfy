/** A reader of the skip list while a writer publishes: every store of a link and every load of one
    is a step of its own. What a reader can see of memory are the lists of keys that the links form. */
module SkipListReads {
  import opened Wrappers
  import opened SkipLists

  datatype Memory = Memory(lists: seq<seq<int>>, maxHeight: nat)

  // Where FindGreaterOrEqual stands: at a key, or at the head, and on which level.
  datatype Reader = Reader(target: int, at: Option<int>, level: nat, result: Option<Option<int>>)

  datatype State = State(memory: Memory, reader: Reader)

  ghost predicate Ascending(l: seq<int>) {
    forall j, k :: 0 <= j < k < |l| ==> l[j] < l[k]
  }

  function Elements(l: seq<int>): set<int> {
    set k | k in l
  }

  ghost predicate GoodMemory(m: Memory) {
    && |m.lists| == MAX_HEIGHT && 1 <= m.maxHeight <= MAX_HEIGHT
    && (forall i: nat :: i < MAX_HEIGHT ==> Ascending(m.lists[i]))
    && (forall i: nat, j: nat :: j < i < MAX_HEIGHT ==> Elements(m.lists[i]) <= Elements(m.lists[j]))
  }

  // The first key of the list that is not below the bound.
  ghost predicate IsFirstFrom(l: seq<int>, bound: int, r: Option<int>) {
    match r
    case None => forall k :: k in l ==> k < bound
    case Some(k) => k in l && k >= bound && forall j :: j in l && j >= bound ==> k <= j
  }

  // The key that the link of a node, or of the head, leads to.
  ghost predicate IsNext(l: seq<int>, at: Option<int>, r: Option<int>) {
    match at
    case None => r == if l == [] then None else Some(l[0])
    case Some(k) => exists j :: 0 <= j < |l| && l[j] == k && r == if j + 1 < |l| then Some(l[j + 1]) else None
  }

  /** Steps of the writer */

  // The store that publishes a new key at level i, its links on the lower levels being in place.
  ghost predicate Publish(m: Memory, i: nat, key: int, t: Memory) {
    && i < MAX_HEIGHT && |m.lists| == MAX_HEIGHT && key !in m.lists[i] && (forall j: nat :: j < i ==> key in m.lists[j])
    && |t.lists| == MAX_HEIGHT && t.maxHeight == m.maxHeight
    && (forall j: nat :: j < MAX_HEIGHT && j != i ==> t.lists[j] == m.lists[j])
    && Ascending(t.lists[i]) && Elements(t.lists[i]) == Elements(m.lists[i]) + {key}
  }

  ghost predicate RaiseHeight(m: Memory, t: Memory) {
    m.maxHeight <= t.maxHeight <= MAX_HEIGHT && t.lists == m.lists
  }

  ghost predicate WriterStep(s: State, t: State) {
    t.reader == s.reader && (RaiseHeight(s.memory, t.memory) || exists i, key :: Publish(s.memory, i, key, t.memory))
  }

  /** Steps of the reader: one load each */

  ghost predicate ReaderStep(s: State, t: State) {
    var m, r := s.memory, s.reader;
    && t.memory == m && r.result.None? && r.level < |m.lists|
    && exists next :: IsNext(m.lists[r.level], r.at, next)
         && t.reader == (if next.Some? && next.value < r.target then r.(at := next)
                         else if r.level == 0 then r.(result := Some(next))
                         else r.(level := r.level - 1))
  }

  // At the head, on the topmost level that the reader finds in use.
  ghost predicate Starts(s: State) {
    GoodMemory(s.memory) && s.reader == Reader(s.reader.target, None, s.memory.maxHeight - 1, None)
  }

  ghost predicate Run(ss: seq<State>) {
    && |ss| > 0
    && Starts(ss[0])
    && forall i :: 0 <= i < |ss| - 1 ==> WriterStep(ss[i], ss[i + 1]) || ReaderStep(ss[i], ss[i + 1])
  }

  /** The invariant */

  ghost predicate Inv(s: State) {
    var m, r := s.memory, s.reader;
    && GoodMemory(m) && r.level < MAX_HEIGHT
    && (r.at.Some? ==> r.at.value in m.lists[r.level] && r.at.value < r.target)
  }

  lemma PublishKeepsGood(m: Memory, i: nat, key: int, t: Memory)
    requires GoodMemory(m) && Publish(m, i, key, t)
    ensures GoodMemory(t)
  {
    forall k: nat, j: nat | j < k < MAX_HEIGHT
      ensures Elements(t.lists[k]) <= Elements(t.lists[j])
    {
      assert Elements(m.lists[k]) <= Elements(m.lists[j]);
      assert j < i ==> key in Elements(m.lists[j]);
    }
  }

  lemma NextIsFirst(l: seq<int>, at: Option<int>, next: Option<int>, target: int)
    requires Ascending(l) && IsNext(l, at, next) && (at.Some? ==> at.value < target)
    ensures next.Some? ==> next.value in l
    ensures !(next.Some? && next.value < target) ==> IsFirstFrom(l, target, next)
  {
  }

  lemma StepKeepsInv(s: State, t: State)
    requires Inv(s) && (WriterStep(s, t) || ReaderStep(s, t))
    ensures Inv(t)
    ensures forall i: nat :: i < MAX_HEIGHT ==> Elements(s.memory.lists[i]) <= Elements(t.memory.lists[i])
    ensures s.reader.result.None? && t.reader.result.Some? ==>
      t.memory == s.memory && IsFirstFrom(s.memory.lists[0], s.reader.target, t.reader.result.value)
    ensures s.reader.result.Some? ==> t.reader.result == s.reader.result
    ensures t.reader.target == s.reader.target
  {
    var m, r := s.memory, s.reader;
    if WriterStep(s, t) {
      if i, key :| Publish(m, i, key, t.memory) {
        PublishKeepsGood(m, i, key, t.memory);
        forall j: nat | j < MAX_HEIGHT
          ensures Elements(m.lists[j]) <= Elements(t.memory.lists[j])
        {
        }
      }
      assert r.at.Some? ==> r.at.value in Elements(m.lists[r.level]) && r.at.value in Elements(t.memory.lists[r.level]);
    } else {
      var next :| IsNext(m.lists[r.level], r.at, next)
        && t.reader == (if next.Some? && next.value < r.target then r.(at := next)
                        else if r.level == 0 then r.(result := Some(next))
                        else r.(level := r.level - 1));
      NextIsFirst(m.lists[r.level], r.at, next, r.target);
      assert r.level > 0 ==> Elements(m.lists[r.level]) <= Elements(m.lists[r.level - 1]);
      assert r.at.Some? ==> r.at.value in Elements(m.lists[r.level]);
    }
  }

  // A reader is never stuck, and every step takes it along its level, down a level, or to its result.
  lemma ReaderCanStep(s: State) returns (t: State)
    requires Inv(s) && s.reader.result.None?
    ensures ReaderStep(s, t)
    ensures t.reader.result.Some? || t.reader.level + 1 == s.reader.level
         || (t.reader.level == s.reader.level && t.reader.at.Some? && (s.reader.at.Some? ==> s.reader.at.value < t.reader.at.value < s.reader.target))
  {
    var m, r := s.memory, s.reader;
    var l := m.lists[r.level];
    var next: Option<int>;
    if r.at.None? {
      next := if l == [] then None else Some(l[0]);
    } else {
      var j :| 0 <= j < |l| && l[j] == r.at.value;
      next := if j + 1 < |l| then Some(l[j + 1]) else None;
    }
    assert IsNext(l, r.at, next);
    t := s.(reader := if next.Some? && next.value < r.target then r.(at := next)
                      else if r.level == 0 then r.(result := Some(next)) else r.(level := r.level - 1));
  }

  lemma {:induction false} RunKeepsInv(ss: seq<State>, i: nat)
    requires Run(ss) && i < |ss|
    ensures Inv(ss[i]) && ss[i].reader.target == ss[0].reader.target
    ensures Elements(ss[0].memory.lists[0]) <= Elements(ss[i].memory.lists[0])
  {
    hide Starts, WriterStep, ReaderStep, Inv;
    if i == 0 {
      FirstInv(ss[0]);
    } else {
      RunKeepsInv(ss, i - 1);
      StepKeepsInv(ss[i - 1], ss[i]);
    }
  }

  lemma FirstInv(s: State)
    requires Starts(s)
    ensures Inv(s)
  {
  }

  // The reader returns the first key at or after the target in the lowest list as it is at its last
  // load. So it misses no key that was there when it started.
  lemma ReadIsCurrent(ss: seq<State>, i: nat)
    requires Run(ss) && i + 1 < |ss| && ss[i].reader.result.None? && ss[i + 1].reader.result.Some?
    ensures var r := ss[i + 1].reader.result.value;
      && |ss[i].memory.lists| > 0 && IsFirstFrom(ss[i].memory.lists[0], ss[0].reader.target, r)
      && |ss[0].memory.lists| > 0
      && forall k :: k in ss[0].memory.lists[0] && k >= ss[0].reader.target ==> r.Some? && r.value <= k
  {
    RunKeepsInv(ss, i);
    StepKeepsInv(ss[i], ss[i + 1]);
    forall k | k in ss[0].memory.lists[0]
      ensures k in ss[i].memory.lists[0]
    {
      assert k in Elements(ss[0].memory.lists[0]);
    }
  }

  /** The stores of Insert are these steps */

  function KeyList(l: Level): (r: seq<int>)
    requires l != []
    ensures |r| == |l| - 1 && forall j :: 0 <= j < |r| ==> r[j] == l[j + 1].key
  {
    seq(|l| - 1, j requires 0 <= j < |l| - 1 => l[j + 1].key)
  }

  // What a reader sees of a skip list.
  ghost predicate Shows(head: Node, levels: seq<Level>, m: Memory) {
    && SortedLevels(head, levels) && |m.lists| == MAX_HEIGHT
    && forall i: nat :: i < MAX_HEIGHT ==> levels[i] != [] && m.lists[i] == KeyList(levels[i])
  }

  lemma PublishIsStep(head: Node, levels: seq<Level>, m: Memory, i: nat, p: nat, x: Node, t: Memory)
    requires Shows(head, levels, m) && i < MAX_HEIGHT && IsPred(levels[i], x.key, p)
    requires x != head && x.key !in KeysOf(levels[i]) && forall j :: 0 <= j < i ==> x in levels[j]
    requires Shows(head, levels[i := Splice(levels[i], p, x)], t) && t.maxHeight == m.maxHeight
    ensures Publish(m, i, x.key, t)
  {
    var after := levels[i := Splice(levels[i], p, x)];
    SpliceKeys(levels[i], p, x);
    forall j: nat | j < MAX_HEIGHT
      ensures Elements(m.lists[j]) == KeysOf(levels[j]) && Elements(t.lists[j]) == KeysOf(after[j])
      ensures j < i ==> x.key in m.lists[j]
    {
      ListedKeys(levels[j]);
      ListedKeys(after[j]);
      assert SortedLevel(head, levels[j]);
      if j < i {
        var q :| 0 <= q < |levels[j]| && levels[j][q] == x;
        assert m.lists[j][q - 1] == x.key;
      }
    }
    assert SortedLevel(head, after[i]);
    assert x.key !in Elements(m.lists[i]);
  }

  lemma ListedKeys(l: Level)
    requires l != []
    ensures Elements(KeyList(l)) == KeysOf(l)
  {
    forall k | k in KeysOf(l)
      ensures k in KeyList(l)
    {
      var j :| 1 <= j < |l| && l[j].key == k;
      assert KeyList(l)[j - 1] == k;
    }
  }
}
