/** The compaction loop: which merged entries are written and how they are cut into files. */
module CompactionWork {
  import opened Keys
  import opened Wrappers
  import opened Files
  import opened Versions
  import opened CompactionInputs
  import opened Cursors
  import Merger

  // last_sequence_for_key when the loop reaches entry i of the merged input m.
  function LastSequenceForKey(m: seq<Entry>, i: nat): nat
    requires i < |m|
  {
    if i > 0 && m[i - 1].key.ukey == m[i].key.ukey then m[i - 1].key.seqno else MAX_SEQUENCE
  }

  // Rule (A): hidden by a newer entry for the same user key.
  predicate HiddenByNewer(m: seq<Entry>, i: nat, snapshot: nat)
    requires i < |m|
  {
    LastSequenceForKey(m, i) <= snapshot
  }

  // The second rule: a deletion marker with nothing below it to hide.
  ghost predicate ObsoleteDeletion(v: Version, level: nat, e: Entry, snapshot: nat)
    requires |v.levels| == NUM_LEVELS
  {
    e.key.kind == Deletion && e.key.seqno <= snapshot && BaseLevelFor(v, level, e.key.ukey)
  }

  ghost predicate Dropped(v: Version, level: nat, m: seq<Entry>, i: nat, snapshot: nat)
    requires |v.levels| == NUM_LEVELS && i < |m|
  {
    HiddenByNewer(m, i, snapshot) || ObsoleteDeletion(v, level, m[i], snapshot)
  }

  // The entries kept among the first n.
  ghost function Kept(v: Version, level: nat, m: seq<Entry>, snapshot: nat, n: nat): seq<Entry>
    requires |v.levels| == NUM_LEVELS && n <= |m|
  {
    if n == 0 then []
    else Kept(v, level, m, snapshot, n - 1) + if Dropped(v, level, m, n - 1, snapshot) then [] else [m[n - 1]]
  }

  lemma {:induction false} KeptElements(v: Version, level: nat, m: seq<Entry>, snapshot: nat, n: nat)
    requires |v.levels| == NUM_LEVELS && n <= |m|
    ensures forall e :: e in Kept(v, level, m, snapshot, n) <==>
              exists i: nat :: i < n && m[i] == e && !Dropped(v, level, m, i, snapshot)
  {
    if n > 0 {
      KeptElements(v, level, m, snapshot, n - 1);
    }
  }

  // Each entry for itself: it is dropped if a newer entry of its user key is visible at the smallest
  // snapshot, too, or if it is a deletion visible there and no file two or more levels below covers its key.
  lemma KeptIff(v: Version, level: nat, m: seq<Entry>, snapshot: nat, e: Entry)
    requires |v.levels| == NUM_LEVELS && Sorted(m) && e in m && snapshot < MAX_SEQUENCE
    ensures e in Kept(v, level, m, snapshot, |m|) <==>
      && !(exists x :: x in m && x.key.ukey == e.key.ukey && Tag(x.key) > Tag(e.key) && x.key.seqno <= snapshot)
      && !(e.key.kind == Deletion && e.key.seqno <= snapshot
           && forall l: nat, f :: level + 2 <= l < NUM_LEVELS && f in v.levels[l] ==>
                !(f.smallest.ukey <= e.key.ukey <= f.largest.ukey))
  {
    KeptElements(v, level, m, snapshot, |m|);
    var i: nat :| i < |m| && m[i] == e;
    OnlyAt(m, i);
    NewerVisible(m, i, snapshot);
    NotCoveredBelow(v, level, e.key.ukey);
    hide Kept, Sorted, HiddenByNewer, BaseLevelFor;
  }

  lemma OnlyAt(m: seq<Entry>, i: nat)
    requires Sorted(m) && i < |m|
    ensures forall j :: 0 <= j < |m| && m[j] == m[i] ==> j == i
  {
  }

  lemma NotCoveredBelow(v: Version, level: nat, u: UserKey)
    requires |v.levels| == NUM_LEVELS
    ensures BaseLevelFor(v, level, u) <==>
      forall l: nat, f :: level + 2 <= l < NUM_LEVELS && f in v.levels[l] ==> !(f.smallest.ukey <= u <= f.largest.ukey)
  {
    if forall l: nat, f :: level + 2 <= l < NUM_LEVELS && f in v.levels[l] ==> !(f.smallest.ukey <= u <= f.largest.ukey) {
      forall l: nat | level + 2 <= l < NUM_LEVELS
        ensures NotCovered(v.levels[l], u)
      {
      }
    }
  }

  // The entry just before is the oldest of the newer ones.
  lemma NewerVisible(m: seq<Entry>, i: nat, snapshot: nat)
    requires Sorted(m) && i < |m| && snapshot < MAX_SEQUENCE
    ensures HiddenByNewer(m, i, snapshot) <==>
      exists x :: x in m && x.key.ukey == m[i].key.ukey && Tag(x.key) > Tag(m[i].key) && x.key.seqno <= snapshot
  {
    if HiddenByNewer(m, i, snapshot) {
      assert m[i - 1] in m && Less(m[i - 1].key, m[i].key);
    }
    if x :| x in m && x.key.ukey == m[i].key.ukey && Tag(x.key) > Tag(m[i].key) && x.key.seqno <= snapshot {
      var j :| 0 <= j < |m| && m[j] == x;
      assert j < i;
      if j < i - 1 {
        assert Less(m[j].key, m[i - 1].key) && Less(m[i - 1].key, m[i].key);
      }
    }
  }

  lemma {:induction false} KeptIsSorted(v: Version, level: nat, m: seq<Entry>, snapshot: nat, n: nat)
    requires |v.levels| == NUM_LEVELS && n <= |m| && Sorted(m)
    ensures Sorted(Kept(v, level, m, snapshot, n))
  {
    if n > 0 {
      KeptIsSorted(v, level, m, snapshot, n - 1);
      KeptElements(v, level, m, snapshot, n - 1);
      var k := Kept(v, level, m, snapshot, n - 1);
      forall j | 0 <= j < |k|
        ensures Less(k[j].key, m[n - 1].key)
      {
        assert k[j] in k;
      }
    }
  }

  /** Output files */

  ghost function Flatten(fs: seq<File>): seq<Entry> {
    if fs == [] then [] else Flatten(fs[..|fs| - 1]) + fs[|fs| - 1].table
  }

  lemma {:induction false} FlattenElements(fs: seq<File>)
    ensures forall e :: e in Flatten(fs) <==> e in TableEntries(fs)
  {
    if fs != [] {
      FlattenElements(fs[..|fs| - 1]);
      assert fs == fs[..|fs| - 1] + [fs[|fs| - 1]];
    }
  }

  // A finished output file over a non-empty sorted table.
  function OutputFile(number: nat, size: nat, table: seq<Entry>): File
    requires table != []
  {
    File(number, size, table[0].key, table[|table| - 1].key, table)
  }

  // The outputs so far: consecutive numbers, non-empty tables, metadata from the tables.
  ghost predicate Outputs(fs: seq<File>, firstNumber: nat) {
    forall i :: 0 <= i < |fs| ==>
      fs[i].table != [] && fs[i] == OutputFile(firstNumber + i, fs[i].size, fs[i].table)
  }

  lemma SortedParts(a: seq<Entry>, b: seq<Entry>)
    requires Sorted(a + b)
    ensures Sorted(a) && Sorted(b)
    ensures forall x, y :: x in a && y in b ==> Less(x.key, y.key)
  {
    assert forall i :: 0 <= i < |a| ==> (a + b)[i] == a[i];
    assert forall i :: 0 <= i < |b| ==> (a + b)[|a| + i] == b[i];
  }

  lemma SortedFilesGrow(fs: seq<File>, f: File)
    requires SortedFiles(fs) && ValidFile(f)
    requires forall g :: g in fs ==> Less(g.largest, f.smallest)
    ensures SortedFiles(fs + [f])
  {
  }

  lemma {:induction false} OutputsAreSorted(fs: seq<File>, firstNumber: nat)
    requires Outputs(fs, firstNumber) && Sorted(Flatten(fs))
    requires forall e :: e in Flatten(fs) ==> e.key.seqno <= MAX_SEQUENCE
    ensures SortedFiles(fs)
  {
    if fs == [] {
      assert SortedFiles([]);
    } else {
      hide *;
      var rest, f := fs[..|fs| - 1], fs[|fs| - 1];
      LastOutput(fs, firstNumber);
      FlattenLast(fs);
      SortedParts(Flatten(rest), f.table);
      OutputsAreSorted(rest, firstNumber);
      OutputIsValid(f);
      BeforeLast(rest, f);
      SortedFilesGrow(rest, f);
      SplitLast(fs);
    }
  }

  lemma FlattenLast(fs: seq<File>)
    requires fs != []
    ensures Flatten(fs) == Flatten(fs[..|fs| - 1]) + fs[|fs| - 1].table
  {
  }

  lemma BeforeLast(rest: seq<File>, f: File)
    requires SortedFiles(rest) && ValidFile(f)
    requires forall x, y :: x in Flatten(rest) && y in f.table ==> Less(x.key, y.key)
    ensures forall g :: g in rest ==> Less(g.largest, f.smallest)
  {
    hide Sorted, SortedFiles, Flatten;
    FlattenElements(rest);
    forall g | g in rest
      ensures Less(g.largest, f.smallest)
    {
      SortedMember(rest, g);
      OutputLargest(g);
      assert g.table[|g.table| - 1] in g.table && g.table[|g.table| - 1] in TableEntries(rest);
      assert f.table[0] in f.table;
    }
  }

  lemma SplitLast(fs: seq<File>)
    requires fs != []
    ensures fs == fs[..|fs| - 1] + [fs[|fs| - 1]]
  {
  }

  lemma LastOutput(fs: seq<File>, firstNumber: nat)
    requires Outputs(fs, firstNumber) && fs != []
    ensures Outputs(fs[..|fs| - 1], firstNumber)
    ensures var f := fs[|fs| - 1]; f.table != [] && f == OutputFile(f.number, f.size, f.table)
  {
  }

  lemma SortedMember(fs: seq<File>, g: File)
    requires SortedFiles(fs) && g in fs
    ensures ValidFile(g)
  {
  }

  lemma OutputIsValid(f: File)
    requires f.table != [] && Sorted(f.table) && f == OutputFile(f.number, f.size, f.table)
    requires forall e :: e in f.table ==> e.key.seqno <= MAX_SEQUENCE
    ensures ValidFile(f)
  {
  }

  lemma OutputLargest(g: File)
    requires ValidFile(g)
    ensures g.table != [] && g.largest == g.table[|g.table| - 1].key
  {
  }

  // cutBefore and cutAfter say where the size and grandparent heuristics close an output file.
  method DoCompactionWork(c: Compaction, input: Merger.MergingIterator, ghost m: seq<Entry>, snapshot: nat, firstNumber: nat,
                          cutBefore: set<nat>, cutAfter: set<nat>, sizeOf: seq<Entry> -> nat)
    returns (outputs: seq<File>)
    requires Shaped(c.version) && c.level + 1 < NUM_LEVELS && c.levelPtrs == seq(NUM_LEVELS, _ => 0)
    requires input.Valid() && Sorted(m) && Elements(m) == Merger.Union(input.children)
    modifies c`levelPtrs, input
    ensures Flatten(outputs) == Kept(c.version, c.level, m, snapshot, |m|)
    ensures Outputs(outputs, firstNumber)
  {
    hide Shaped, Sorted, Flatten, Outputs, Dropped, Compaction.PtrsBehind, Merger.GoodChildren, Merger.Settled, Merger.Union, Elements;
    NothingYet(firstNumber);
    PtrsAtStart(c);
    outputs := [];
    var building: seq<Entry> := [];
    var current: Option<UserKey> := None;
    var last := MAX_SEQUENCE;
    var i := 0;
    input.SeekToFirst();
    Merger.MergesLikeOneList(input.children, m, 0, IKey(0, 0, Value), input.Entry());
    while input.Entry().Some?
      invariant 0 <= i <= |m| && input.Valid() && input.Entry() == At(m, i)
      invariant current == if i == 0 then None else Some(m[i - 1].key.ukey)
      invariant i > 0 ==> last == m[i - 1].key.seqno
      invariant forall u :: (i > 0 ==> m[i - 1].key.ukey <= u) ==> c.PtrsBehind(u)
      invariant Outputs(outputs, firstNumber)
      invariant Flatten(outputs) + building == Kept(c.version, c.level, m, snapshot, i)
      decreases |m| - i
    {
      var e := input.Entry().value;
      if i in cutBefore && building != [] {
        outputs := FinishOutput(outputs, building, firstNumber, sizeOf);
        building := [];
      }
      if current == None || current.value != e.key.ukey {
        current := Some(e.key.ukey);
        last := MAX_SEQUENCE;
      }
      var drop := ShouldDrop(c, e, last, snapshot, m, i);
      last := e.key.seqno;
      if !drop {
        building := building + [e];
        if i in cutAfter {
          outputs := FinishOutput(outputs, building, firstNumber, sizeOf);
          building := [];
        }
      }
      input.Next();
      Merger.MergesLikeOneList(input.children, m, i, IKey(0, 0, Value), input.Entry());
      i := i + 1;
    }
    if building != [] {
      outputs := FinishOutput(outputs, building, firstNumber, sizeOf);
    }
  }

  lemma NothingYet(firstNumber: nat)
    ensures Outputs([], firstNumber) && Flatten([]) == []
  {
  }

  lemma PtrsAtStart(c: Compaction)
    requires Shaped(c.version) && c.level + 1 < NUM_LEVELS && c.levelPtrs == seq(NUM_LEVELS, _ => 0)
    ensures |c.version.levels| == NUM_LEVELS && forall u :: c.PtrsBehind(u)
  {
  }

  method ShouldDrop(c: Compaction, e: Entry, last: nat, snapshot: nat, ghost m: seq<Entry>, ghost i: nat) returns (drop: bool)
    requires Shaped(c.version) && c.level + 1 < NUM_LEVELS
    requires Sorted(m) && i < |m| && e == m[i] && last == LastSequenceForKey(m, i)
    requires forall u :: (i > 0 ==> m[i - 1].key.ukey <= u) ==> c.PtrsBehind(u)
    modifies c`levelPtrs
    ensures drop <==> Dropped(c.version, c.level, m, i, snapshot)
    ensures forall u :: m[i].key.ukey <= u ==> c.PtrsBehind(u)
  {
    drop := false;
    assert i > 0 ==> Less(m[i - 1].key, m[i].key);
    if last <= snapshot {
      drop := true;
    } else if e.key.kind == Deletion && e.key.seqno <= snapshot {
      drop := c.IsBaseLevelForKey(e.key.ukey);
    }
  }

  method FinishOutput(outputs: seq<File>, building: seq<Entry>, firstNumber: nat, sizeOf: seq<Entry> -> nat) returns (r: seq<File>)
    requires building != [] && Outputs(outputs, firstNumber)
    ensures Outputs(r, firstNumber) && Flatten(r) == Flatten(outputs) + building
  {
    r := outputs + [OutputFile(firstNumber + |outputs|, sizeOf(building), building)];
    assert r[..|r| - 1] == outputs;
  }
}
