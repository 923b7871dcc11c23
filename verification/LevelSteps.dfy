/** The steps that change a version keep the level order: flush, trivial move, merging compaction. */
module LevelSteps {
  import opened Keys
  import opened Wrappers
  import opened Files
  import opened Versions
  import opened Compactions
  import opened CompactionInputs

  ghost predicate Apart(f: File, g: File) {
    Less(f.largest, g.smallest) || Less(g.largest, f.smallest)
  }

  lemma ApartIsSorted(fs: seq<File>)
    requires ValidFiles(fs) && BySmallestKey(fs)
    requires forall f, g :: f in fs && g in fs && f != g ==> Apart(f, g)
    ensures SortedFiles(fs)
  {
    forall i, j | 0 <= i < j < |fs|
      ensures Less(fs[i].largest, fs[j].smallest)
    {
      assert FileBefore(fs[i], fs[j]);
      var f, g := fs[i], fs[j];
      assert f in fs && g in fs && Apart(f, g);
      FileBounds(f, f.table[0]);
      FileBounds(g, g.table[0]);
    }
  }

  lemma SortedIsApart(fs: seq<File>, f: File, g: File)
    requires SortedFiles(fs) && f in fs && g in fs && f != g
    ensures Apart(f, g)
  {
  }

  /** Shift: input files of two neighbouring levels are replaced by output files in the deeper one. */

  // f is in level l of v and is not an input.
  ghost predicate Bystander(v: Version, level: nat, inputs0: seq<File>, inputs1: seq<File>, l: nat, f: File)
    requires |v.levels| == NUM_LEVELS && l < NUM_LEVELS
  {
    f in v.levels[l] && !(l == level && f in inputs0) && !(l == level + 1 && f in inputs1)
  }

  ghost predicate Shifted(v: Version, level: nat, inputs0: seq<File>, inputs1: seq<File>, outputs: seq<File>, v2: Version) {
    && |v.levels| == NUM_LEVELS && |v2.levels| == NUM_LEVELS && level + 1 < NUM_LEVELS
    && (forall l: nat :: l < NUM_LEVELS ==> BySmallestKey(v2.levels[l]))
    && forall l: nat, f :: l < NUM_LEVELS ==>
         (f in v2.levels[l] <==> Bystander(v, level, inputs0, inputs1, l, f) || (l == level + 1 && f in outputs))
  }

  // What the outputs owe to the inputs.
  ghost predicate GoodOutputs(v: Version, level: nat, inputs0: seq<File>, inputs1: seq<File>, outputs: seq<File>)
    requires |v.levels| == NUM_LEVELS
  {
    && SortedFiles(outputs)
    && TableEntries(outputs) <= TableEntries(inputs0) + TableEntries(inputs1)
    && (forall f, g :: f in outputs && g in outputs && f.number == g.number ==> f == g)
    && (forall l: nat, f, g :: f in outputs && l < NUM_LEVELS && Bystander(v, level, inputs0, inputs1, l, g) ==> f.number != g.number)
  }

  // The entries of the files that a shift does not touch.
  ghost function Rest(v: Version, level: nat, inputs0: seq<File>, inputs1: seq<File>): set<Entry>
    requires |v.levels| == NUM_LEVELS
  {
    set l: nat, f, e | l < NUM_LEVELS && f in v.levels[l] && Bystander(v, level, inputs0, inputs1, l, f) && e in f.table :: e
  }

  lemma OutputEntry(inputs0: seq<File>, inputs1: seq<File>, outputs: seq<File>, o: File, e: Entry) returns (upper: bool, h: File)
    requires TableEntries(outputs) <= TableEntries(inputs0) + TableEntries(inputs1)
    requires o in outputs && e in o.table
    ensures (if upper then h in inputs0 else h in inputs1) && e in h.table
  {
    assert e in TableEntries(outputs);
    upper := e in TableEntries(inputs0);
    if upper {
      h :| h in inputs0 && e in h.table;
    } else {
      h :| h in inputs1 && e in h.table;
    }
  }

  ghost predicate ShiftReady(v: Version, level: nat, inputs0: seq<File>, inputs1: seq<File>) {
    && LevelOrder(v) && level + 1 < NUM_LEVELS
    && ClosedInputs(v, level, inputs0) && LowerInputs(v, level, inputs0, inputs1)
  }

  lemma InputsInLevels(v: Version, level: nat, inputs0: seq<File>, inputs1: seq<File>)
    requires |v.levels| == NUM_LEVELS && level + 1 < NUM_LEVELS
    requires ClosedInputs(v, level, inputs0) && LowerInputs(v, level, inputs0, inputs1)
    ensures forall f :: f in inputs0 ==> f in v.levels[level]
    ensures forall f :: f in inputs1 ==> f in v.levels[level + 1]
  {
    var lo, hi :| IsSmallest(inputs0, lo) && IsLargest(inputs0, hi)
                  && inputs1 == Overlapping(v.levels[level + 1], Some(lo.ukey), Some(hi.ukey));
    OverlappingElements(v.levels[level + 1], Some(lo.ukey), Some(hi.ukey));
  }

  // Bystanders at or above the compacted level are newer than the inputs, those below level + 1 older.
  lemma BystanderAge(v: Version, level: nat, inputs0: seq<File>, inputs1: seq<File>, l: nat, g: File, h: File)
    requires ShiftReady(v, level, inputs0, inputs1)
    requires l < NUM_LEVELS && Bystander(v, level, inputs0, inputs1, l, g)
    requires h in inputs0 || h in inputs1
    ensures l <= level ==> NewerThan(g, h)
    ensures l >= level + 2 ==> NewerThan(h, g)
  {
    InputsInLevels(v, level, inputs0, inputs1);
    hide Shaped, UniqueNumbers, Distinct, NewerThan, LowerInputs, ClosedInputs;
    if l == level && h in inputs0 {
      ClosedInputsAreOldest(v, level, inputs0, g, h);
    }
  }

  // A file of level + 1 that is not an input lies entirely on one side of every input entry.
  lemma BystanderSide(v: Version, level: nat, inputs0: seq<File>, inputs1: seq<File>, lo: IKey, hi: IKey, g: File, h: File, e: Entry)
    requires Shaped(v) && level + 1 < NUM_LEVELS && ClosedInputs(v, level, inputs0)
    requires IsSmallest(inputs0, lo) && IsLargest(inputs0, hi)
    requires inputs1 == Overlapping(v.levels[level + 1], Some(lo.ukey), Some(hi.ukey))
    requires g in v.levels[level + 1] && g !in inputs1
    requires (h in inputs0 || h in inputs1) && e in h.table
    ensures if g.largest.ukey < lo.ukey then Less(g.largest, e.key) else Less(e.key, g.smallest)
  {
    OverlappingElements(v.levels[level + 1], Some(lo.ukey), Some(hi.ukey));
    assert ValidFile(g) && ValidFile(h);
    FileBounds(h, e);
    FileBounds(g, g.table[0]);
    FileBounds(h, h.table[0]);
    if h in inputs1 {
      SortedIsApart(v.levels[level + 1], g, h);
    }
  }

  lemma ReadyHull(v: Version, level: nat, inputs0: seq<File>, inputs1: seq<File>) returns (lo: IKey, hi: IKey)
    requires ShiftReady(v, level, inputs0, inputs1)
    ensures Shaped(v) && level + 1 < NUM_LEVELS && ClosedInputs(v, level, inputs0)
    ensures IsSmallest(inputs0, lo) && IsLargest(inputs0, hi)
    ensures inputs1 == Overlapping(v.levels[level + 1], Some(lo.ukey), Some(hi.ukey))
  {
    lo, hi :| IsSmallest(inputs0, lo) && IsLargest(inputs0, hi)
              && inputs1 == Overlapping(v.levels[level + 1], Some(lo.ukey), Some(hi.ukey));
  }

  lemma OutputBounds(v: Version, level: nat, inputs0: seq<File>, inputs1: seq<File>, outputs: seq<File>, o: File)
    requires |v.levels| == NUM_LEVELS && GoodOutputs(v, level, inputs0, inputs1, outputs) && o in outputs
    ensures o.table != [] && o.smallest == o.table[0].key && o.largest == o.table[|o.table| - 1].key
    ensures TableEntries(outputs) <= TableEntries(inputs0) + TableEntries(inputs1)
  {
    assert ValidFile(o);
  }

  lemma OutputApart(v: Version, level: nat, inputs0: seq<File>, inputs1: seq<File>, outputs: seq<File>, o: File, g: File)
    requires ShiftReady(v, level, inputs0, inputs1)
    requires GoodOutputs(v, level, inputs0, inputs1, outputs) && o in outputs
    requires g in v.levels[level + 1] && g !in inputs1
    ensures Apart(o, g)
  {
    hide ShiftReady, GoodOutputs, Overlapping, IsSmallest, IsLargest, TableEntries, Shaped;
    var lo, hi := ReadyHull(v, level, inputs0, inputs1);
    OutputBounds(v, level, inputs0, inputs1, outputs, o);
    var first, last := o.table[0], o.table[|o.table| - 1];
    var _, h1 := OutputEntry(inputs0, inputs1, outputs, o, first);
    var _, h2 := OutputEntry(inputs0, inputs1, outputs, o, last);
    BystanderSide(v, level, inputs0, inputs1, lo, hi, g, h1, first);
    BystanderSide(v, level, inputs0, inputs1, lo, hi, g, h2, last);
  }

  lemma OutputAge(v: Version, level: nat, inputs0: seq<File>, inputs1: seq<File>, outputs: seq<File>, o: File, l: nat, g: File)
    requires ShiftReady(v, level, inputs0, inputs1)
    requires GoodOutputs(v, level, inputs0, inputs1, outputs) && o in outputs
    requires l < NUM_LEVELS && Bystander(v, level, inputs0, inputs1, l, g)
    ensures l <= level ==> NewerThan(g, o)
    ensures l >= level + 2 ==> NewerThan(o, g)
  {
    hide ShiftReady, Bystander;
    forall x, y | x in g.table && y in o.table && x.key.ukey == y.key.ukey
      ensures l <= level ==> x.key.seqno > y.key.seqno
      ensures l >= level + 2 ==> y.key.seqno > x.key.seqno
    {
      var _, h := OutputEntry(inputs0, inputs1, outputs, o, y);
      BystanderAge(v, level, inputs0, inputs1, l, g, h);
    }
  }

  lemma ShiftedEntries(v: Version, level: nat, inputs0: seq<File>, inputs1: seq<File>, outputs: seq<File>, v2: Version)
    requires Shifted(v, level, inputs0, inputs1, outputs, v2)
    requires forall f :: f in inputs0 ==> f in v.levels[level]
    requires forall f :: f in inputs1 ==> f in v.levels[level + 1]
    ensures Entries(v2) == TableEntries(outputs) + Rest(v, level, inputs0, inputs1)
    ensures Entries(v) == TableEntries(inputs0) + TableEntries(inputs1) + Rest(v, level, inputs0, inputs1)
  {
    var rest := Rest(v, level, inputs0, inputs1);
    forall e | e in Entries(v2)
      ensures e in TableEntries(outputs) + rest
    {
      var l: nat, f :| l < NUM_LEVELS && f in v2.levels[l] && e in f.table;
      assert Bystander(v, level, inputs0, inputs1, l, f) || f in outputs;
    }
    forall e | e in TableEntries(outputs) + rest
      ensures e in Entries(v2)
    {
      if e in TableEntries(outputs) {
        var f :| f in outputs && e in f.table;
        assert f in v2.levels[level + 1];
      } else {
        var l: nat, f :| l < NUM_LEVELS && f in v.levels[l] && Bystander(v, level, inputs0, inputs1, l, f) && e in f.table;
        assert f in v2.levels[l];
      }
    }
    forall e | e in Entries(v)
      ensures e in TableEntries(inputs0) + TableEntries(inputs1) + rest
    {
      var l: nat, f :| l < NUM_LEVELS && f in v.levels[l] && e in f.table;
      assert Bystander(v, level, inputs0, inputs1, l, f) || f in inputs0 || f in inputs1;
    }
  }

  lemma ShiftedIsShaped(v: Version, level: nat, inputs0: seq<File>, inputs1: seq<File>, outputs: seq<File>, v2: Version)
    requires ShiftReady(v, level, inputs0, inputs1)
    requires GoodOutputs(v, level, inputs0, inputs1, outputs)
    requires Shifted(v, level, inputs0, inputs1, outputs, v2)
    ensures Shaped(v2)
  {
    hide ClosedInputs, LowerInputs, UniqueNumbers, Distinct, AgeOrdered, ValidFile, BySmallestKey;
    forall l: nat | l < NUM_LEVELS
      ensures ValidFiles(v2.levels[l])
    {
      assert ValidFiles(v.levels[l]);
    }
    forall l: nat | 1 <= l < NUM_LEVELS
      ensures SortedFiles(v2.levels[l])
    {
      forall f, g | f in v2.levels[l] && g in v2.levels[l] && f != g
        ensures Apart(f, g)
      {
        ShiftedApart(v, level, inputs0, inputs1, outputs, v2, l, f, g);
      }
      ApartIsSorted(v2.levels[l]);
    }
  }

  lemma ShiftedApart(v: Version, level: nat, inputs0: seq<File>, inputs1: seq<File>, outputs: seq<File>, v2: Version, l: nat, f: File, g: File)
    requires ShiftReady(v, level, inputs0, inputs1)
    requires GoodOutputs(v, level, inputs0, inputs1, outputs)
    requires Shifted(v, level, inputs0, inputs1, outputs, v2)
    requires 1 <= l < NUM_LEVELS && f in v2.levels[l] && g in v2.levels[l] && f != g
    ensures Apart(f, g)
  {
    hide ClosedInputs, LowerInputs, UniqueNumbers, Distinct, AgeOrdered, ValidFile, BySmallestKey, SortedFiles;
    if Bystander(v, level, inputs0, inputs1, l, f) && Bystander(v, level, inputs0, inputs1, l, g) {
      SortedIsApart(v.levels[l], f, g);
    } else if Bystander(v, level, inputs0, inputs1, l, f) {
      OutputApart(v, level, inputs0, inputs1, outputs, g, f);
    } else if Bystander(v, level, inputs0, inputs1, l, g) {
      OutputApart(v, level, inputs0, inputs1, outputs, f, g);
    } else {
      SortedIsApart(outputs, f, g);
    }
  }

  lemma ShiftedAge(v: Version, level: nat, inputs0: seq<File>, inputs1: seq<File>, outputs: seq<File>, v2: Version)
    requires ShiftReady(v, level, inputs0, inputs1)
    requires GoodOutputs(v, level, inputs0, inputs1, outputs)
    requires Shifted(v, level, inputs0, inputs1, outputs, v2)
    ensures AgeOrdered(v2)
  {
    hide Shaped, ClosedInputs, LowerInputs, UniqueNumbers, Distinct, NewerThan, GoodOutputs, BySmallestKey;
    forall l: nat, m: nat, f, g | l < m < NUM_LEVELS && f in v2.levels[l] && g in v2.levels[m]
      ensures NewerThan(f, g)
    {
      if Bystander(v, level, inputs0, inputs1, l, f) {
        if !Bystander(v, level, inputs0, inputs1, m, g) {
          OutputAge(v, level, inputs0, inputs1, outputs, g, l, f);
        }
      } else {
        OutputAge(v, level, inputs0, inputs1, outputs, f, m, g);
      }
    }
    forall f, g | f in v2.levels[0] && g in v2.levels[0] && f.number > g.number
      ensures NewerThan(f, g)
    {
      assert Bystander(v, level, inputs0, inputs1, 0, f) && Bystander(v, level, inputs0, inputs1, 0, g);
    }
  }

  /** A trivial move or a merging compaction keeps the level order. */
  lemma ShiftKeepsOrder(v: Version, level: nat, inputs0: seq<File>, inputs1: seq<File>, outputs: seq<File>, v2: Version)
    requires ShiftReady(v, level, inputs0, inputs1)
    requires GoodOutputs(v, level, inputs0, inputs1, outputs)
    requires Shifted(v, level, inputs0, inputs1, outputs, v2)
    ensures LevelOrder(v2)
    ensures Entries(v2) == TableEntries(outputs) + Rest(v, level, inputs0, inputs1)
    ensures Entries(v) == TableEntries(inputs0) + TableEntries(inputs1) + Rest(v, level, inputs0, inputs1)
  {
    assert LevelOrder(v);
    InputsInLevels(v, level, inputs0, inputs1);
    hide Shaped, ClosedInputs, LowerInputs, AgeOrdered, UniqueNumbers, Distinct, Entries, Rest, Shifted, GoodOutputs;
    ShiftedEntries(v, level, inputs0, inputs1, outputs, v2);
    ShiftedIsShaped(v, level, inputs0, inputs1, outputs, v2);
    ShiftedAge(v, level, inputs0, inputs1, outputs, v2);
    ShiftedNumbers(v, level, inputs0, inputs1, outputs, v2);
    EntriesShrink(v, level, inputs0, inputs1, outputs, v2);
    DistinctPart(Entries(v), Entries(v2));
  }

  lemma EntriesShrink(v: Version, level: nat, inputs0: seq<File>, inputs1: seq<File>, outputs: seq<File>, v2: Version)
    requires |v.levels| == NUM_LEVELS && GoodOutputs(v, level, inputs0, inputs1, outputs)
    requires Entries(v2) == TableEntries(outputs) + Rest(v, level, inputs0, inputs1)
    requires Entries(v) == TableEntries(inputs0) + TableEntries(inputs1) + Rest(v, level, inputs0, inputs1)
    ensures Entries(v2) <= Entries(v)
  {
  }

  lemma ShiftedNumbers(v: Version, level: nat, inputs0: seq<File>, inputs1: seq<File>, outputs: seq<File>, v2: Version)
    requires LevelOrder(v)
    requires GoodOutputs(v, level, inputs0, inputs1, outputs)
    requires Shifted(v, level, inputs0, inputs1, outputs, v2)
    ensures UniqueNumbers(v2)
  {
    hide Shaped, AgeOrdered, Distinct, BySmallestKey, SortedFiles, TableEntries;
    forall l: nat, m: nat, f, g | l < NUM_LEVELS && m < NUM_LEVELS && f in v2.levels[l] && g in v2.levels[m] && f.number == g.number
      ensures l == m && f == g
    {
      assert Bystander(v, level, inputs0, inputs1, l, f) || (l == level + 1 && f in outputs);
      assert Bystander(v, level, inputs0, inputs1, m, g) || (m == level + 1 && g in outputs);
    }
  }

  /** Flush */

  // f can be added at the level: everything in v is older, and above and at a level other than 0 nothing overlaps.
  ghost predicate FlushFits(v: Version, level: nat, f: File) {
    && LevelOrder(v) && level < NUM_LEVELS && ValidFile(f)
    && (level > 0 ==> forall l: nat :: l <= level ==> !OverlapInLevel(v, l, f.smallest.ukey, f.largest.ukey))
    && (forall l: nat, g :: l < NUM_LEVELS && g in v.levels[l] ==> NewerThan(f, g) && g.number < f.number)
    && Distinct(Entries(v) + Elements(f.table))
  }

  ghost predicate Flushed(v: Version, level: nat, f: File, v2: Version) {
    && |v.levels| == NUM_LEVELS && |v2.levels| == NUM_LEVELS
    && (forall l: nat :: l < NUM_LEVELS ==> BySmallestKey(v2.levels[l]))
    && forall l: nat, g :: l < NUM_LEVELS ==> (g in v2.levels[l] <==> g in v.levels[l] || (l == level && g == f))
  }

  lemma NoOverlap(v: Version, level: nat, f: File, l: nat, g: File)
    requires FlushFits(v, level, f) && 0 < level && l <= level && g in v.levels[l]
    ensures Apart(f, g) && NewerThan(g, f)
  {
    hide UniqueNumbers, Distinct, AgeOrdered, BySmallestKey, SortedFiles;
    assert !OverlapInLevel(v, l, f.smallest.ukey, f.largest.ukey);
    assert !Overlaps(g, Some(f.smallest.ukey), Some(f.largest.ukey));
    assert ValidFile(g);
    FileBounds(f, f.table[0]);
    FileBounds(g, g.table[0]);
    hide Shaped;
    forall x, y | x in g.table && y in f.table
      ensures x.key.ukey != y.key.ukey
    {
      FileBounds(g, x);
      FileBounds(f, y);
    }
  }

  lemma FlushedIsShaped(v: Version, level: nat, f: File, v2: Version)
    requires FlushFits(v, level, f) && Flushed(v, level, f, v2)
    ensures Shaped(v2)
  {
    hide UniqueNumbers, Distinct, AgeOrdered, NewerThan, ValidFile, OverlapInLevel, BySmallestKey;
    forall l: nat | l < NUM_LEVELS
      ensures ValidFiles(v2.levels[l])
    {
      assert ValidFiles(v.levels[l]);
    }
    forall l: nat | 1 <= l < NUM_LEVELS
      ensures SortedFiles(v2.levels[l])
    {
      forall g, h | g in v2.levels[l] && h in v2.levels[l] && g != h
        ensures Apart(g, h)
      {
        if g == f {
          NoOverlap(v, level, f, l, h);
        } else if h == f {
          NoOverlap(v, level, f, l, g);
        } else {
          SortedIsApart(v.levels[l], g, h);
        }
      }
      ApartIsSorted(v2.levels[l]);
    }
  }

  lemma FlushedAge(v: Version, level: nat, f: File, v2: Version)
    requires FlushFits(v, level, f) && Flushed(v, level, f, v2)
    ensures AgeOrdered(v2)
  {
    hide Shaped, UniqueNumbers, Distinct, NewerThan, ValidFile, OverlapInLevel, BySmallestKey;
    forall l: nat, m: nat, g, h | l < m < NUM_LEVELS && g in v2.levels[l] && h in v2.levels[m]
      ensures NewerThan(g, h)
    {
      if m == level && h == f && g in v.levels[l] {
        NoOverlap(v, level, f, l, g);
      }
    }
  }

  /** A flush at a level where it fits keeps the level order. */
  lemma FlushKeepsOrder(v: Version, level: nat, f: File, v2: Version)
    requires FlushFits(v, level, f) && Flushed(v, level, f, v2)
    ensures LevelOrder(v2)
    ensures Entries(v2) == Entries(v) + Elements(f.table)
  {
    assert Distinct(Entries(v) + Elements(f.table));
    hide Shaped, AgeOrdered, Distinct, UniqueNumbers, NewerThan, OverlapInLevel, FlushFits, Flushed, Entries, Elements;
    FlushedIsShaped(v, level, f, v2);
    FlushedAge(v, level, f, v2);
    FlushedEntries(v, level, f, v2);
    FlushedNumbers(v, level, f, v2);
  }

  lemma FlushedNumbers(v: Version, level: nat, f: File, v2: Version)
    requires FlushFits(v, level, f) && Flushed(v, level, f, v2)
    ensures UniqueNumbers(v2)
  {
    hide Shaped, AgeOrdered, Distinct, NewerThan, OverlapInLevel, BySmallestKey;
  }

  lemma FlushedEntries(v: Version, level: nat, f: File, v2: Version)
    requires Flushed(v, level, f, v2) && level < NUM_LEVELS
    ensures Entries(v2) == Entries(v) + Elements(f.table)
  {
    forall e
      ensures e in Entries(v2) <==> e in Entries(v) + Elements(f.table)
    {
      if e in Entries(v2) {
        var l: nat, g :| l < NUM_LEVELS && g in v2.levels[l] && e in g.table;
      }
      if e in Entries(v) {
        var l: nat, g :| l < NUM_LEVELS && g in v.levels[l] && e in g.table;
        assert g in v2.levels[l];
      }
      if e in f.table {
        assert f in v2.levels[level];
      }
    }
  }
}
