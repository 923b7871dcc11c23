/** A version in the level order for which a compaction brings a deleted value back. */
module SplitKey {
  import opened Keys
  import opened Wrappers
  import opened Files
  import opened Versions
  import opened Compactions
  import opened CompactionInputs
  import opened CompactionWork
  import opened Builder
  import opened LevelSteps
  import opened CompactionTheorems

  const OLD_FOUR := Entry(IKey(4, 1, Value), [1])
  const FIVE := Entry(IKey(5, 2, Value), [2])
  const FIVE_DELETED := Entry(IKey(5, 3, Deletion), [])
  const NEW_FOUR := Entry(IKey(4, 4, Value), [4])

  // The versions of user key 5 are split: the deletion ends one file, the value it hides starts the next.
  const UPPER := File(5, 1, NEW_FOUR.key, NEW_FOUR.key, [NEW_FOUR])
  const LOWER := File(3, 1, OLD_FOUR.key, FIVE_DELETED.key, [OLD_FOUR, FIVE_DELETED])
  const LEFT_OUT := File(4, 1, FIVE.key, FIVE.key, [FIVE])
  const OUTPUT := File(6, 1, NEW_FOUR.key, NEW_FOUR.key, [NEW_FOUR])

  const BEFORE := Version([[], [UPPER], [LOWER, LEFT_OUT], [], [], [], []])
  const AFTER := Version([[], [], [OUTPUT, LEFT_OUT], [], [], [], []])
  const MERGED := [NEW_FOUR, OLD_FOUR, FIVE_DELETED]

  // Compacting level 1 at snapshot 4.
  const JOB := Job(BEFORE, 1, [UPPER], [LOWER], MERGED, 4, 6, [OUTPUT], AFTER)

  lemma FilesOf(l: nat, f: File)
    requires l < NUM_LEVELS
    ensures f in BEFORE.levels[l] <==> (l == 1 && f == UPPER) || (l == 2 && (f == LOWER || f == LEFT_OUT))
    ensures f in AFTER.levels[l] <==> l == 2 && (f == OUTPUT || f == LEFT_OUT)
  {
  }

  lemma BeforeEntries(e: Entry)
    ensures e in Entries(BEFORE) <==> e == NEW_FOUR || e == OLD_FOUR || e == FIVE_DELETED || e == FIVE
    ensures e in Entries(AFTER) <==> e == NEW_FOUR || e == FIVE
  {
    forall l: nat, f | l < NUM_LEVELS
      ensures f in BEFORE.levels[l] <==> (l == 1 && f == UPPER) || (l == 2 && (f == LOWER || f == LEFT_OUT))
      ensures f in AFTER.levels[l] <==> l == 2 && (f == OUTPUT || f == LEFT_OUT)
    {
      FilesOf(l, f);
    }
    assert UPPER in BEFORE.levels[1] && LOWER in BEFORE.levels[2] && LEFT_OUT in BEFORE.levels[2];
    assert OUTPUT in AFTER.levels[2] && LEFT_OUT in AFTER.levels[2];
    assert NEW_FOUR in UPPER.table && OLD_FOUR in LOWER.table && FIVE_DELETED in LOWER.table && FIVE in LEFT_OUT.table;
    assert NEW_FOUR in OUTPUT.table;
  }

  lemma BeforeIsShaped()
    ensures Shaped(BEFORE)
  {
  }

  lemma BeforeFiles()
    ensures |BEFORE.levels| == NUM_LEVELS
    ensures forall l: nat, f :: l < NUM_LEVELS ==>
      (f in BEFORE.levels[l] <==> (l == 1 && f == UPPER) || (l == 2 && (f == LOWER || f == LEFT_OUT)))
  {
  }

  lemma BeforeNumbers()
    ensures UniqueNumbers(BEFORE)
  {
    hide BEFORE;
    BeforeFiles();
  }

  lemma BeforeAge()
    ensures AgeOrdered(BEFORE)
  {
    assert NewerThan(UPPER, LOWER) && NewerThan(UPPER, LEFT_OUT);
    hide BEFORE, NewerThan;
    BeforeFiles();
  }

  lemma BeforeIsDistinct()
    ensures Distinct(Entries(BEFORE))
  {
  }

  lemma BeforeIsOrdered()
    ensures LevelOrder(BEFORE)
  {
    hide Shaped, AgeOrdered, UniqueNumbers, Distinct, Entries;
    BeforeIsShaped();
    BeforeNumbers();
    BeforeAge();
    BeforeIsDistinct();
  }

  lemma InputsAreChosen()
    ensures ShiftReady(BEFORE, 1, [UPPER], [LOWER])
  {
    BeforeIsOrdered();
    hide LevelOrder;
    var files := BEFORE.levels[1];
    assert IsSlice(files, 0, 1, [UPPER]) && NoBoundary(files, files[0].largest);
    var next := BEFORE.levels[2];
    assert next[..1] == [LOWER] && next[..1][..0] == [];
    assert Overlapping([LOWER], Some(4), Some(4)) == Overlapping([], Some(4), Some(4)) + [LOWER];
    assert Overlapping(next, Some(4), Some(4)) == Overlapping(next[..1], Some(4), Some(4));
    assert UPPER in [UPPER] && IsSmallest([UPPER], UPPER.smallest) && IsLargest([UPPER], UPPER.largest);
  }

  lemma FiveIsBase()
    ensures BaseLevelFor(BEFORE, 1, 5)
  {
  }

  lemma KeptIsNewFour()
    ensures Kept(BEFORE, 1, MERGED, 4, 3) == [NEW_FOUR]
  {
    FiveIsBase();
    hide BaseLevelFor;
    assert Kept(BEFORE, 1, MERGED, 4, 0) == [];
    assert Kept(BEFORE, 1, MERGED, 4, 1) == [NEW_FOUR];
    assert Kept(BEFORE, 1, MERGED, 4, 2) == [NEW_FOUR];
  }

  lemma EditIsApplied()
    ensures Applied(BEFORE, CompactionEdit(1, [UPPER], [LOWER], [OUTPUT]), AFTER)
  {
    var e := CompactionEdit(1, [UPPER], [LOWER], [OUTPUT]);
    forall l: nat | l < NUM_LEVELS
      ensures BySmallestKey(AFTER.levels[l]) && Members(AFTER.levels[l]) == ApplyToLevel(Members(BEFORE.levels[l]), e, l)
    {
      CompactionEditLevel(1, [UPPER], [LOWER], [OUTPUT], l);
      hide CompactionEdit;
      assert OUTPUT in Members([OUTPUT]) && UPPER in Members([UPPER]) && LOWER in Members([LOWER]);
      assert Numbers(Members([OUTPUT])) == {6} && Numbers(Members([UPPER])) == {5} && Numbers(Members([LOWER])) == {3};
      forall f
        ensures f in Members(AFTER.levels[l]) <==> f in ApplyToLevel(Members(BEFORE.levels[l]), e, l)
      {
        FilesOf(l, f);
      }
    }
  }

  lemma JobIsDone()
    ensures Done(JOB)
  {
    InputsAreChosen();
    KeptIsNewFour();
    EditIsApplied();
    hide ShiftReady, Kept, Applied;
    assert Sorted(MERGED);
    assert Flatten([OUTPUT][..0]) == [];
    assert Flatten([OUTPUT]) == [NEW_FOUR];
    forall e
      ensures e in Elements(MERGED) <==> e in TableEntries([UPPER]) + TableEntries([LOWER])
    {
      assert UPPER in [UPPER] && LOWER in [LOWER];
      assert NEW_FOUR in UPPER.table && OLD_FOUR in LOWER.table && FIVE_DELETED in LOWER.table;
    }
    forall l: nat, f | l < NUM_LEVELS && f in BEFORE.levels[l]
      ensures f.number < 6
    {
      FilesOf(l, f);
    }
  }

  /** Reads are not always preserved: a finished compaction of an ordered version, taken with the
      input files the selection gives, after which a deleted key is readable again. */
  lemma DeletedValueComesBack()
    ensures Done(JOB) && LevelOrder(BEFORE) && LevelOrder(AFTER)
    ensures View(Entries(BEFORE), 5, 4) == Absent
    ensures View(Entries(AFTER), 5, 4) == Present([2])
  {
    hide Done, LevelOrder, Shaped, UniqueNumbers, Distinct, View, Entries, Elements, Kept, LevelSteps.Rest;
    JobIsDone();
    BeforeIsOrdered();
    CompactionKeepsOrder(JOB);
    OrderFacts(BEFORE);
    OrderFacts(AFTER);
    ReadBefore();
    ReadAfter();
  }

  lemma ReadBefore()
    requires Distinct(Entries(BEFORE))
    ensures View(Entries(BEFORE), 5, 4) == Absent
  {
    hide View, Entries, Distinct;
    forall e
      ensures e in Entries(BEFORE) <==> e == NEW_FOUR || e == OLD_FOUR || e == FIVE_DELETED || e == FIVE
    {
      BeforeEntries(e);
    }
    ViewIs(Entries(BEFORE), 5, 4, FIVE_DELETED);
  }

  lemma ReadAfter()
    requires Distinct(Entries(AFTER))
    ensures View(Entries(AFTER), 5, 4) == Present([2])
  {
    hide View, Entries, Distinct;
    forall e
      ensures e in Entries(AFTER) <==> e == NEW_FOUR || e == FIVE
    {
      BeforeEntries(e);
    }
    ViewIs(Entries(AFTER), 5, 4, FIVE);
  }
}
