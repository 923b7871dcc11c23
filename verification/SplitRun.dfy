/** How a store comes to the version of SplitKey, and what its next compaction does: a run from the
    empty store. All compactions are automatic ones of level 1. */
module SplitRun {
  import opened Keys
  import opened Wrappers
  import opened Files
  import opened Versions
  import opened Compactions
  import opened CompactionWork
  import opened Builder
  import opened LevelSteps
  import opened CompactionTheorems
  import opened Histories
  import opened SplitKey
  import Store
  import CompactionReads

  // The first flush goes to level 2; the second overlaps it and stays at level 1.
  const FIRST := File(1, 1, OLD_FOUR.key, FIVE.key, [OLD_FOUR, FIVE])
  const SECOND := File(2, 1, FIVE_DELETED.key, FIVE_DELETED.key, [FIVE_DELETED])
  const ONE_FILE := Version([[], [], [FIRST], [], [], [], []])
  const TWO_FILES := Version([[], [SECOND], [FIRST], [], [], [], []])
  const SPLIT := Version([[], [], [LOWER, LEFT_OUT], [], [], [], []])

  // With a snapshot between the value and its deletion both are kept, and the output file is full
  // after the deletion, as it is when the user key itself is as long as a file may be.
  const SPLITTING := Job(TWO_FILES, 1, [SECOND], [FIRST], [OLD_FOUR, FIVE_DELETED, FIVE], 2, 3, [LOWER, LEFT_OUT], SPLIT)

  const PUTS := [Store.Op(4, Value, [1]), Store.Op(5, Value, [2])]
  const DELETE := [Store.Op(5, Deletion, [])]
  const OVERWRITE := [Store.Op(4, Value, [4])]

  const TWO := {OLD_FOUR, FIVE}
  const THREE := {OLD_FOUR, FIVE, FIVE_DELETED}
  const ALL := {OLD_FOUR, FIVE, FIVE_DELETED, NEW_FOUR}

  // Put 4 and 5, flush, take a snapshot, delete 5, flush, compact, release the snapshot, put 4,
  // flush, compact.
  ghost function States(): seq<Store.State> {
    var v := Store.EmptyVersion();
    [Store.State({}, None, v, 0, 1, [], {}, 0, imap[]),
     Store.State(TWO, None, v, 2, 1, [], TWO, 0, imap[]),
     Store.State({}, Some(TWO), v, 2, 1, [], TWO, 0, imap[]),
     Store.State({}, None, ONE_FILE, 2, 2, [], TWO, 0, imap[]),
     Store.State({}, None, ONE_FILE, 2, 2, [2], TWO, 0, imap[]),
     Store.State({FIVE_DELETED}, None, ONE_FILE, 3, 2, [2], THREE, 0, imap[]),
     Store.State({}, Some({FIVE_DELETED}), ONE_FILE, 3, 2, [2], THREE, 0, imap[]),
     Store.State({}, None, TWO_FILES, 3, 3, [2], THREE, 0, imap[]),
     Store.State({}, None, SPLIT, 3, 5, [2], THREE, 2, imap[]),
     Store.State({}, None, SPLIT, 3, 5, [], THREE, 2, imap[]),
     Store.State({NEW_FOUR}, None, SPLIT, 4, 5, [], ALL, 2, imap[]),
     Store.State({}, Some({NEW_FOUR}), SPLIT, 4, 5, [], ALL, 2, imap[]),
     Store.State({}, None, BEFORE, 4, 6, [], ALL, 2, imap[]),
     Store.State({}, None, AFTER, 4, 7, [], ALL, 4, imap[5 := 4])]
  }

  lemma Writes()
    ensures Store.WriteStep(States()[0], PUTS, States()[1])
    ensures Store.WriteStep(States()[4], DELETE, States()[5])
    ensures Store.WriteStep(States()[9], OVERWRITE, States()[10])
  {
    Numbered();
    assert {} + TWO == TWO && {} + {FIVE_DELETED} == {FIVE_DELETED} && {} + {NEW_FOUR} == {NEW_FOUR};
    assert TWO + {FIVE_DELETED} == THREE && THREE + {NEW_FOUR} == ALL;
    hide Store.BatchEntries;
  }

  lemma Numbered()
    ensures Store.BatchEntries(PUTS, 1) == TWO
    ensures Store.BatchEntries(DELETE, 3) == {FIVE_DELETED}
    ensures Store.BatchEntries(OVERWRITE, 4) == {NEW_FOUR}
  {
    assert Store.OpEntry(PUTS[0], 1) == OLD_FOUR && Store.OpEntry(PUTS[1], 2) == FIVE;
    assert Store.OpEntry(DELETE[0], 3) == FIVE_DELETED && Store.OpEntry(OVERWRITE[0], 4) == NEW_FOUR;
  }

  lemma SwitchesAndSnapshots()
    ensures Store.SwitchStep(States()[1], States()[2]) && Store.SwitchStep(States()[5], States()[6])
    ensures Store.SwitchStep(States()[10], States()[11])
    ensures Store.SnapshotStep(States()[3], States()[4]) && Store.ReleaseStep(States()[8], 0, States()[9])
  {
    hide ONE_FILE, TWO_FILES, SPLIT, BEFORE, AFTER, TWO, THREE, ALL, Store.EmptyVersion;
  }

  /** The flushes */

  lemma FlushIsApplied(v: Version, level: nat, f: File, v2: Version)
    requires |v.levels| == NUM_LEVELS && level < NUM_LEVELS && v.levels[level] == [] && v2.levels == v.levels[level := [f]]
    requires forall l: nat :: l < NUM_LEVELS ==> BySmallestKey(v.levels[l])
    ensures Applied(v, FileEdit({}, [(level, f)]), v2)
  {
    var e := FileEdit({}, [(level, f)]);
    forall l: nat | l < NUM_LEVELS
      ensures BySmallestKey(v2.levels[l]) && Members(v2.levels[l]) == ApplyToLevel(Members(v.levels[l]), e, l)
    {
      assert e.added[0] == (level, f);
      assert AddedAt(e, l) == if l == level then {f} else {};
    }
  }

  lemma FirstFlush()
    ensures Store.FlushStep(States()[2], 2, FIRST, States()[3])
  {
    FlushIsApplied(Store.EmptyVersion(), 2, FIRST, ONE_FILE);
    hide Applied;
    assert Elements(FIRST.table) == TWO;
    assert forall l: nat :: l <= 2 ==> Store.EmptyVersion().levels[l] == [];
  }

  lemma SecondFlush()
    ensures Store.FlushStep(States()[6], 1, SECOND, States()[7])
  {
    FlushIsApplied(ONE_FILE, 1, SECOND, TWO_FILES);
    hide Applied;
    assert Elements(SECOND.table) == {FIVE_DELETED};
    assert forall l: nat :: l <= 1 ==> ONE_FILE.levels[l] == [];
  }

  lemma ThirdFlush()
    ensures Store.FlushStep(States()[11], 1, UPPER, States()[12])
  {
    FlushIsApplied(SPLIT, 1, UPPER, BEFORE);
    hide Applied;
    assert Elements(UPPER.table) == {NEW_FOUR};
    assert forall l: nat :: l <= 1 ==> SPLIT.levels[l] == [];
  }

  /** The compaction that splits the key */

  lemma BeforeSplitting()
    ensures Store.Run(States()[..8]) && LevelOrder(TWO_FILES)
  {
    hide Store.WriteStep, Store.SwitchStep, Store.FlushStep, Store.CompactStep, Store.SnapshotStep, Store.ReleaseStep,
         Store.FlushEmptyStep, Store.MoveStep, LevelOrder;
    Writes();
    SwitchesAndSnapshots();
    FirstFlush();
    SecondFlush();
    Store.RunKeepsInv(States()[..8], 7);
  }

  lemma SplittingInputs()
    ensures ShiftReady(TWO_FILES, 1, [SECOND], [FIRST])
  {
    BeforeSplitting();
    hide LevelOrder, Store.Run;
    var files := TWO_FILES.levels[1];
    assert IsSlice(files, 0, 1, [SECOND]) && NoBoundary(files, files[0].largest);
    assert [FIRST][..0] == [];
    assert Overlapping([FIRST], Some(5), Some(5)) == Overlapping([], Some(5), Some(5)) + [FIRST];
    assert SECOND in [SECOND] && IsSmallest([SECOND], SECOND.smallest) && IsLargest([SECOND], SECOND.largest);
  }

  lemma SplittingKeepsAll()
    ensures Kept(TWO_FILES, 1, SPLITTING.merged, 2, 3) == [OLD_FOUR, FIVE_DELETED, FIVE]
  {
    var m := SPLITTING.merged;
    assert Kept(TWO_FILES, 1, m, 2, 0) == [];
    assert Kept(TWO_FILES, 1, m, 2, 1) == [OLD_FOUR];
    assert Kept(TWO_FILES, 1, m, 2, 2) == [OLD_FOUR, FIVE_DELETED];
  }

  lemma SplittingIsApplied()
    ensures Applied(TWO_FILES, CompactionEdit(1, [SECOND], [FIRST], [LOWER, LEFT_OUT]), SPLIT)
  {
    var e := CompactionEdit(1, [SECOND], [FIRST], [LOWER, LEFT_OUT]);
    forall l: nat | l < NUM_LEVELS
      ensures BySmallestKey(SPLIT.levels[l]) && Members(SPLIT.levels[l]) == ApplyToLevel(Members(TWO_FILES.levels[l]), e, l)
    {
      CompactionEditLevel(1, [SECOND], [FIRST], [LOWER, LEFT_OUT], l);
      hide CompactionEdit;
      SplittingMembers();
      hide Members, Numbers;
      assert Members(TWO_FILES.levels[l]) == if l == 1 then {SECOND} else if l == 2 then {FIRST} else {};
      assert Members(SPLIT.levels[l]) == if l == 2 then {LOWER, LEFT_OUT} else {};
    }
  }

  lemma SplittingMembers()
    ensures Members([]) == {} && Members([FIRST]) == {FIRST} && Members([SECOND]) == {SECOND}
    ensures Members([LOWER, LEFT_OUT]) == {LOWER, LEFT_OUT}
    ensures Numbers({FIRST}) == {1} && Numbers({SECOND}) == {2} && Numbers({LOWER, LEFT_OUT}) == {3, 4} && Numbers({}) == {}
  {
    assert Members([LOWER, LEFT_OUT]) == {LOWER, LEFT_OUT};
  }

  lemma SplittingOutputs()
    ensures Flatten([LOWER, LEFT_OUT]) == SPLITTING.merged && Outputs([LOWER, LEFT_OUT], 3)
  {
    assert [LOWER, LEFT_OUT][..1] == [LOWER] && [LOWER][..0] == [];
    assert Flatten([]) == [] && Flatten([LOWER]) == LOWER.table;
  }

  lemma SplittingMerges()
    ensures Sorted(SPLITTING.merged) && Elements(SPLITTING.merged) == TableEntries([SECOND]) + TableEntries([FIRST])
  {
    assert TableEntries([SECOND]) == Elements(SECOND.table) && TableEntries([FIRST]) == Elements(FIRST.table);
    hide TableEntries;
  }

  lemma SplittingNumbers()
    ensures forall l: nat, f :: l < NUM_LEVELS && f in TWO_FILES.levels[l] ==> f.number < 3
  {
    assert forall l: nat :: l < NUM_LEVELS ==> TWO_FILES.levels[l] == if l == 1 then [SECOND] else if l == 2 then [FIRST] else [];
  }

  lemma IsDone(j: Job)
    requires ShiftReady(j.before, j.level, j.inputs0, j.inputs1) && Sorted(j.merged)
    requires Elements(j.merged) == TableEntries(j.inputs0) + TableEntries(j.inputs1)
    requires Flatten(j.outputs) == Kept(j.before, j.level, j.merged, j.snapshot, |j.merged|) && Outputs(j.outputs, j.firstNumber)
    requires forall l: nat, f :: l < NUM_LEVELS && f in j.before.levels[l] ==> f.number < j.firstNumber
    requires Applied(j.before, CompactionEdit(j.level, j.inputs0, j.inputs1, j.outputs), j.after)
    ensures Done(j)
  {
  }

  lemma SplittingIsDone()
    ensures Done(SPLITTING)
  {
    hide ShiftReady, Kept, Applied, Flatten, Outputs, Sorted, Elements, TableEntries, CompactionEdit, Done, TWO_FILES, SPLIT;
    SplittingInputs();
    SplittingKeepsAll();
    SplittingIsApplied();
    SplittingOutputs();
    SplittingMerges();
    SplittingNumbers();
    IsDone(SPLITTING);
  }

  // Nothing is outside its inputs that could come back.
  lemma SplittingIsSafe()
    ensures Store.CompactStep(States()[7], SPLITTING, States()[8])
  {
    SplittingIsDone();
    SplittingTakesAll();
    hide Done, View, Newest, ObsoleteDeletion, LevelSteps.Rest;
    forall u
      ensures !SPLITTING.Resurfaces(u)
    {
      NothingToRead(u);
    }
    assert Returned(imap[], Store.Gone(SPLITTING), 2) == imap[];
  }

  lemma SplittingTakesAll()
    ensures SPLITTING.Rest() == {}
  {
  }

  lemma NothingToRead(u: UserKey)
    ensures View({}, u, 2) == Absent
  {
    assert NoHit({}, u, 2);
  }

  /** The compaction after it */

  lemma LastCompaction()
    ensures Store.CompactStep(States()[12], JOB, States()[13])
  {
    DeletedValueComesBack();
    OnlyFiveReturns();
    hide Done, View, Entries, LevelOrder;
    assert forall u :: u in Returned(imap[], Store.Gone(JOB), 4) <==> u == 5;
    assert Returned(imap[], Store.Gone(JOB), 4) == imap[5 := 4];
  }

  lemma OnlyFiveReturns()
    ensures forall u :: JOB.Resurfaces(u) <==> u == 5
  {
    DeletedValueComesBack();
    hide Done, View, Entries, LevelOrder, CompactionReads.Resurfaces, LevelSteps.Rest;
    forall u | u != 5
      ensures !JOB.Resurfaces(u)
    {
      if JOB.Resurfaces(u) {
        var g, e, h, t := ResurfacesFromNextLevel(JOB, u);
        LeftOutHasFive(g, e);
        assert false;
      }
    }
    if !JOB.Resurfaces(5) {
      CompactionKeepsKey(JOB, 5, 4);
      assert false;
    }
  }

  lemma LeftOutHasFive(g: File, e: Entry)
    requires g in BEFORE.levels[2] && g !in [LOWER] && e in g.table
    ensures e.key.ukey == 5
  {
  }

  /** The run */

  lemma IsRun()
    ensures Store.Run(States())
  {
    hide Store.WriteStep, Store.SwitchStep, Store.FlushStep, Store.CompactStep, Store.SnapshotStep, Store.ReleaseStep,
         Store.FlushEmptyStep, Store.MoveStep;
    Writes();
    SwitchesAndSnapshots();
    FirstFlush();
    SecondFlush();
    SplittingIsSafe();
    ThirdFlush();
    LastCompaction();
  }

  // A run of the store at whose end key 5 can be read, although it has been deleted.
  lemma ReachesResurfacing() returns (ss: seq<Store.State>)
    ensures Store.Run(ss) && |ss| == 14
    ensures View(ss[13].history, 5, 4) == Absent && View(Store.Reachable(ss[12]), 5, 4) == Absent
    ensures View(Store.Reachable(ss[13]), 5, 4) == Present([2]) && Store.Readable(ss[13], 4)
  {
    ss := States();
    hide *;
    IsRun();
    LastStates();
    DeletedValueComesBack();
    HistoryHasDeletion();
  }

  lemma LastStates()
    ensures |States()| == 14 && States()[13].history == ALL && Store.Readable(States()[13], 4)
    ensures Store.Reachable(States()[12]) == Entries(BEFORE) && Store.Reachable(States()[13]) == Entries(AFTER)
  {
    hide Entries, BEFORE, AFTER;
    assert {} + Entries(BEFORE) == Entries(BEFORE) && {} + Entries(AFTER) == Entries(AFTER);
  }

  lemma HistoryHasDeletion()
    ensures View(ALL, 5, 4) == Absent
  {
    ViewIs(ALL, 5, 4, FIVE_DELETED);
  }
}
