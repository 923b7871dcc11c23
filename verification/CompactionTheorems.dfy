/** A whole compaction, from its inputs to the installed version: the level order is kept, and
    reads are kept exactly when no deleted value resurfaces. */
module CompactionTheorems {
  import opened Keys
  import opened Wrappers
  import opened Files
  import opened Versions
  import opened Compactions
  import opened CompactionInputs
  import opened CompactionWork
  import opened CompactionReads
  import opened Builder
  import opened LevelSteps

  // AddInputDeletions, then the outputs at level + 1. A trivial move is the case where the
  // single input is also the output.
  function CompactionEdit(level: nat, inputs0: seq<File>, inputs1: seq<File>, outputs: seq<File>): FileEdit {
    FileEdit((set f | f in inputs0 :: (level, f.number)) + (set f | f in inputs1 :: (level + 1, f.number)),
             seq(|outputs|, i requires 0 <= i < |outputs| => (level + 1, outputs[i])))
  }

  ghost predicate NewOutputs(v: Version, level: nat, inputs0: seq<File>, inputs1: seq<File>, outputs: seq<File>)
    requires |v.levels| == NUM_LEVELS
  {
    && GoodOutputs(v, level, inputs0, inputs1, outputs)
    && forall o, h :: o in outputs && h in inputs1 ==> o.number != h.number
  }

  lemma CompactionEditLevel(level: nat, inputs0: seq<File>, inputs1: seq<File>, outputs: seq<File>, l: nat)
    ensures var e := CompactionEdit(level, inputs0, inputs1, outputs);
            && AddedAt(e, l) == (if l == level + 1 then Members(outputs) else {})
            && DeletedAt(e, l) == (if l == level then Numbers(Members(inputs0))
                                   else if l == level + 1 then Numbers(Members(inputs1)) else {})
  {
    var e := CompactionEdit(level, inputs0, inputs1, outputs);
    forall f | f in outputs
      ensures f in AddedAt(e, level + 1)
    {
      var i :| 0 <= i < |outputs| && outputs[i] == f;
      assert e.added[i] == (level + 1, f);
    }
    forall f | f in inputs0
      ensures f.number in DeletedAt(e, level)
    {
      assert (level, f.number) in e.deleted;
    }
    forall f | f in inputs1
      ensures f.number in DeletedAt(e, level + 1)
    {
      assert (level + 1, f.number) in e.deleted;
    }
    forall n | n in DeletedAt(e, l)
      ensures l == level ==> n in Numbers(Members(inputs0))
      ensures l == level + 1 ==> n in Numbers(Members(inputs1))
    {
      var d :| d in e.deleted && d.0 == l && d.1 == n;
      if l == level {
        var f :| f in inputs0 && d == (level, f.number);
        assert f in Members(inputs0);
      } else if l == level + 1 {
        var f :| f in inputs1 && d == (level + 1, f.number);
        assert f in Members(inputs1);
      }
    }
  }

  lemma EditShiftsAt(v: Version, level: nat, inputs0: seq<File>, inputs1: seq<File>, outputs: seq<File>, l: nat, f: File)
    requires |v.levels| == NUM_LEVELS && level + 1 < NUM_LEVELS && l < NUM_LEVELS
    requires UniqueNumbers(v) && NewOutputs(v, level, inputs0, inputs1, outputs)
    requires forall g :: g in inputs0 ==> g in v.levels[level]
    requires forall g :: g in inputs1 ==> g in v.levels[level + 1]
    ensures f in ApplyToLevel(Members(v.levels[l]), CompactionEdit(level, inputs0, inputs1, outputs), l)
       <==> Bystander(v, level, inputs0, inputs1, l, f) || (l == level + 1 && f in outputs)
  {
    CompactionEditLevel(level, inputs0, inputs1, outputs, l);
    hide CompactionEdit, TableEntries, SortedFiles;
    NumberPicks(v, l, if l == level then inputs0 else if l == level + 1 then inputs1 else [], f);
    if f in outputs && l == level + 1 {
      assert f in Members(outputs) && f.number in Numbers(Members(outputs));
    } else if l == level + 1 {
      assert Bystander(v, level, inputs0, inputs1, l, f) ==> f.number !in Numbers(Members(outputs));
    }
  }

  // Deleting by number deletes exactly the input files.
  lemma EditShifts(v: Version, level: nat, inputs0: seq<File>, inputs1: seq<File>, outputs: seq<File>, v2: Version)
    requires ShiftReady(v, level, inputs0, inputs1) && NewOutputs(v, level, inputs0, inputs1, outputs)
    requires Applied(v, CompactionEdit(level, inputs0, inputs1, outputs), v2)
    ensures Shifted(v, level, inputs0, inputs1, outputs, v2)
  {
    hide ShiftReady, LevelOrder, UniqueNumbers, BySmallestKey, CompactionEdit, NewOutputs, ApplyToLevel, Bystander;
    ReadyFacts(v, level, inputs0, inputs1);
    forall l: nat, f | l < NUM_LEVELS
      ensures f in v2.levels[l] <==> Bystander(v, level, inputs0, inputs1, l, f) || (l == level + 1 && f in outputs)
    {
      EditShiftsAt(v, level, inputs0, inputs1, outputs, l, f);
      assert f in v2.levels[l] <==> f in Members(v2.levels[l]);
    }
  }

  lemma ReadyFacts(v: Version, level: nat, inputs0: seq<File>, inputs1: seq<File>)
    requires ShiftReady(v, level, inputs0, inputs1)
    ensures |v.levels| == NUM_LEVELS && level + 1 < NUM_LEVELS
    ensures Shaped(v) && UniqueNumbers(v) && Distinct(Entries(v))
    ensures forall f :: f in inputs0 ==> f in v.levels[level]
    ensures forall f :: f in inputs1 ==> f in v.levels[level + 1]
  {
    assert LevelOrder(v) && ClosedInputs(v, level, inputs0) && LowerInputs(v, level, inputs0, inputs1);
    hide LevelOrder, ClosedInputs, LowerInputs;
    OrderFacts(v);
    InputsInLevels(v, level, inputs0, inputs1);
  }

  lemma OrderFacts(v: Version)
    requires LevelOrder(v)
    ensures |v.levels| == NUM_LEVELS && Shaped(v) && UniqueNumbers(v) && Distinct(Entries(v))
  {
  }

  lemma NumberPicks(v: Version, l: nat, part: seq<File>, f: File)
    requires UniqueNumbers(v) && l < |v.levels|
    requires forall g :: g in part ==> g in v.levels[l]
    ensures f in v.levels[l] ==> (f.number in Numbers(Members(part)) <==> f in part)
  {
  }

  /** A finished compaction: `merged` is what the merging iterator yields over the inputs. */
  datatype Job = Job(before: Version, level: nat, inputs0: seq<File>, inputs1: seq<File>, merged: seq<Entry>,
                     snapshot: nat, firstNumber: nat, outputs: seq<File>, after: Version)
  {
    ghost function Kept(): set<Entry>
      requires |before.levels| == NUM_LEVELS
    {
      Elements(CompactionWork.Kept(before, level, merged, snapshot, |merged|))
    }

    ghost function Rest(): set<Entry>
      requires |before.levels| == NUM_LEVELS
    {
      LevelSteps.Rest(before, level, inputs0, inputs1)
    }

    ghost predicate Resurfaces(u: UserKey)
      requires |before.levels| == NUM_LEVELS
    {
      CompactionReads.Resurfaces(before, level, Elements(merged), Rest(), snapshot, u)
    }
  }

  ghost predicate Done(j: Job) {
    && ShiftReady(j.before, j.level, j.inputs0, j.inputs1)
    && Sorted(j.merged) && Elements(j.merged) == TableEntries(j.inputs0) + TableEntries(j.inputs1)
    && Flatten(j.outputs) == CompactionWork.Kept(j.before, j.level, j.merged, j.snapshot, |j.merged|)
    && Outputs(j.outputs, j.firstNumber)
    && (forall l: nat, f :: l < NUM_LEVELS && f in j.before.levels[l] ==> f.number < j.firstNumber)
    && Applied(j.before, CompactionEdit(j.level, j.inputs0, j.inputs1, j.outputs), j.after)
  }

  lemma InputBound(v: Version, level: nat, inputs0: seq<File>, inputs1: seq<File>, e: Entry)
    requires ShiftReady(v, level, inputs0, inputs1)
    requires e in TableEntries(inputs0) + TableEntries(inputs1)
    ensures e.key.seqno <= MAX_SEQUENCE
  {
    hide ShiftReady, UniqueNumbers, Distinct;
    ReadyFacts(v, level, inputs0, inputs1);
    if e in TableEntries(inputs0) {
      var f :| f in inputs0 && e in f.table;
      assert ValidFile(f);
    } else {
      var f :| f in inputs1 && e in f.table;
      assert ValidFile(f);
    }
  }

  lemma DoneFacts(j: Job)
    requires Done(j)
    ensures ShiftReady(j.before, j.level, j.inputs0, j.inputs1) && |j.before.levels| == NUM_LEVELS && j.level + 1 < NUM_LEVELS
    ensures Sorted(j.merged) && Elements(j.merged) == TableEntries(j.inputs0) + TableEntries(j.inputs1)
    ensures Flatten(j.outputs) == CompactionWork.Kept(j.before, j.level, j.merged, j.snapshot, |j.merged|)
    ensures Outputs(j.outputs, j.firstNumber)
    ensures Applied(j.before, CompactionEdit(j.level, j.inputs0, j.inputs1, j.outputs), j.after)
  {
  }

  lemma KeptIsInput(v: Version, level: nat, m: seq<Entry>, snapshot: nat, e: Entry)
    requires |v.levels| == NUM_LEVELS
    requires e in CompactionWork.Kept(v, level, m, snapshot, |m|)
    ensures e in Elements(m)
  {
    KeptElements(v, level, m, snapshot, |m|);
  }

  lemma OutputsFromInputs(j: Job)
    requires Done(j)
    ensures |j.before.levels| == NUM_LEVELS
    ensures TableEntries(j.outputs) == j.Kept()
    ensures TableEntries(j.outputs) <= TableEntries(j.inputs0) + TableEntries(j.inputs1)
    ensures SortedFiles(j.outputs)
  {
    hide Done, ShiftReady, Sorted, SortedFiles, CompactionWork.Kept, Applied, TableEntries, Flatten, Outputs;
    DoneFacts(j);
    KeptIsSorted(j.before, j.level, j.merged, j.snapshot, |j.merged|);
    forall e | e in Flatten(j.outputs)
      ensures e in TableEntries(j.inputs0) + TableEntries(j.inputs1) && e.key.seqno <= MAX_SEQUENCE
    {
      KeptIsInput(j.before, j.level, j.merged, j.snapshot, e);
      InputBound(j.before, j.level, j.inputs0, j.inputs1, e);
    }
    OutputsAreSorted(j.outputs, j.firstNumber);
    FlattenElements(j.outputs);
  }

  lemma OutputNumbers(outputs: seq<File>, firstNumber: nat)
    requires Outputs(outputs, firstNumber)
    ensures forall o :: o in outputs ==> o.number >= firstNumber
    ensures forall f, g :: f in outputs && g in outputs && f.number == g.number ==> f == g
  {
    forall f, g | f in outputs && g in outputs && f.number == g.number
      ensures f == g
    {
      var a :| 0 <= a < |outputs| && outputs[a] == f;
      var b :| 0 <= b < |outputs| && outputs[b] == g;
    }
  }

  lemma OldNumbers(j: Job)
    requires Done(j)
    ensures forall l: nat, f :: l < |j.before.levels| && f in j.before.levels[l] ==> f.number < j.firstNumber
  {
  }

  lemma OutputsAreNew(j: Job)
    requires Done(j)
    ensures |j.before.levels| == NUM_LEVELS
    ensures NewOutputs(j.before, j.level, j.inputs0, j.inputs1, j.outputs)
  {
    hide Done, ShiftReady, Sorted, SortedFiles, CompactionWork.Kept, Applied, TableEntries, Flatten, Outputs, Shaped, UniqueNumbers, Distinct;
    DoneFacts(j);
    OutputsFromInputs(j);
    OldNumbers(j);
    OutputNumbers(j.outputs, j.firstNumber);
    ReadyFacts(j.before, j.level, j.inputs0, j.inputs1);
  }

  /** A merging compaction keeps the level order; it drops or keeps entries but invents none. */
  lemma CompactionKeepsOrder(j: Job)
    requires Done(j)
    ensures LevelOrder(j.after)
    ensures Entries(j.after) == j.Kept() + j.Rest()
    ensures Entries(j.before) == Elements(j.merged) + j.Rest()
    ensures Entries(j.after) <= Entries(j.before)
  {
    hide Done, ShiftReady, LevelOrder, Sorted, CompactionWork.Kept, Shifted, Entries, LevelSteps.Rest, TableEntries, Elements,
         CompactionEdit, SortedFiles, GoodOutputs, Applied, Outputs, Flatten;
    DoneFacts(j);
    ReadyFacts(j.before, j.level, j.inputs0, j.inputs1);
    OutputsFromInputs(j);
    OutputsAreNew(j);
    EditShifts(j.before, j.level, j.inputs0, j.inputs1, j.outputs, j.after);
    ShiftKeepsOrder(j.before, j.level, j.inputs0, j.inputs1, j.outputs, j.after);
  }

  /** Reads at or above the snapshot are the same before and after the compaction
      if and only if no deleted value resurfaces. */
  lemma CompactionKeepsReadsIff(j: Job)
    requires Done(j) && j.snapshot < MAX_SEQUENCE
    ensures (forall u, s: nat :: j.snapshot <= s ==> View(Entries(j.after), u, s) == View(Entries(j.before), u, s))
       <==> (forall u :: !j.Resurfaces(u))
  {
    hide Done, ShiftReady, Distinct, CompactionReads.Resurfaces, View, CompactionWork.Kept, LevelSteps.Rest, Entries, Elements,
         LevelOrder, Sorted, Flatten, Outputs, Applied, TableEntries, Shaped, UniqueNumbers;
    DoneFacts(j);
    ReadyFacts(j.before, j.level, j.inputs0, j.inputs1);
    CompactionKeepsOrder(j);
    ReadsKeptIff(j.before, j.level, j.merged, j.Rest(), j.snapshot);
    assert forall u :: j.Resurfaces(u) <==> CompactionReads.Resurfaces(j.before, j.level, Elements(j.merged), j.Rest(), j.snapshot, u);
    assert Entries(j.before) == Elements(j.merged) + j.Rest();
    assert Entries(j.after) == Elements(CompactionWork.Kept(j.before, j.level, j.merged, j.snapshot, |j.merged|)) + j.Rest();
  }

  // The same for one user key.
  lemma CompactionKeepsKey(j: Job, u: UserKey, s: nat)
    requires Done(j) && j.snapshot < MAX_SEQUENCE && j.snapshot <= s
    requires !j.Resurfaces(u)
    ensures View(Entries(j.after), u, s) == View(Entries(j.before), u, s)
  {
    hide Done, ShiftReady, Distinct, CompactionReads.Resurfaces, View, CompactionWork.Kept, LevelSteps.Rest, Entries, Elements,
         LevelOrder, Sorted, Flatten, Outputs, Applied, TableEntries, Shaped, UniqueNumbers;
    DoneFacts(j);
    ReadyFacts(j.before, j.level, j.inputs0, j.inputs1);
    CompactionKeepsOrder(j);
    ReadKept(j.before, j.level, j.merged, j.Rest(), j.snapshot, u, s);
  }

  // No entry above the snapshot is dropped.
  lemma CompactionKeepsRecent(j: Job, e: Entry)
    requires Done(j) && j.snapshot < MAX_SEQUENCE && e in Entries(j.before) && e.key.seqno > j.snapshot
    ensures e in Entries(j.after)
  {
    hide Done, ShiftReady, CompactionWork.Kept, LevelSteps.Rest, Entries, LevelOrder, Sorted, Flatten, Outputs, Applied, TableEntries;
    DoneFacts(j);
    CompactionKeepsOrder(j);
    if e in Elements(j.merged) {
      RecentAreKept(j.before, j.level, j.merged, j.snapshot, e);
    }
  }

  // The deletion that is dropped and the value that it hid.
  lemma ResurfacingPair(j: Job, u: UserKey) returns (t: Entry, e: Entry)
    requires Done(j) && j.Resurfaces(u)
    ensures t in Elements(j.merged) && t.key.ukey == u && t.key.kind == Deletion && t.key.seqno <= j.snapshot
    ensures BaseLevelFor(j.before, j.level, u)
    ensures e in j.Rest() && e.key.ukey == u && e.key.kind == Value && e.key.seqno <= t.key.seqno
  {
    hide View, Newest, Done, BaseLevelFor, LevelSteps.Rest, Elements, ShiftReady, Sorted, Flatten, Outputs, Applied, CompactionWork.Kept;
    DoneFacts(j);
    var all := Elements(j.merged) + j.Rest();
    t :| t in Elements(j.merged) && Newest(all, u, j.snapshot, t)
         && ObsoleteDeletion(j.before, j.level, t, j.snapshot) && View(j.Rest(), u, j.snapshot) != Absent;
    NewestIsHit(all, u, j.snapshot, t);
    e := VisibleValue(j.Rest(), u, j.snapshot);
    NewestIsAtLeast(all, u, j.snapshot, t, e);
  }

  /** A deleted value can only resurface from a file of level + 1 that the compaction left out
      although it holds a user key of the inputs taken from that level. */
  lemma ResurfacesFromNextLevel(j: Job, u: UserKey) returns (g: File, e: Entry, h: File, t: Entry)
    requires Done(j) && j.Resurfaces(u)
    ensures j.level + 1 < |j.before.levels| && g in j.before.levels[j.level + 1] && g !in j.inputs1
    ensures e in g.table && e.key.ukey == u && e.key.kind == Value && e.key.seqno <= j.snapshot
    ensures h in j.inputs1 && t in h.table && t.key.ukey == u && t.key.kind == Deletion && t.key.seqno <= j.snapshot
  {
    hide Done, ShiftReady, Sorted, Flatten, Outputs, Applied, BaseLevelFor, LevelSteps.Rest, Elements, Bystander, CompactionReads.Resurfaces,
         CompactionWork.Kept, TableEntries;
    DoneFacts(j);
    t, e := ResurfacingPair(j, u);
    var l: nat;
    l, g := BystanderOf(j, e);
    h := InputOf(j, t);
    NotAbove(j, l, g, h, e, t);
    NotBelow(j, u, l, g, e);
    NotBesideUpper(j, g, h, e, t);
  }

  /** The same condition in terms of the files: the newest visible entry of the key is a deletion in a
      next-level input at the base level, and the newest one in the next-level files left out is a value. */

  ghost function LeftOut(j: Job): set<Entry>
    requires |j.before.levels| == NUM_LEVELS && j.level + 1 < NUM_LEVELS
  {
    set f, e | f in j.before.levels[j.level + 1] && f !in j.inputs1 && e in f.table :: e
  }

  ghost predicate SplitAcross(j: Job, u: UserKey, t: Entry, e: Entry)
    requires |j.before.levels| == NUM_LEVELS && j.level + 1 < NUM_LEVELS
  {
    && t in TableEntries(j.inputs1) && t.key.kind == Deletion && Newest(Entries(j.before), u, j.snapshot, t)
    && BaseLevelFor(j.before, j.level, u)
    && e.key.kind == Value && Newest(LeftOut(j), u, j.snapshot, e)
  }

  lemma ResurfacesIffSplit(j: Job, u: UserKey)
    requires Done(j)
    ensures |j.before.levels| == NUM_LEVELS && j.level + 1 < NUM_LEVELS
    ensures j.Resurfaces(u) <==> exists t, e :: SplitAcross(j, u, t, e)
  {
    hide *;
    DoneFacts(j);
    if j.Resurfaces(u) {
      var t, e := SplitOf(j, u);
    }
    if t, e :| SplitAcross(j, u, t, e) {
      SplitResurfaces(j, u, t, e);
    }
  }

  lemma SplitOf(j: Job, u: UserKey) returns (t: Entry, e: Entry)
    requires Done(j) && j.Resurfaces(u)
    ensures |j.before.levels| == NUM_LEVELS && j.level + 1 < NUM_LEVELS && SplitAcross(j, u, t, e)
  {
    hide Done, View, Newest, BaseLevelFor, LevelSteps.Rest, Elements, Entries, TableEntries, LeftOut;
    DoneFacts(j);
    hide ShiftReady, Sorted, Flatten, Outputs, Applied, CompactionWork.Kept;
    CompactionKeepsOrder(j);
    t :| t in Elements(j.merged) && Newest(Elements(j.merged) + j.Rest(), u, j.snapshot, t)
         && ObsoleteDeletion(j.before, j.level, t, j.snapshot) && View(j.Rest(), u, j.snapshot) != Absent;
    e := NewestValue(j.Rest(), u, j.snapshot);
    NewestHits(Elements(j.merged) + j.Rest(), u, j.snapshot, t);
    NewestHits(j.Rest(), u, j.snapshot, e);
    NewestIsAtLeast(Elements(j.merged) + j.Rest(), u, j.snapshot, t, e);
    OlderIsLeftOut(j, u, t, e);
    LeftOutIsRest(j);
    NewestOfPart(j.Rest(), LeftOut(j), u, j.snapshot, e);
  }

  lemma SplitResurfaces(j: Job, u: UserKey, t: Entry, e: Entry)
    requires Done(j) && |j.before.levels| == NUM_LEVELS && j.level + 1 < NUM_LEVELS && SplitAcross(j, u, t, e)
    ensures j.Resurfaces(u)
  {
    hide Done, View, Newest, BaseLevelFor, LevelSteps.Rest, Elements, Entries, TableEntries, LeftOut, Distinct, UniqueNumbers, Shaped;
    DoneFacts(j);
    ReadyFacts(j.before, j.level, j.inputs0, j.inputs1);
    hide ShiftReady, Sorted, Flatten, Outputs, Applied, CompactionWork.Kept;
    CompactionKeepsOrder(j);
    var rest := j.Rest();
    NewestHits(Entries(j.before), u, j.snapshot, t);
    NewestHits(LeftOut(j), u, j.snapshot, e);
    LeftOutIsRest(j);
    forall x | x in rest && Hit(x, u, j.snapshot)
      ensures x.key.seqno <= e.key.seqno
    {
      NewestIsAtLeast(Entries(j.before), u, j.snapshot, t, x);
      OlderIsLeftOut(j, u, t, x);
      NewestIsAtLeast(LeftOut(j), u, j.snapshot, e, x);
    }
    PartIsDistinct(Entries(j.before), rest);
    ReadsValue(rest, u, j.snapshot, e);
    assert Newest(Elements(j.merged) + rest, u, j.snapshot, t);
  }

  lemma PartIsDistinct(all: set<Entry>, part: set<Entry>)
    requires Distinct(all) && part <= all
    ensures Distinct(part)
  {
  }

  lemma ReadsValue(es: set<Entry>, u: UserKey, s: nat, e: Entry)
    requires Distinct(es) && e in es && Hit(e, u, s) && e.key.kind == Value
    requires forall x :: x in es && Hit(x, u, s) ==> x.key.seqno <= e.key.seqno
    ensures View(es, u, s) != Absent
  {
    ViewIs(es, u, s, e);
  }

  lemma NewestValue(es: set<Entry>, u: UserKey, s: nat) returns (e: Entry)
    requires View(es, u, s) != Absent
    ensures Newest(es, u, s, e) && e.key.kind == Value
  {
    NewestExists(es, u, s);
    e :| Newest(es, u, s, e) && View(es, u, s) == ResultOf(e);
    assert ResultOf(e) != Absent;
  }

  lemma NewestHits(es: set<Entry>, u: UserKey, s: nat, e: Entry)
    requires Newest(es, u, s, e)
    ensures e in es && Hit(e, u, s)
  {
  }

  lemma NewestOfPart(all: set<Entry>, part: set<Entry>, u: UserKey, s: nat, e: Entry)
    requires Newest(all, u, s, e) && part <= all && e in part
    ensures Newest(part, u, s, e)
  {
  }

  lemma LeftOutIsRest(j: Job)
    requires |j.before.levels| == NUM_LEVELS && j.level + 1 < NUM_LEVELS
    ensures LeftOut(j) <= j.Rest()
  {
    forall e | e in LeftOut(j)
      ensures e in j.Rest()
    {
      var f :| f in j.before.levels[j.level + 1] && f !in j.inputs1 && e in f.table;
      assert Bystander(j.before, j.level, j.inputs0, j.inputs1, j.level + 1, f);
    }
  }

  // What the compaction leaves alone and is older than an input entry of the same user key at the
  // base level is in a next-level file left out, and the input entry in a next-level input.
  lemma OlderIsLeftOut(j: Job, u: UserKey, t: Entry, e: Entry)
    requires Done(j) && |j.before.levels| == NUM_LEVELS && j.level + 1 < NUM_LEVELS
    requires t in Elements(j.merged) && e in j.Rest() && t.key.ukey == u == e.key.ukey && e.key.seqno <= t.key.seqno
    requires BaseLevelFor(j.before, j.level, u)
    ensures t in TableEntries(j.inputs1) && e in LeftOut(j)
  {
    hide Done, BaseLevelFor, LevelSteps.Rest, Elements, Bystander;
    var l, g := BystanderOf(j, e);
    var h := InputOf(j, t);
    NotAbove(j, l, g, h, e, t);
    NotBelow(j, u, l, g, e);
    NotBesideUpper(j, g, h, e, t);
  }

  // The entry that a read returns.
  lemma VisibleValue(es: set<Entry>, u: UserKey, s: nat) returns (e: Entry)
    requires View(es, u, s) != Absent
    ensures e in es && Hit(e, u, s) && e.key.kind == Value
  {
    NewestExists(es, u, s);
    e :| Newest(es, u, s, e) && View(es, u, s) == ResultOf(e);
    assert ResultOf(e) != Absent;
  }

  lemma NewestIsHit(es: set<Entry>, u: UserKey, s: nat, t: Entry)
    requires Newest(es, u, s, t)
    ensures Hit(t, u, s)
  {
  }

  lemma NewestIsAtLeast(es: set<Entry>, u: UserKey, s: nat, t: Entry, e: Entry)
    requires Newest(es, u, s, t) && e in es && Hit(e, u, s)
    ensures e.key.seqno <= t.key.seqno
  {
  }

  lemma BystanderOf(j: Job, e: Entry) returns (l: nat, g: File)
    requires |j.before.levels| == NUM_LEVELS && e in j.Rest()
    ensures l < NUM_LEVELS && Bystander(j.before, j.level, j.inputs0, j.inputs1, l, g) && e in g.table
    ensures g in j.before.levels[l] && (l == j.level + 1 ==> g !in j.inputs1)
  {
    l, g :| l < NUM_LEVELS && g in j.before.levels[l] && Bystander(j.before, j.level, j.inputs0, j.inputs1, l, g) && e in g.table;
  }

  lemma InputOf(j: Job, t: Entry) returns (h: File)
    requires Done(j) && t in Elements(j.merged)
    ensures (h in j.inputs0 || h in j.inputs1) && t in h.table
  {
    if t in TableEntries(j.inputs0) {
      h :| h in j.inputs0 && t in h.table;
    } else {
      assert t in TableEntries(j.inputs1);
      h :| h in j.inputs1 && t in h.table;
    }
  }

  lemma NotAbove(j: Job, l: nat, g: File, h: File, e: Entry, t: Entry)
    requires Done(j) && l < NUM_LEVELS && Bystander(j.before, j.level, j.inputs0, j.inputs1, l, g)
    requires e in g.table && (h in j.inputs0 || h in j.inputs1) && t in h.table
    requires e.key.ukey == t.key.ukey && e.key.seqno <= t.key.seqno
    ensures l > j.level
  {
    hide ShiftReady;
    BystanderAge(j.before, j.level, j.inputs0, j.inputs1, l, g, h);
  }

  lemma NotBelow(j: Job, u: UserKey, l: nat, g: File, e: Entry)
    requires Done(j) && BaseLevelFor(j.before, j.level, u)
    requires l < NUM_LEVELS && g in j.before.levels[l] && e in g.table && e.key.ukey == u
    ensures l < j.level + 2
  {
    assert Shaped(j.before);
    hide Done;
    BaseLevelHolds(j.before, j.level, u, l, g, e);
  }

  lemma BaseLevelHolds(v: Version, level: nat, u: UserKey, l: nat, g: File, e: Entry)
    requires Shaped(v) && BaseLevelFor(v, level, u)
    requires l < NUM_LEVELS && g in v.levels[l] && e in g.table && e.key.ukey == u
    ensures l < level + 2
  {
    assert ValidFile(g);
    FileBounds(g, e);
    assert l >= level + 2 ==> NotCovered(v.levels[l], u);
  }

  // A left-out file of level + 1 shares no user key with the inputs of the compacted level.
  lemma NotBesideUpper(j: Job, g: File, h: File, e: Entry, t: Entry)
    requires Done(j)
    requires g in j.before.levels[j.level + 1] && g !in j.inputs1 && e in g.table
    requires (h in j.inputs0 || h in j.inputs1) && t in h.table && t.key.ukey == e.key.ukey
    ensures h in j.inputs1
  {
    hide Done, ShiftReady, Sorted, CompactionWork.Kept, Flatten, Outputs, Applied, UniqueNumbers, Distinct, ClosedInputs, SortedFiles, BySmallestKey,
         IsSmallest, IsLargest, Overlaps;
    DoneFacts(j);
    ReadyFacts(j.before, j.level, j.inputs0, j.inputs1);
    ReadyLower(j.before, j.level, j.inputs0, j.inputs1);
    var next := j.before.levels[j.level + 1];
    var lo, hi :| IsSmallest(j.inputs0, lo) && IsLargest(j.inputs0, hi)
                  && j.inputs1 == Overlapping(next, Some(lo.ukey), Some(hi.ukey));
    assert ValidFile(g) && ValidFile(h);
    OverlappingElements(next, Some(lo.ukey), Some(hi.ukey));
    OutsideHull(j.inputs0, lo, hi, g, h, e, t);
  }

  lemma OutsideHull(upper: seq<File>, lo: IKey, hi: IKey, g: File, h: File, e: Entry, t: Entry)
    requires IsSmallest(upper, lo) && IsLargest(upper, hi)
    requires ValidFile(g) && ValidFile(h) && e in g.table && t in h.table
    requires !Overlaps(g, Some(lo.ukey), Some(hi.ukey)) && t.key.ukey == e.key.ukey
    ensures h !in upper
  {
    FileBounds(h, t);
    FileBounds(g, e);
    FileBounds(g, g.table[0]);
  }

  lemma ReadyLower(v: Version, level: nat, inputs0: seq<File>, inputs1: seq<File>)
    requires ShiftReady(v, level, inputs0, inputs1)
    ensures LowerInputs(v, level, inputs0, inputs1)
  {
  }

  // No file of level + 1 outside the inputs holds a user key of the lower inputs.
  ghost predicate NoSplitKeys(v: Version, level: nat, inputs1: seq<File>)
    requires |v.levels| == NUM_LEVELS && level + 1 < NUM_LEVELS
  {
    forall g, h, x, y :: g in v.levels[level + 1] && g !in inputs1 && h in inputs1 && x in g.table && y in h.table
      ==> x.key.ukey != y.key.ukey
  }

  lemma NothingResurfaces(j: Job, u: UserKey)
    requires Done(j) && NoSplitKeys(j.before, j.level, j.inputs1)
    ensures |j.before.levels| == NUM_LEVELS && !j.Resurfaces(u)
  {
    hide Done, ShiftReady, CompactionReads.Resurfaces, Sorted, Flatten, Outputs, Applied;
    DoneFacts(j);
    if j.Resurfaces(u) {
      var g, e, h, t := ResurfacesFromNextLevel(j, u);
      assert false;
    }
  }

  /** The guarantee for the files the compaction was meant to be given. */
  lemma CompactionKeepsReads(j: Job, u: UserKey, s: nat)
    requires Done(j) && NoSplitKeys(j.before, j.level, j.inputs1)
    requires j.snapshot < MAX_SEQUENCE && j.snapshot <= s
    ensures View(Entries(j.after), u, s) == View(Entries(j.before), u, s)
  {
    hide Done, NoSplitKeys, View, Entries, CompactionReads.Resurfaces;
    NothingResurfaces(j, u);
    CompactionKeepsReadsIff(j);
    forall w
      ensures !j.Resurfaces(w)
    {
      NothingResurfaces(j, w);
    }
  }

  /** Trivial move */

  lemma MoveKeepsOrder(v: Version, level: nat, f: File, v2: Version)
    requires ShiftReady(v, level, [f], [])
    requires Applied(v, CompactionEdit(level, [f], [], [f]), v2)
    ensures LevelOrder(v2) && Entries(v2) == Entries(v)
  {
    hide ShiftReady, LevelOrder, Shifted, Entries, LevelSteps.Rest, CompactionEdit, Applied, Distinct;
    ReadyFacts(v, level, [f], []);
    MoveIsGood(v, level, f);
    EditShifts(v, level, [f], [], [f], v2);
    ShiftKeepsOrder(v, level, [f], [], [f], v2);
    assert TableEntries([]) == {};
  }

  lemma MoveIsGood(v: Version, level: nat, f: File)
    requires Shaped(v) && UniqueNumbers(v) && level + 1 < NUM_LEVELS && f in v.levels[level]
    ensures NewOutputs(v, level, [f], [], [f])
  {
    assert ValidFile(f);
    hide BySmallestKey, ValidFile;
    assert SortedFiles([f]);
    assert TableEntries([f]) <= TableEntries([f]) + TableEntries([]);
  }

  /** Flush */

  lemma FlushEditFlushes(v: Version, level: nat, f: File, v2: Version)
    requires LevelOrder(v) && Applied(v, FileEdit({}, [(level, f)]), v2)
    ensures Flushed(v, level, f, v2)
  {
    var e := FileEdit({}, [(level, f)]);
    hide LevelOrder, BySmallestKey;
    forall l: nat, g | l < NUM_LEVELS
      ensures g in v2.levels[l] <==> g in v.levels[l] || (l == level && g == f)
    {
      assert e.added[0] == (level, f);
      assert AddedAt(e, l) == if l == level then {f} else {};
      assert g in v2.levels[l] <==> g in Members(v2.levels[l]);
    }
  }
}
