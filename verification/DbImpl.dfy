/** DBImpl: the operations that take the steps of the store, and Get. */
module DbImpl {
  import opened Keys
  import opened Wrappers
  import opened Files
  import opened Versions
  import opened Compactions
  import opened CompactionInputs
  import opened CompactionWork
  import opened Builder
  import opened LevelSteps
  import opened CompactionTheorems
  import opened Cursors
  import opened InternalIterators
  import DbIter
  import Merger
  import opened Histories
  import opened Store
  import CompactionReads

  /** Memtables as ordered lists of entries */

  ghost predicate NewKey(es: seq<Entry>, e: Entry) {
    forall x :: x in es ==> Less(x.key, e.key) || Less(e.key, x.key)
  }

  method InsertEntry(es: seq<Entry>, e: Entry) returns (r: seq<Entry>)
    requires Sorted(es) && NewKey(es, e)
    ensures Sorted(r) && Elements(r) == Elements(es) + {e}
  {
    var k := 0;
    while k < |es| && Less(es[k].key, e.key)
      invariant 0 <= k <= |es|
      invariant forall j :: 0 <= j < k ==> Less(es[j].key, e.key)
    {
      k := k + 1;
    }
    assert es == es[..k] + es[k..];
    r := es[..k] + [e] + es[k..];
    InsertedIsSorted(es, k, e);
  }

  lemma InsertedIsSorted(es: seq<Entry>, k: nat, e: Entry)
    requires Sorted(es) && k <= |es| && NewKey(es, e)
    requires forall j :: 0 <= j < k ==> Less(es[j].key, e.key)
    requires k < |es| ==> !Less(es[k].key, e.key)
    ensures Sorted(es[..k] + [e] + es[k..])
  {
  }

  // MemTable::Get: seek, then compare the user key.
  function MemGet(es: seq<Entry>, u: UserKey, s: nat): SaverState {
    var i := SeekIndex(es, IKey(u, s, SEEK_TYPE));
    if i < |es| && es[i].key.ukey == u then
      (if es[i].key.kind == Value then FoundValue(es[i].value) else FoundDeletion)
    else NotFound
  }

  lemma MemGetMeaning(es: seq<Entry>, u: UserKey, s: nat)
    requires Sorted(es) && Distinct(Elements(es))
    ensures MemGet(es, u, s) == NotFound <==> NoHit(Elements(es), u, s)
    ensures MemGet(es, u, s) != NotFound ==> View(Elements(es), u, s) == Saved(MemGet(es, u, s))
  {
    FirstAtOrAfter(es, u, s, SeekIndex(es, IKey(u, s, SEEK_TYPE)));
  }

  class DBImpl {
    var mem: seq<Entry>
    var imm: Option<seq<Entry>>
    var version: Version
    var lastSequence: nat
    var nextFile: nat
    var snapshots: seq<nat>
    const maxFileSize: nat
    ghost var history: set<Entry>
    ghost var horizon: nat
    ghost var back: Returns

    ghost function Abs(): State
      reads this
    {
      State(Elements(mem), if imm.Some? then Some(Elements(imm.value)) else None, version,
            lastSequence, nextFile, snapshots, history, horizon, back)
    }

    ghost predicate Valid()
      reads this
    {
      Sorted(mem) && (imm.Some? ==> Sorted(imm.value)) && Inv(Abs())
    }

    constructor (maxFileSize: nat)
      ensures Valid() && Initial(Abs())
    {
      mem, imm, version, lastSequence, nextFile, snapshots := [], None, EmptyVersion(), 0, 2, [];
      this.maxFileSize := maxFileSize;
      history, horizon, back := {}, 0, imap[];
      new;
      assert Elements([]) == {};
      InitialInv(Abs());
    }

    // Insert a batch under consecutive sequence numbers.
    method Write(ops: seq<Op>)
      requires Valid() && lastSequence + |ops| < MAX_SEQUENCE
      modifies this
      ensures Valid() && WriteStep(old(Abs()), ops, Abs())
      ensures forall i: nat, u :: i < |ops| && LastOn(ops, i, u) ==>
        View(Reachable(Abs()), u, lastSequence) == if ops[i].kind == Value then Present(ops[i].value) else Absent
      ensures forall u :: (forall i :: 0 <= i < |ops| ==> ops[i].ukey != u) ==>
        View(Reachable(Abs()), u, lastSequence) == old(View(Reachable(Abs()), u, lastSequence))
    {
      hide Inv, Sorted;
      ghost var s := Abs();
      var r := InsertBatch(mem, ops, lastSequence, s);
      mem := r;
      history := history + BatchEntries(ops, lastSequence + 1);
      lastSequence := lastSequence + |ops|;
      WriteKeepsInv(s, ops, Abs());
      WriteIsSeen(s, ops, Abs());
    }

    // MakeRoomForWrite's switch to a new memtable.
    method SwitchMemTable()
      requires Valid() && imm == None
      modifies this
      ensures Valid() && SwitchStep(old(Abs()), Abs())
    {
      ghost var s := Abs();
      imm := Some(mem);
      mem := [];
      assert Elements([]) == {};
      SwitchKeepsInv(s, Abs());
    }

    // Write the immutable memtable to a table at the level that suits it.
    method CompactMemTable(size: nat) returns (level: nat)
      requires Valid() && imm.Some?
      modifies this
      ensures Valid() && imm == None
      ensures old(imm).value == [] ==> FlushEmptyStep(old(Abs()), Abs())
      ensures old(imm).value != [] ==> exists f :: FlushStep(old(Abs()), level, f, Abs())
      ensures old(imm).value != [] ==> |old(version).levels| == NUM_LEVELS && level <= 2
      ensures old(imm).value != [] ==>
        var es := old(imm).value; SuitsMemTable(old(version), es[0].key.ukey, es[|es| - 1].key.ukey, maxFileSize, level)
    {
      ghost var s := Abs();
      var table := imm.value;
      level := 0;
      if table == [] {
        assert Elements([]) == {};
        imm := None;
        nextFile := nextFile + 1;
        FlushEmptyKeepsInv(s, Abs());
      } else {
        ghost var f;
        level, f := FlushTable(table, size);
      }
    }

    // WriteLevel0Table and the edit that installs its output.
    method FlushTable(table: seq<Entry>, size: nat) returns (level: nat, ghost f: File)
      requires Valid() && imm == Some(table) && table != []
      modifies this
      ensures Valid() && imm == None && FlushStep(old(Abs()), level, f, Abs())
      ensures level <= 2 && |old(version).levels| == NUM_LEVELS
      ensures SuitsMemTable(old(version), table[0].key.ukey, table[|table| - 1].key.ukey, maxFileSize, level)
    {
      hide LevelOrder, ReadsOk, Entries, BySmallestKey, Elements, ValidFile, Applied, NewNumbers, FlushStep, Distinct, AllNewer, NumbersBelow;
      ghost var s := Abs();
      var file := File(nextFile, size, table[0].key, table[|table| - 1].key, table);
      f := file;
      MemTableIsFile(s, file);
      OrderFacts(version);
      hide Shaped, UniqueNumbers, Sorted;
      level := PickLevelForMemTableOutput(version, file.smallest.ukey, file.largest.ukey, maxFileSize);
      SuitsFlush(version, level, file, maxFileSize);
      hide SuitsMemTable;
      AddIsNew(version, level, file);
      var next := BuildVersion(version, FileEdit({}, [(level, file)]));
      version := next;
      nextFile := nextFile + 1;
      imm := None;
      FlushIsStep(s, level, file, Abs());
      FlushKeepsInv(s, level, file, Abs());
    }

    // The background thread's compaction: a trivial move, or the merge of the inputs.
    method RunCompaction(c: Compaction, isManual: bool, cutBefore: set<nat>, cutAfter: set<nat>, sizeOf: seq<Entry> -> nat)
      returns (ghost job: Option<Job>)
      requires Valid() && c.Ready() && c.version == version && c.levelPtrs == seq(NUM_LEVELS, _ => 0)
      modifies this, c
      ensures Valid()
      // a file is moved when nothing has to be merged with it and it does not meet too much two levels below
      ensures job == None <==> !isManual && |old(c.inputs0)| == 1 && old(c.inputs1) == []
                               && TotalFileSize(old(c.grandparents)) <= 10 * maxFileSize
      ensures job == None ==> |old(c.inputs0)| == 1 && MoveStep(old(Abs()), c.level, old(c.inputs0)[0], Abs())
      ensures job.Some? ==> CompactStep(old(Abs()), job.value, Abs())
    {
      hide Inv, MoveStep, CompactStep, Shaped, ClosedInputs, LowerInputs, Sorted, CompactionReads.Resurfaces;
      if !isManual && c.IsTrivialMove(maxFileSize) {
        MoveFile(c.level, c.inputs0[0], c);
        job := None;
      } else {
        ghost var j := MergeFiles(c, cutBefore, cutAfter, sizeOf);
        job := Some(j);
      }
    }

    method MoveFile(level: nat, f: File, ghost c: Compaction)
      requires Valid() && c.Ready() && c.version == version && c.level == level && c.inputs0 == [f] && c.inputs1 == []
      modifies this
      ensures Valid() && MoveStep(old(Abs()), level, f, Abs())
    {
      hide LevelOrder, ReadsOk, Entries, BySmallestKey, Elements, ValidFile, Applied, NewNumbers, Distinct, AllNewer,
           NumbersBelow, ClosedInputs, LowerInputs, UniqueNumbers;
      ghost var s := Abs();
      OrderFacts(version);
      assert ShiftReady(version, level, [f], []);
      hide Shaped, ShiftReady;
      ReadyFacts(version, level, [f], []);
      MoveIsNew(version, level, f);
      var next := BuildVersion(version, FileEdit({(level, f.number)}, [(level + 1, f)]));
      MoveEdit(level, f);
      version := next;
      MoveKeepsInv(s, level, f, Abs());
    }

    method MergeFiles(c: Compaction, cutBefore: set<nat>, cutAfter: set<nat>, sizeOf: seq<Entry> -> nat) returns (ghost job: Job)
      requires Valid() && c.Ready() && c.version == version && c.levelPtrs == seq(NUM_LEVELS, _ => 0)
      modifies this, c`levelPtrs
      ensures Valid() && CompactStep(old(Abs()), job, Abs())
    {
      hide LevelOrder, ReadsOk, Entries, BySmallestKey, Elements, Applied, NewNumbers, Distinct, AllNewer, NumbersBelow,
           ClosedInputs, LowerInputs, UniqueNumbers, Kept, Flatten, Outputs, TableEntries, CompactionEdit, NewOutputs;
      ghost var s := Abs();
      OrderFacts(version);
      assert ShiftReady(version, c.level, c.inputs0, c.inputs1);
      hide ShiftReady;
      ReadyFacts(version, c.level, c.inputs0, c.inputs1);
      InputsAreDistinct(version, c.level, c.inputs0, c.inputs1);
      hide Shaped;
      var snapshot := FindSmallestSnapshot();
      var input := MakeInputIterator(c);
      ghost var merged := SortedList(TableEntries(c.inputs0) + TableEntries(c.inputs1));
      var outputs := DoCompactionWork(c, input, merged, snapshot, nextFile, cutBefore, cutAfter, sizeOf);
      ghost var j := Job(version, c.level, c.inputs0, c.inputs1, merged, snapshot, nextFile, outputs, version);
      CompactionIsNew(s, j);
      var next := BuildVersion(version, CompactionEdit(c.level, c.inputs0, c.inputs1, outputs));
      job := j.(after := next);
      CompactionIsDone(s, j, next);
      version := next;
      nextFile := nextFile + |outputs|;
      horizon, back := snapshot, Returned(back, Gone(job), snapshot);
      assert CompactStep(s, job, Abs());
      CompactKeepsInv(s, job, Abs());
    }

    method FindSmallestSnapshot() returns (sn: nat)
      ensures sn == SmallestSnapshot(Abs())
    {
      sn := if snapshots == [] then lastSequence else snapshots[0];
    }

    method GetSnapshot() returns (sn: nat)
      requires Valid()
      modifies this
      ensures Valid() && SnapshotStep(old(Abs()), Abs()) && sn == lastSequence
    {
      ghost var s := Abs();
      sn := lastSequence;
      snapshots := snapshots + [lastSequence];
      SnapshotKeepsInv(s, Abs());
    }

    method ReleaseSnapshot(i: nat)
      requires Valid() && i < |snapshots|
      modifies this
      ensures Valid() && ReleaseStep(old(Abs()), i, Abs())
      ensures multiset(snapshots) == old(multiset(snapshots)) - multiset{old(snapshots[i])}
    {
      hide Inv;
      ghost var s := Abs();
      OthersStay(snapshots, i);
      snapshots := snapshots[..i] + snapshots[i + 1..];
      ReleaseKeepsInv(s, i, Abs());
    }

    // An iterator over everything reachable at a sequence number; what it shows is what the whole
    // history of writes says, for every key that no compaction has brought back.
    method NewIterator(sn: nat) returns (it: DbIter.DBIter)
      requires Valid() && Readable(Abs(), sn)
      ensures fresh(it) && fresh(it.iter) && it.Valid() && !it.valid && it.sequence == sn
      ensures Elements(it.list) == Reachable(Abs())
      ensures forall u :: Settled(back, history, u, sn) ==> View(Elements(it.list), u, sn) == View(history, u, sn)
    {
      hide Inv, Merger.GoodChildren, Merger.Union, Sorted, DbIter.GoodList;
      ReachableApart(Abs());
      var children := ReachableChildren(mem, imm, version);
      it := new DbIter.DBIter(children, sn);
      forall u
        ensures Settled(back, history, u, sn) ==> View(Elements(it.list), u, sn) == View(history, u, sn)
      {
        ReadableFacts(Abs(), u, sn);
      }
    }

    /** Get returns the newest value of everything reachable, and that is what the whole history of
        writes says at the snapshot, for every key that no compaction has brought back. */
    method Get(u: UserKey, sn: nat) returns (r: ReadResult)
      requires Valid() && Readable(Abs(), sn)
      ensures r == View(Reachable(Abs()), u, sn)
      ensures Settled(back, history, u, sn) ==> r == View(history, u, sn)
    {
      ReadableFacts(Abs(), u, sn);
      ReachableParts(Abs(), u, sn);
      MemGetMeaning(mem, u, sn);
      var saved := MemGet(mem, u, sn);
      if saved == NotFound && imm.Some? {
        MemGetMeaning(imm.value, u, sn);
        saved := MemGet(imm.value, u, sn);
      }
      if saved != NotFound {
        return Saved(saved);
      }
      var found;
      found, r := Versions.Get(version, u, sn);
    }
  }

  lemma SuitsFlush(v: Version, level: nat, f: File, maxFileSize: nat)
    requires |v.levels| == NUM_LEVELS && level <= 2 && SuitsMemTable(v, f.smallest.ukey, f.largest.ukey, maxFileSize, level)
    ensures level > 0 ==> forall l: nat :: l <= level ==> !OverlapInLevel(v, l, f.smallest.ukey, f.largest.ukey)
  {
  }

  lemma OthersStay(s: seq<nat>, i: nat)
    requires i < |s|
    ensures multiset(s[..i] + s[i + 1..]) == multiset(s) - multiset{s[i]}
  {
    assert s == s[..i] + [s[i]] + s[i + 1..];
  }

  lemma WriteIsSeen(s: State, ops: seq<Op>, t: State)
    requires Inv(s) && WriteStep(s, ops, t)
    ensures forall i: nat, u :: i < |ops| && LastOn(ops, i, u) ==>
      View(Reachable(t), u, t.lastSequence) == if ops[i].kind == Value then Present(ops[i].value) else Absent
    ensures forall u :: (forall i :: 0 <= i < |ops| ==> ops[i].ukey != u) ==>
      View(Reachable(t), u, t.lastSequence) == View(Reachable(s), u, s.lastSequence)
  {
    hide Inv, WriteStep, View, Reachable, LastOn;
    forall i: nat, u | i < |ops| && LastOn(ops, i, u)
      ensures View(Reachable(t), u, t.lastSequence) == if ops[i].kind == Value then Present(ops[i].value) else Absent
    {
      WriteIsRead(s, ops, t, i, u);
    }
    forall u
      ensures (forall i :: 0 <= i < |ops| ==> ops[i].ukey != u) ==>
        View(Reachable(t), u, t.lastSequence) == View(Reachable(s), u, s.lastSequence)
    {
      WriteLeavesOthers(s, ops, t, u, 0);
    }
  }

  lemma ReachableApart(s: State)
    requires Inv(s)
    ensures KeysApart(s.mem, ImmEntries(s)) && KeysApart(s.mem + ImmEntries(s), Entries(s.version))
    ensures LevelOrder(s.version) && Distinct(Reachable(s))
  {
    hide LevelOrder, View, Entries;
    DistinctPart(s.history, Reachable(s));
  }

  lemma FlushIsStep(s: State, level: nat, f: File, t: State)
    requires s.imm == Some(Elements(f.table)) && ValidFile(f) && f.number == s.nextFile
    requires |s.version.levels| == NUM_LEVELS && level < NUM_LEVELS
    requires level > 0 ==> forall l: nat :: l <= level ==> !OverlapInLevel(s.version, l, f.smallest.ukey, f.largest.ukey)
    requires Applied(s.version, FileEdit({}, [(level, f)]), t.version)
    requires t == s.(imm := None, nextFile := s.nextFile + 1, version := t.version)
    ensures FlushStep(s, level, f, t)
  {
  }

  lemma MoveEdit(level: nat, f: File)
    ensures CompactionEdit(level, [f], [], [f]) == FileEdit({(level, f.number)}, [(level + 1, f)])
  {
  }

  lemma MoveIsNew(v: Version, level: nat, f: File)
    requires Shaped(v) && UniqueNumbers(v) && level + 1 < NUM_LEVELS && f in v.levels[level]
    ensures var e := FileEdit({(level, f.number)}, [(level + 1, f)]); ValidEdit(e) && NewNumbers(v, e)
    ensures forall l: nat :: l < NUM_LEVELS ==> BySmallestKey(v.levels[l])
  {
    LevelsBySmallest(v);
    hide Shaped, BySmallestKey;
  }

  lemma LevelsBySmallest(v: Version)
    requires Shaped(v)
    ensures |v.levels| == NUM_LEVELS
    ensures forall l: nat :: l < NUM_LEVELS ==> BySmallestKey(v.levels[l])
  {
    forall l: nat | l < NUM_LEVELS
      ensures BySmallestKey(v.levels[l])
    {
      if l > 0 {
        SortedIsBySmallest(v.levels[l]);
      }
    }
  }

  lemma InputsAreDistinct(v: Version, level: nat, inputs0: seq<File>, inputs1: seq<File>)
    requires level + 1 < |v.levels| && Distinct(Entries(v))
    requires forall f :: f in inputs0 ==> f in v.levels[level]
    requires forall f :: f in inputs1 ==> f in v.levels[level + 1]
    ensures TableEntries(inputs0 + inputs1) == TableEntries(inputs0) + TableEntries(inputs1)
    ensures Distinct(TableEntries(inputs0 + inputs1))
  {
  }

  lemma CompactionIsNew(s: State, j: Job)
    requires Inv(s) && j.before == s.version && j.firstNumber == s.nextFile
    requires ShiftReady(j.before, j.level, j.inputs0, j.inputs1)
    requires Outputs(j.outputs, j.firstNumber)
    ensures var e := CompactionEdit(j.level, j.inputs0, j.inputs1, j.outputs); ValidEdit(e) && NewNumbers(s.version, e)
    ensures forall l: nat :: l < NUM_LEVELS ==> BySmallestKey(s.version.levels[l])
  {
    hide LevelOrder, ReadsOk, Entries, ShiftReady, Outputs, Distinct, UniqueNumbers;
    ReadyFacts(j.before, j.level, j.inputs0, j.inputs1);
    OutputNumbers(j.outputs, j.firstNumber);
    LevelsBySmallest(s.version);
    hide Shaped, BySmallestKey;
    var e := CompactionEdit(j.level, j.inputs0, j.inputs1, j.outputs);
    forall l: nat
      ensures AddedAt(e, l) <= Members(j.outputs)
    {
      CompactionEditLevel(j.level, j.inputs0, j.inputs1, j.outputs, l);
    }
    hide AddedAt;
    assert forall l: nat, g :: g in AddedAt(e, l) ==> g in Members(j.outputs);
  }

  lemma CompactionIsDone(s: State, j: Job, next: Version)
    requires Inv(s) && j.before == s.version && j.firstNumber == s.nextFile
    requires ShiftReady(j.before, j.level, j.inputs0, j.inputs1)
    requires Sorted(j.merged) && Elements(j.merged) == TableEntries(j.inputs0) + TableEntries(j.inputs1)
    requires |j.before.levels| == NUM_LEVELS && Flatten(j.outputs) == Kept(j.before, j.level, j.merged, j.snapshot, |j.merged|)
    requires Outputs(j.outputs, j.firstNumber)
    requires Applied(j.before, CompactionEdit(j.level, j.inputs0, j.inputs1, j.outputs), next)
    ensures Done(j.(after := next))
  {
    hide LevelOrder, ReadsOk, Entries, ShiftReady, Outputs, Distinct, Sorted, Elements, TableEntries, Applied, Flatten, Kept;
  }

  // MemTableInserter: one entry per operation, under consecutive sequence numbers.
  method InsertBatch(mem: seq<Entry>, ops: seq<Op>, lastSequence: nat, ghost s: State) returns (r: seq<Entry>)
    requires Sorted(mem) && Inv(s) && s.mem == Elements(mem) && s.lastSequence == lastSequence
    ensures Sorted(r) && Elements(r) == Elements(mem) + BatchEntries(ops, lastSequence + 1)
  {
    hide Inv, Sorted, NewKey, Elements;
    r := mem;
    for i := 0 to |ops|
      invariant Sorted(r) && Elements(r) == s.mem + BatchEntries(ops[..i], lastSequence + 1)
    {
      BatchGrows(ops, i, lastSequence + 1);
      BatchIsNew(s, ops, i, r);
      r := InsertEntry(r, OpEntry(ops[i], lastSequence + 1 + i));
    }
    assert ops[..|ops|] == ops;
  }

  lemma BatchGrows(ops: seq<Op>, i: nat, first: nat)
    requires i < |ops|
    ensures BatchEntries(ops[..i + 1], first) == BatchEntries(ops[..i], first) + {OpEntry(ops[i], first + i)}
  {
  }

  lemma BatchIsNew(s: State, ops: seq<Op>, i: nat, r: seq<Entry>)
    requires Inv(s) && i < |ops|
    requires Elements(r) == s.mem + BatchEntries(ops[..i], s.lastSequence + 1)
    ensures NewKey(r, OpEntry(ops[i], s.lastSequence + 1 + i))
  {
  }

  lemma MemTableIsFile(s: State, f: File)
    requires Inv(s) && s.imm == Some(Elements(f.table)) && f.table != [] && Sorted(f.table)
    requires f.smallest == f.table[0].key && f.largest == f.table[|f.table| - 1].key && f.number == s.nextFile
    ensures ValidFile(f)
    ensures forall l: nat, g :: l < NUM_LEVELS && g in s.version.levels[l] ==> g.number < f.number
  {
  }

  lemma AddIsNew(v: Version, level: nat, f: File)
    requires Shaped(v) && level < NUM_LEVELS
    requires forall l: nat, g :: l < NUM_LEVELS && g in v.levels[l] ==> g.number < f.number
    ensures NewNumbers(v, FileEdit({}, [(level, f)]))
    ensures forall l: nat :: l < NUM_LEVELS ==> BySmallestKey(v.levels[l])
  {
  }

  lemma SortedIsBySmallest(fs: seq<File>)
    requires SortedFiles(fs)
    ensures BySmallestKey(fs)
  {
    forall i, j | 0 <= i < j < |fs|
      ensures FileBefore(fs[i], fs[j])
    {
      assert ValidFile(fs[i]);
      FileBounds(fs[i], fs[i].table[0]);
    }
  }

  lemma ReadableFacts(s: State, u: UserKey, sn: nat)
    requires Inv(s) && Readable(s, sn)
    ensures LevelOrder(s.version) && sn <= MAX_SEQUENCE && s.horizon <= sn
    ensures Distinct(Reachable(s)) && Distinct(s.mem) && Distinct(ImmEntries(s))
    ensures Settled(s.back, s.history, u, sn) ==> View(Reachable(s), u, sn) == View(s.history, u, sn)
  {
  }

  // A read of everything reachable is decided by the first of the three sources with a hit.
  lemma ReachableParts(s: State, u: UserKey, sn: nat)
    requires Inv(s) && Readable(s, sn)
    ensures View(Reachable(s), u, sn)
         == if !NoHit(s.mem, u, sn) then View(s.mem, u, sn)
            else if !NoHit(ImmEntries(s), u, sn) then View(ImmEntries(s), u, sn)
            else View(Entries(s.version), u, sn)
  {
    ReadableFacts(s, u, sn);
    hide LevelOrder, ReadsOk, Entries, View;
    DistinctPart(Reachable(s), InMemory(s));
    AllNewerView(InMemory(s), Entries(s.version), u, sn);
    AllNewerView(s.mem, ImmEntries(s), u, sn);
    assert NoHit(InMemory(s), u, sn) <==> NoHit(s.mem, u, sn) && NoHit(ImmEntries(s), u, sn);
  }
}
