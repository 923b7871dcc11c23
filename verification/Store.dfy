/** The store as a state machine: writes, memtable switches, flushes, compactions and snapshots,
    with the levels in order whatever compactions do, and every read at a live snapshot equal to a read
    of everything ever written, unless a compaction has brought the user key back. */
module Store {
  import opened Keys
  import opened Wrappers
  import opened Files
  import opened Versions
  import opened Compactions
  import opened Histories
  import opened Builder
  import opened LevelSteps
  import opened CompactionTheorems
  import CompactionWork
  import CompactionReads

  datatype Op = Op(ukey: UserKey, kind: ValueType, value: Bytes)

  // history holds every entry ever written, horizon the largest snapshot a compaction has used, back
  // the user keys that a compaction has brought back; no step depends on them.
  datatype State = State(mem: set<Entry>, imm: Option<set<Entry>>, version: Version,
                         lastSequence: nat, nextFile: nat, snapshots: seq<nat>,
                         history: set<Entry>, horizon: nat, back: Returns)

  function EmptyVersion(): Version {
    Version([[], [], [], [], [], [], []])
  }

  ghost predicate Initial(s: State) {
    && s.mem == {} && s.imm == None && s.version == EmptyVersion()
    && s.lastSequence == 0 && s.snapshots == [] && s.history == {} && s.horizon == 0 && s.back == imap[]
  }

  function ImmEntries(s: State): set<Entry> {
    if s.imm.Some? then s.imm.value else {}
  }

  // What is in memory, and everything a reader can reach.
  function InMemory(s: State): set<Entry> {
    s.mem + ImmEntries(s)
  }

  ghost function Reachable(s: State): set<Entry> {
    InMemory(s) + Entries(s.version)
  }

  // snapshots_ is ordered by age; without snapshots only the newest state has to stay readable.
  function SmallestSnapshot(s: State): nat {
    if s.snapshots == [] then s.lastSequence else s.snapshots[0]
  }

  /** Steps */

  function OpEntry(op: Op, seqno: nat): Entry {
    Entry(IKey(op.ukey, seqno, op.kind), op.value)
  }

  // The entries of a batch, numbered upwards from `first`.
  function BatchEntries(ops: seq<Op>, first: nat): set<Entry> {
    set i | 0 <= i < |ops| :: OpEntry(ops[i], first + i)
  }

  ghost predicate WriteStep(s: State, ops: seq<Op>, t: State) {
    && s.lastSequence + |ops| < MAX_SEQUENCE
    && t == s.(mem := s.mem + BatchEntries(ops, s.lastSequence + 1),
               lastSequence := s.lastSequence + |ops|,
               history := s.history + BatchEntries(ops, s.lastSequence + 1))
  }

  ghost predicate SwitchStep(s: State, t: State) {
    s.imm == None && t == s.(mem := {}, imm := Some(s.mem))
  }

  // A memtable without entries produces no file.
  ghost predicate FlushEmptyStep(s: State, t: State) {
    s.imm == Some({}) && t == s.(imm := None, nextFile := s.nextFile + 1)
  }

  ghost predicate FlushStep(s: State, level: nat, f: File, t: State) {
    && s.imm.Some? && ValidFile(f) && Elements(f.table) == s.imm.value && f.number == s.nextFile
    && |s.version.levels| == NUM_LEVELS && level < NUM_LEVELS
    && (level > 0 ==> forall l: nat :: l <= level ==> !OverlapInLevel(s.version, l, f.smallest.ukey, f.largest.ukey))
    && Applied(s.version, FileEdit({}, [(level, f)]), t.version)
    && t == s.(imm := None, nextFile := s.nextFile + 1, version := t.version)
  }

  ghost predicate MoveStep(s: State, level: nat, f: File, t: State) {
    && ShiftReady(s.version, level, [f], [])
    && Applied(s.version, CompactionEdit(level, [f], [], [f]), t.version)
    && t == s.(version := t.version)
  }

  // The keys that the compaction brings back.
  ghost function Gone(j: Job): iset<UserKey>
    requires |j.before.levels| == NUM_LEVELS
  {
    iset u | j.Resurfaces(u)
  }

  ghost predicate CompactStep(s: State, j: Job, t: State) {
    && Done(j) && j.before == s.version && j.after == t.version
    && j.snapshot == SmallestSnapshot(s) && j.firstNumber == s.nextFile
    && t == s.(version := t.version, nextFile := s.nextFile + |j.outputs|, horizon := SmallestSnapshot(s),
               back := Returned(s.back, Gone(j), SmallestSnapshot(s)))
  }

  ghost predicate SnapshotStep(s: State, t: State) {
    t == s.(snapshots := s.snapshots + [s.lastSequence])
  }

  ghost predicate ReleaseStep(s: State, i: nat, t: State) {
    i < |s.snapshots| && t == s.(snapshots := s.snapshots[..i] + s.snapshots[i + 1..])
  }

  ghost predicate Next(s: State, t: State) {
    || (exists ops :: WriteStep(s, ops, t))
    || SwitchStep(s, t)
    || FlushEmptyStep(s, t)
    || (exists level, f :: FlushStep(s, level, f, t))
    || (exists level, f :: MoveStep(s, level, f, t))
    || (exists j :: CompactStep(s, j, t))
    || SnapshotStep(s, t)
    || (exists i :: ReleaseStep(s, i, t))
  }

  ghost predicate Run(ss: seq<State>) {
    && |ss| > 0 && Initial(ss[0])
    && forall i :: 0 <= i < |ss| - 1 ==> Next(ss[i], ss[i + 1])
  }

  /** The invariant */

  ghost predicate AtMostSeq(es: set<Entry>, n: nat) {
    forall e :: e in es ==> e.key.seqno <= n
  }

  ghost predicate NumbersBelow(v: Version, n: nat) {
    forall l: nat, f :: l < |v.levels| && f in v.levels[l] ==> f.number < n
  }

  ghost predicate SnapshotsOk(s: State) {
    && (forall i, k :: 0 <= i < k < |s.snapshots| ==> s.snapshots[i] <= s.snapshots[k])
    && (forall i :: 0 <= i < |s.snapshots| ==> s.horizon <= s.snapshots[i] <= s.lastSequence)
    && s.horizon <= s.lastSequence < MAX_SEQUENCE
  }

  ghost predicate ReadsOk(s: State) {
    ReadsLike(Reachable(s), s.history, s.horizon, s.back)
  }

  ghost predicate Inv(s: State) {
    && LevelOrder(s.version) && NumbersBelow(s.version, s.nextFile)
    && Distinct(s.history) && AtMostSeq(s.history, s.lastSequence)
    && AllNewer(s.mem, ImmEntries(s)) && AllNewer(InMemory(s), Entries(s.version))
    && SnapshotsOk(s)
    && ReadsOk(s)
  }

  ghost predicate NoFiles(v: Version) {
    |v.levels| == NUM_LEVELS && forall l: nat :: l < NUM_LEVELS ==> v.levels[l] == []
  }

  lemma NoFilesIsOrdered(v: Version)
    requires NoFiles(v)
    ensures LevelOrder(v) && Entries(v) == {} && NumbersBelow(v, 0)
  {
    assert forall l: nat, f :: l < NUM_LEVELS ==> f !in v.levels[l];
    NoFilesIsShaped(v);
    hide Shaped, NoFiles, NewerThan;
    assert Entries(v) == {};
  }

  lemma NoFilesIsShaped(v: Version)
    requires NoFiles(v)
    ensures Shaped(v)
  {
    hide ValidFile, FileBefore;
  }

  lemma InitialInv(s: State)
    requires Initial(s)
    ensures Inv(s)
  {
    assert NoFiles(EmptyVersion());
    hide LevelOrder, View, Entries, EmptyVersion, NoFiles;
    NoFilesIsOrdered(s.version);
    assert Reachable(s) == {};
  }

  /** Each step keeps the invariant */

  lemma BatchFacts(s: State, ops: seq<Op>)
    requires Distinct(s.history) && AtMostSeq(s.history, s.lastSequence)
    ensures var n := BatchEntries(ops, s.lastSequence + 1);
            Distinct(n + s.history) && AllNewer(n, s.history) && AtMostSeq(n, s.lastSequence + |ops|)
  {
  }

  lemma WriteKeepsInv(s: State, ops: seq<Op>, t: State)
    requires Inv(s) && WriteStep(s, ops, t)
    ensures Inv(t)
  {
    hide LevelOrder, View, Entries, BatchEntries;
    var n := BatchEntries(ops, s.lastSequence + 1);
    BatchFacts(s, ops);
    assert t.history == n + s.history;
    assert Reachable(t) == n + Reachable(s);
    ReadsLikeOnTop(n, Reachable(s), s.history, s.horizon, s.back);
  }

  /** What a write means to readers, in terms of its operations alone */

  // The last operation of the batch on a user key decides what the key reads as.
  ghost predicate LastOn(ops: seq<Op>, i: nat, u: UserKey) {
    i < |ops| && ops[i].ukey == u && forall k :: i < k < |ops| ==> ops[k].ukey != u
  }

  lemma WriteIsRead(s: State, ops: seq<Op>, t: State, i: nat, u: UserKey)
    requires Inv(s) && WriteStep(s, ops, t) && LastOn(ops, i, u)
    ensures View(Reachable(t), u, t.lastSequence) == if ops[i].kind == Value then Present(ops[i].value) else Absent
  {
    hide Inv, WriteStep, Reachable, View, Newest, Distinct;
    var e := Entry(IKey(u, s.lastSequence + 1 + i, ops[i].kind), ops[i].value);
    WrittenIsNewest(s, ops, t, i, u);
    ViewIs(Reachable(t), u, t.lastSequence, e);
  }

  // The entry of the last operation on a key is the newest one of that key.
  lemma WrittenIsNewest(s: State, ops: seq<Op>, t: State, i: nat, u: UserKey)
    requires Inv(s) && WriteStep(s, ops, t) && LastOn(ops, i, u)
    ensures Distinct(Reachable(t)) && t.lastSequence == s.lastSequence + |ops|
    ensures Newest(Reachable(t), u, t.lastSequence, Entry(IKey(u, s.lastSequence + 1 + i, ops[i].kind), ops[i].value))
  {
    hide Inv, WriteStep, Reachable, Distinct, Newest, WrittenOnto;
    WrittenDistinct(s, ops, t);
    WrittenEntries(s, ops, t);
    WriteStepNumbers(s, ops, t);
    LastIsNewest(Reachable(s), Reachable(t), s.lastSequence, ops, i, u);
  }

  lemma WriteStepNumbers(s: State, ops: seq<Op>, t: State)
    requires WriteStep(s, ops, t)
    ensures t.lastSequence == s.lastSequence + |ops|
  {
    hide LevelOrder, BatchEntries;
  }

  lemma LastIsNewest(before: set<Entry>, after: set<Entry>, base: nat, ops: seq<Op>, i: nat, u: UserKey)
    requires LastOn(ops, i, u) && WrittenOnto(before, after, base, ops)
    ensures Newest(after, u, base + |ops|, Entry(IKey(u, base + 1 + i, ops[i].kind), ops[i].value))
  {
    forall x | x in after && Hit(x, u, base + |ops|)
      ensures x.key.seqno <= base + 1 + i
    {
      if x !in before {
        var k: nat :| k < |ops| && x == Entry(IKey(ops[k].ukey, base + 1 + k, ops[k].kind), ops[k].value);
      }
    }
  }

  lemma WrittenDistinct(s: State, ops: seq<Op>, t: State)
    requires Inv(s) && WriteStep(s, ops, t)
    ensures Distinct(Reachable(t))
  {
    WriteKeepsInv(s, ops, t);
    WithinHistory(t);
    hide Reachable, BatchEntries, LevelOrder, ReadsOk, WriteStep;
    DistinctPart(t.history, Reachable(t));
  }

  // Every operation leaves one entry, with its own key, type and value, under the next sequence number.
  ghost predicate WrittenOnto(before: set<Entry>, after: set<Entry>, base: nat, ops: seq<Op>) {
    && before <= after && (forall x :: x in before ==> x.key.seqno <= base)
    && (forall k: nat :: k < |ops| ==> Entry(IKey(ops[k].ukey, base + 1 + k, ops[k].kind), ops[k].value) in after)
    && (forall x :: x in after && x !in before ==> exists k: nat ::
          k < |ops| && x == Entry(IKey(ops[k].ukey, base + 1 + k, ops[k].kind), ops[k].value))
  }

  lemma WrittenEntries(s: State, ops: seq<Op>, t: State)
    requires Inv(s) && WriteStep(s, ops, t)
    ensures WrittenOnto(Reachable(s), Reachable(t), s.lastSequence, ops)
  {
    hide *;
    WriteAdds(s, ops, t);
    OldNumbers(s);
    BatchWrites(Reachable(s), s.lastSequence, ops);
  }

  lemma WriteAdds(s: State, ops: seq<Op>, t: State)
    requires WriteStep(s, ops, t)
    ensures Reachable(t) == BatchEntries(ops, s.lastSequence + 1) + Reachable(s)
  {
    hide BatchEntries, Entries;
  }

  lemma OldNumbers(s: State)
    requires Inv(s)
    ensures AtMostSeq(Reachable(s), s.lastSequence)
  {
    WithinHistory(s);
    hide LevelOrder, ReadsOk, Reachable;
  }

  lemma BatchWrites(before: set<Entry>, base: nat, ops: seq<Op>)
    requires AtMostSeq(before, base)
    ensures WrittenOnto(before, BatchEntries(ops, base + 1) + before, base, ops)
  {
    forall k: nat | k < |ops|
      ensures Entry(IKey(ops[k].ukey, base + 1 + k, ops[k].kind), ops[k].value) in BatchEntries(ops, base + 1)
    {
      assert OpEntry(ops[k], base + 1 + k) in BatchEntries(ops, base + 1);
    }
  }

  // Keys that are not in the batch read as before, and so does every key at earlier sequence numbers.
  lemma WriteLeavesOthers(s: State, ops: seq<Op>, t: State, u: UserKey, sn: nat)
    requires Inv(s) && WriteStep(s, ops, t)
    ensures sn <= s.lastSequence ==> View(Reachable(t), u, sn) == View(Reachable(s), u, sn)
    ensures (forall i :: 0 <= i < |ops| ==> ops[i].ukey != u) ==>
      View(Reachable(t), u, t.lastSequence) == View(Reachable(s), u, s.lastSequence)
  {
    WrittenDistinct(s, ops, t);
    WrittenEntries(s, ops, t);
    hide LevelOrder, View, Entries, ReadsOk, BatchEntries;
    var added := Reachable(t) - Reachable(s);
    assert Reachable(t) == added + Reachable(s);
    if sn <= s.lastSequence {
      CompactionReads.ViewSkips(added, Reachable(s), u, sn);
    }
    if forall i :: 0 <= i < |ops| ==> ops[i].ukey != u {
      CompactionReads.ViewSkips(added, Reachable(s), u, t.lastSequence);
      DistinctPart(Reachable(t), Reachable(s));
      CompactionReads.ViewSameHits(Reachable(s), u, s.lastSequence, t.lastSequence);
    }
  }

  lemma SwitchKeepsInv(s: State, t: State)
    requires Inv(s) && SwitchStep(s, t)
    ensures Inv(t)
  {
    hide LevelOrder, View, Entries;
    assert Reachable(t) == Reachable(s);
  }

  lemma FlushEmptyKeepsInv(s: State, t: State)
    requires Inv(s) && FlushEmptyStep(s, t)
    ensures Inv(t)
  {
    hide LevelOrder, View, Entries;
    assert Reachable(t) == Reachable(s);
  }

  // A flushed memtable fits at the level that was picked for it.
  lemma FlushStepFits(s: State, level: nat, f: File, t: State)
    requires Inv(s) && FlushStep(s, level, f, t)
    ensures FlushFits(s.version, level, f)
  {
    hide LevelOrder, View, ReadsOk, OverlapInLevel, ValidFile, Applied;
    WithinHistory(s);
    forall l: nat, g | l < NUM_LEVELS && g in s.version.levels[l]
      ensures NewerThan(f, g) && g.number < f.number
    {
      forall a, b | a in f.table && b in g.table
        ensures a.key.seqno > b.key.seqno
      {
        InEntries(s.version, l, g, b);
        assert a in Elements(f.table);
      }
    }
    DistinctPart(s.history, Entries(s.version) + Elements(f.table));
  }

  lemma FlushKeepsInv(s: State, level: nat, f: File, t: State)
    requires Inv(s) && FlushStep(s, level, f, t)
    ensures Inv(t)
  {
    hide LevelOrder, View, Entries, OverlapInLevel, ValidFile, Applied, Elements, NumbersBelow, Distinct, AtMostSeq, SnapshotsOk, AllNewer, ReadsOk;
    FlushInstalls(s, level, f, t);
    FlushedNewer(s.mem, ImmEntries(s), Entries(s.version), Entries(t.version));
    assert Reachable(t) == Reachable(s);
    SameReads(s, t);
    SameSnapshots(s, t);
  }

  lemma FlushedNewer(mem: set<Entry>, imm: set<Entry>, tables: set<Entry>, after: set<Entry>)
    requires AllNewer(mem, imm) && AllNewer(mem + imm, tables) && after == tables + imm
    ensures AllNewer(mem, {}) && AllNewer(mem + {}, after)
  {
  }

  lemma SameReads(s: State, t: State)
    requires ReadsOk(s) && Reachable(t) == Reachable(s) && t.history == s.history && t.horizon == s.horizon && t.back == s.back
    ensures ReadsOk(t)
  {
    hide ReadsLike, Reachable;
  }

  lemma SameSnapshots(s: State, t: State)
    requires SnapshotsOk(s) && t.snapshots == s.snapshots && t.lastSequence == s.lastSequence && t.horizon == s.horizon
    ensures SnapshotsOk(t)
  {
  }

  lemma FlushInstalls(s: State, level: nat, f: File, t: State)
    requires Inv(s) && FlushStep(s, level, f, t)
    ensures LevelOrder(t.version) && Entries(t.version) == Entries(s.version) + ImmEntries(s)
    ensures NumbersBelow(t.version, t.nextFile)
  {
    hide LevelOrder, View, Entries, OverlapInLevel, ValidFile, Applied, FlushFits, Flushed, Elements, NumbersBelow, ReadsOk, Distinct, AllNewer;
    FlushStepFits(s, level, f, t);
    FlushEditFlushes(s.version, level, f, t.version);
    FlushKeepsOrder(s.version, level, f, t.version);
    FlushedNumbersBelow(s, level, f, t);
  }

  lemma FlushedNumbersBelow(s: State, level: nat, f: File, t: State)
    requires Inv(s) && FlushStep(s, level, f, t) && Flushed(s.version, level, f, t.version)
    ensures NumbersBelow(t.version, t.nextFile)
  {
    hide LevelOrder, ReadsOk, OverlapInLevel, ValidFile, Applied, Entries, BySmallestKey;
  }

  lemma MoveKeepsInv(s: State, level: nat, f: File, t: State)
    requires Inv(s) && MoveStep(s, level, f, t)
    ensures Inv(t)
  {
    hide LevelOrder, View, Entries, ShiftReady, Applied, NumbersBelow, CompactionEdit;
    MoveKeepsOrder(s.version, level, f, t.version);
    MovedNumbersBelow(s, level, f, t);
    assert Reachable(t) == Reachable(s);
  }

  lemma MovedNumbersBelow(s: State, level: nat, f: File, t: State)
    requires Inv(s) && MoveStep(s, level, f, t)
    ensures NumbersBelow(t.version, t.nextFile)
  {
    hide LevelOrder, ReadsOk, Applied, ShiftReady, Entries, UniqueNumbers, Distinct, BySmallestKey, SortedFiles;
    ReadyFacts(s.version, level, [f], []);
    MoveIsGood(s.version, level, f);
    EditShifts(s.version, level, [f], [], [f], t.version);
  }

  lemma CompactedNumbersBelow(s: State, j: Job, t: State)
    requires Inv(s) && CompactStep(s, j, t)
    ensures NumbersBelow(t.version, t.nextFile)
  {
    hide *;
    CompactNumbers(s, j, t);
    DoneFacts(j);
    ReadyFacts(j.before, j.level, j.inputs0, j.inputs1);
    OutputsAreNew(j);
    EditShifts(j.before, j.level, j.inputs0, j.inputs1, j.outputs, j.after);
    OutputNumbersBelow(j);
    ShiftedNumbersBelow(j, s.nextFile);
  }

  lemma CompactNumbers(s: State, j: Job, t: State)
    requires Inv(s) && CompactStep(s, j, t)
    ensures Done(j) && NumbersBelow(j.before, s.nextFile) && j.firstNumber == s.nextFile
    ensures t.version == j.after && t.nextFile == s.nextFile + |j.outputs|
  {
    hide LevelOrder, ReadsOk, Entries, Done, NumbersBelow;
  }

  lemma ShiftedNumbersBelow(j: Job, n: nat)
    requires Shifted(j.before, j.level, j.inputs0, j.inputs1, j.outputs, j.after) && NumbersBelow(j.before, n)
    requires forall f :: f in j.outputs ==> f.number < n + |j.outputs|
    ensures NumbersBelow(j.after, n + |j.outputs|)
  {
    hide BySmallestKey;
  }

  lemma OutputNumbersBelow(j: Job)
    requires CompactionWork.Outputs(j.outputs, j.firstNumber)
    ensures forall f :: f in j.outputs ==> f.number < j.firstNumber + |j.outputs|
  {
    forall f | f in j.outputs
      ensures f.number < j.firstNumber + |j.outputs|
    {
      var i :| 0 <= i < |j.outputs| && j.outputs[i] == f;
    }
  }

  // What a compaction keeps for one user key that it does not bring back.
  lemma CompactKeepsKey(s: State, j: Job, t: State, u: UserKey, sn: nat)
    requires Inv(s) && CompactStep(s, j, t) && Entries(t.version) <= Entries(s.version)
    requires !j.Resurfaces(u) && SmallestSnapshot(s) <= sn
    ensures View(Reachable(t), u, sn) == View(Reachable(s), u, sn)
  {
    hide LevelOrder, Done, View, Entries, InMemory, Distinct, AllNewer, CompactionReads.Resurfaces, Gone, ReadsLike;
    var a := InMemory(s);
    SameMemory(s, t);
    CompactionKeepsKey(j, u, sn);
    WithinHistory(s);
    DistinctPart(s.history, a + Entries(s.version));
    DistinctPart(s.history, a + Entries(t.version));
    AllNewerPart(a, Entries(s.version), Entries(t.version));
    SameOnTop(a, Entries(t.version), Entries(s.version), u, sn);
  }

  lemma WithinHistory(s: State)
    requires Inv(s)
    ensures Reachable(s) <= s.history && SnapshotsOk(s)
  {
    hide LevelOrder, View, Entries;
  }

  lemma CompactKeepsReads(s: State, j: Job, t: State)
    requires Inv(s) && CompactStep(s, j, t)
    requires Entries(t.version) <= Entries(s.version)
    ensures ReadsOk(t)
  {
    hide LevelOrder, View, Entries, InMemory, Distinct, AllNewer, CompactionReads.Resurfaces, Done, ReadsLike;
    SameMemory(s, t);
    WithinHistory(s);
    SnapshotIsLater(s);
    CompactFrame(s, j, t);
    forall e | e in Reachable(s) && e.key.seqno > SmallestSnapshot(s)
      ensures e in Reachable(t)
    {
      if e in Entries(s.version) {
        CompactionKeepsRecent(j, e);
      }
    }
    forall u, sn: nat | SmallestSnapshot(s) <= sn && u !in Gone(j)
      ensures View(Reachable(t), u, sn) == View(Reachable(s), u, sn)
    {
      CompactKeepsKey(s, j, t, u, sn);
    }
    ReadsLikeAfter(Reachable(s), Reachable(t), s.history, s.horizon, s.back, SmallestSnapshot(s), Gone(j));
  }

  lemma SnapshotIsLater(s: State)
    requires SnapshotsOk(s)
    ensures s.horizon <= SmallestSnapshot(s) < MAX_SEQUENCE
  {
  }

  lemma SameMemory(s: State, t: State)
    requires t.mem == s.mem && t.imm == s.imm
    ensures InMemory(t) == InMemory(s)
  {
  }

  lemma AllNewerPart(a: set<Entry>, b: set<Entry>, part: set<Entry>)
    requires AllNewer(a, b) && part <= b
    ensures AllNewer(a, part)
  {
  }

  lemma CompactKeepsInv(s: State, j: Job, t: State)
    requires Inv(s) && CompactStep(s, j, t)
    ensures Inv(t)
  {
    hide LevelOrder, Done, View, Entries, NumbersBelow, ReadsOk, CompactionReads.Resurfaces, Distinct, AtMostSeq, AllNewer, SnapshotsOk, InMemory;
    CompactionKeepsOrder(j);
    CompactKeepsReads(s, j, t);
    CompactedNumbersBelow(s, j, t);
    SameMemory(s, t);
    AllNewerPart(InMemory(s), Entries(s.version), Entries(t.version));
    RaisedHorizon(s, j, t);
    assert Reachable(t) <= Reachable(s);
  }

  lemma RaisedHorizon(s: State, j: Job, t: State)
    requires Inv(s) && CompactStep(s, j, t)
    ensures SnapshotsOk(t) && ImmEntries(t) == ImmEntries(s)
  {
    hide LevelOrder, Done, Entries, ReadsOk, Distinct, AtMostSeq, AllNewer, NumbersBelow;
  }

  lemma SnapshotKeepsInv(s: State, t: State)
    requires Inv(s) && SnapshotStep(s, t)
    ensures Inv(t)
  {
    hide LevelOrder, View, Entries;
    assert Reachable(t) == Reachable(s);
  }

  lemma ReleaseKeepsInv(s: State, i: nat, t: State)
    requires Inv(s) && ReleaseStep(s, i, t)
    ensures Inv(t)
  {
    hide LevelOrder, View, Entries;
    assert Reachable(t) == Reachable(s);
  }

  lemma NextKeepsInv(s: State, t: State)
    requires Inv(s) && Next(s, t)
    ensures Inv(t)
  {
    hide Inv, WriteStep, FlushStep, MoveStep, CompactStep, SwitchStep, FlushEmptyStep, SnapshotStep, ReleaseStep;
    if ops :| WriteStep(s, ops, t) {
      WriteKeepsInv(s, ops, t);
    } else if SwitchStep(s, t) {
      SwitchKeepsInv(s, t);
    } else if FlushEmptyStep(s, t) {
      FlushEmptyKeepsInv(s, t);
    } else if level, f :| FlushStep(s, level, f, t) {
      FlushKeepsInv(s, level, f, t);
    } else if level, f :| MoveStep(s, level, f, t) {
      MoveKeepsInv(s, level, f, t);
    } else if j :| CompactStep(s, j, t) {
      CompactKeepsInv(s, j, t);
    } else if SnapshotStep(s, t) {
      SnapshotKeepsInv(s, t);
    } else {
      var i :| ReleaseStep(s, i, t);
      ReleaseKeepsInv(s, i, t);
    }
  }

  /** Whole runs */

  lemma {:induction false} RunKeepsInv(ss: seq<State>, i: nat)
    requires Run(ss) && i < |ss|
    ensures Inv(ss[i])
  {
    if i == 0 {
      InitialInv(ss[0]);
    } else {
      RunKeepsInv(ss, i - 1);
      NextKeepsInv(ss[i - 1], ss[i]);
    }
  }

  // Sequence numbers at which a client may read in state s.
  predicate Readable(s: State, sn: nat) {
    sn == s.lastSequence || sn in s.snapshots
  }

  /** In every state of every run the levels are ordered, and a read at a live snapshot or of the
      latest state returns the newest value ever written at or below that sequence number, for every
      user key that no compaction has brought back, or that has been written since. */
  lemma ReadsAreCorrect(ss: seq<State>, i: nat, u: UserKey, sn: nat)
    requires Run(ss) && i < |ss| && Readable(ss[i], sn)
    ensures LevelOrder(ss[i].version)
    ensures Settled(ss[i].back, ss[i].history, u, sn) ==> View(Reachable(ss[i]), u, sn) == View(ss[i].history, u, sn)
  {
    RunKeepsInv(ss, i);
  }

  // What a step does to the past.
  ghost predicate Extends(s: State, t: State) {
    && s.history <= t.history && s.lastSequence <= t.lastSequence && Excuses(t.back, s.back)
    && forall e :: e in t.history && e !in s.history ==> e.key.seqno > s.lastSequence
  }

  lemma NextExtends(s: State, t: State)
    requires Inv(s) && Next(s, t)
    ensures Extends(s, t)
  {
    hide FlushStep, MoveStep, CompactStep, LevelOrder, ReadsOk, Distinct, Entries, AllNewer;
    if ops :| WriteStep(s, ops, t) {
    } else {
      assert t.history == s.history && t.lastSequence == s.lastSequence && Excuses(t.back, s.back) by {
        if level, f :| FlushStep(s, level, f, t) {
          FlushFrame(s, level, f, t);
        } else if level, f :| MoveStep(s, level, f, t) {
          MoveFrame(s, level, f, t);
        } else if j :| CompactStep(s, j, t) {
          CompactFrame(s, j, t);
          CompactExcuses(s, j, t);
        }
      }
    }
  }

  lemma FlushFrame(s: State, level: nat, f: File, t: State)
    requires FlushStep(s, level, f, t)
    ensures t.history == s.history && t.lastSequence == s.lastSequence && t.back == s.back
  {
  }

  lemma MoveFrame(s: State, level: nat, f: File, t: State)
    requires MoveStep(s, level, f, t)
    ensures t.history == s.history && t.lastSequence == s.lastSequence && t.back == s.back
  {
  }

  lemma CompactFrame(s: State, j: Job, t: State)
    requires CompactStep(s, j, t)
    ensures t.history == s.history && t.lastSequence == s.lastSequence
    ensures |j.before.levels| == NUM_LEVELS && t.back == Returned(s.back, Gone(j), SmallestSnapshot(s))
  {
    DoneFacts(j);
  }

  lemma CompactExcuses(s: State, j: Job, t: State)
    requires Inv(s) && CompactStep(s, j, t)
    ensures Excuses(t.back, s.back)
  {
    hide *;
    CompactFrame(s, j, t);
    BackFacts(s);
    ReturnedExcuses(s.back, Gone(j), SmallestSnapshot(s));
  }

  lemma BackFacts(s: State)
    requires Inv(s)
    ensures forall u :: u in s.back ==> s.back[u] <= SmallestSnapshot(s)
  {
    hide LevelOrder, View, Entries;
    SnapshotIsLater(s);
  }

  lemma {:induction false} HistoryGrows(ss: seq<State>, i: nat, k: nat)
    requires Run(ss) && i <= k < |ss|
    ensures Extends(ss[i], ss[k])
    decreases k
  {
    hide Inv, Next, Initial;
    if i < k {
      HistoryGrows(ss, i, k - 1);
      RunKeepsInv(ss, k - 1);
      NextExtends(ss[k - 1], ss[k]);
    }
  }

  // Exactly the keys that some compaction of the run has brought back are unsettled for good or until
  // they are written again.
  lemma {:induction false} BackMeaning(ss: seq<State>, i: nat, u: UserKey)
    requires Run(ss) && i < |ss|
    ensures u in ss[i].back <==> exists k: nat :: k < i && BringsBackAt(ss, k, u)
  {
    hide Next, Initial, BringsBack;
    if i == 0 {
      InitialBack(ss[0]);
    } else {
      BackMeaning(ss, i - 1, u);
      BackStep(ss[i - 1], ss[i], u);
      assert BringsBackAt(ss, i - 1, u) <==> BringsBack(ss[i - 1], ss[i], u);
      hide BringsBackAt, Run;
    }
  }

  ghost predicate BringsBack(s: State, t: State, u: UserKey) {
    exists j :: CompactStep(s, j, t) && |j.before.levels| == NUM_LEVELS && j.Resurfaces(u)
  }

  ghost predicate BringsBackAt(ss: seq<State>, k: nat, u: UserKey) {
    k + 1 < |ss| && BringsBack(ss[k], ss[k + 1], u)
  }

  lemma InitialBack(s: State)
    requires Initial(s)
    ensures s.back == imap[]
  {
  }

  lemma BackStep(s: State, t: State, u: UserKey)
    requires Next(s, t)
    ensures u in t.back <==> u in s.back || BringsBack(s, t, u)
  {
    hide FlushStep, MoveStep, CompactStep, CompactionReads.Resurfaces;
    forall j | CompactStep(s, j, t)
      ensures |j.before.levels| == NUM_LEVELS && (u in t.back <==> u in s.back || j.Resurfaces(u))
    {
      CompactFrame(s, j, t);
    }
    if j :| CompactStep(s, j, t) {
    } else if level, f :| FlushStep(s, level, f, t) {
      FlushFrame(s, level, f, t);
    } else if level, f :| MoveStep(s, level, f, t) {
      MoveFrame(s, level, f, t);
    }
  }

  /** The same in terms of the compactions of the run. */
  lemma UntouchedKeysReadRight(ss: seq<State>, i: nat, u: UserKey, sn: nat)
    requires Run(ss) && i < |ss| && Readable(ss[i], sn)
    requires forall k: nat :: k < i ==> !BringsBackAt(ss, k, u)
    ensures View(Reachable(ss[i]), u, sn) == View(ss[i].history, u, sn)
  {
    hide Run, View, BringsBackAt, Readable;
    BackMeaning(ss, i, u);
    ReadsAreCorrect(ss, i, u, sn);
  }

  /** A key reads right from the moment it is written again until a later compaction brings it back. */
  lemma WrittenSinceReadsRight(ss: seq<State>, k: nat, ops: seq<Op>, n: nat, i: nat, u: UserKey, sn: nat)
    requires Run(ss) && k + 1 <= i < |ss| && WriteStep(ss[k], ops, ss[k + 1]) && n < |ops| && ops[n].ukey == u
    requires forall j: nat :: k < j < i ==> !BringsBackAt(ss, j, u)
    requires Readable(ss[i], sn) && sn >= ss[k + 1].lastSequence
    ensures View(Reachable(ss[i]), u, sn) == View(ss[i].history, u, sn)
  {
    hide Run, View, BringsBackAt, Readable, WriteStep, Inv;
    RunKeepsInv(ss, k);
    HistoryGrows(ss, k + 1, i);
    WriteIsRecorded(ss[k], ops, ss[k + 1], n);
    BackBefore(ss, k, ops, i, u);
    ReadsAreCorrect(ss, i, u, sn);
  }

  lemma WriteIsRecorded(s: State, ops: seq<Op>, t: State, n: nat)
    requires Inv(s) && WriteStep(s, ops, t) && n < |ops|
    ensures exists e :: e in t.history && e.key.ukey == ops[n].ukey && s.lastSequence < e.key.seqno <= t.lastSequence
  {
    hide LevelOrder, Entries, Distinct, AllNewer, View;
    assert OpEntry(ops[n], s.lastSequence + 1 + n) in t.history;
  }

  lemma {:induction false} BackBefore(ss: seq<State>, k: nat, ops: seq<Op>, i: nat, u: UserKey)
    requires Run(ss) && k + 1 <= i < |ss| && WriteStep(ss[k], ops, ss[k + 1])
    requires forall j: nat :: k < j < i ==> !BringsBackAt(ss, j, u)
    ensures u in ss[i].back ==> ss[i].back[u] <= ss[k].lastSequence
    decreases i
  {
    hide Inv, Next, Initial, BringsBack;
    if i == k + 1 {
      RunKeepsInv(ss, k);
      WriteBack(ss[k], ops, ss[k + 1]);
    } else {
      BackBefore(ss, k, ops, i - 1, u);
      assert !BringsBackAt(ss, i - 1, u);
      BackStep(ss[i - 1], ss[i], u);
      BackStays(ss[i - 1], ss[i], u);
    }
  }

  lemma WriteBack(s: State, ops: seq<Op>, t: State)
    requires Inv(s) && WriteStep(s, ops, t)
    ensures t.back == s.back && forall u :: u in s.back ==> s.back[u] <= s.lastSequence
  {
    hide LevelOrder, Entries, Distinct, AllNewer, View, BatchEntries;
  }

  // Only a compaction that brings the key back changes its entry.
  lemma BackStays(s: State, t: State, u: UserKey)
    requires Next(s, t) && !BringsBack(s, t, u)
    ensures u in s.back && u in t.back ==> s.back[u] == t.back[u]
  {
    hide FlushStep, MoveStep, CompactStep, CompactionReads.Resurfaces, BatchEntries;
    if j :| CompactStep(s, j, t) {
      CompactFrame(s, j, t);
      BackOfCompaction(s, j, t, u);
    } else if level, f :| FlushStep(s, level, f, t) {
      FlushFrame(s, level, f, t);
    } else if level, f :| MoveStep(s, level, f, t) {
      MoveFrame(s, level, f, t);
    }
  }

  lemma BackOfCompaction(s: State, j: Job, t: State, u: UserKey)
    requires CompactStep(s, j, t) && |j.before.levels| == NUM_LEVELS && !j.Resurfaces(u)
    ensures u in s.back && u in t.back ==> s.back[u] == t.back[u]
  {
    hide Done, CompactionReads.Resurfaces;
  }

  /** A snapshot reads the same for as long as it is live, whatever is written, flushed or compacted,
      for every user key that no compaction has brought back. */
  lemma SnapshotsAreStable(ss: seq<State>, i: nat, k: nat, u: UserKey, sn: nat)
    requires Run(ss) && i <= k < |ss|
    requires Readable(ss[i], sn) && sn in ss[k].snapshots
    requires Settled(ss[k].back, ss[k].history, u, sn)
    ensures View(Reachable(ss[k]), u, sn) == View(Reachable(ss[i]), u, sn)
  {
    hide *;
    HistoryGrows(ss, i, k);
    RunKeepsInv(ss, i);
    RunKeepsInv(ss, k);
    ReadableBelow(ss[i], sn);
    ReadableIfLive(ss[k], sn);
    StayedSettled(ss[i], ss[k], u, sn);
    ReadsAreCorrect(ss, i, u, sn);
    ReadsAreCorrect(ss, k, u, sn);
    SameHistoryBelow(ss[i], ss[k], u, sn);
  }

  lemma ReadableBelow(s: State, sn: nat)
    requires Inv(s) && Readable(s, sn)
    ensures sn <= s.lastSequence
  {
    hide LevelOrder, ReadsOk, Entries;
  }

  lemma ReadableIfLive(s: State, sn: nat)
    requires sn in s.snapshots
    ensures Readable(s, sn)
  {
  }

  lemma SameHistoryBelow(s: State, t: State, u: UserKey, sn: nat)
    requires Extends(s, t) && sn <= s.lastSequence && Inv(t)
    ensures View(t.history, u, sn) == View(s.history, u, sn)
  {
    hide LevelOrder, ReadsOk, Entries, View;
    var added := t.history - s.history;
    assert t.history == added + s.history;
    assert NoHit(added, u, sn);
    CompactionReads.ViewSkips(added, s.history, u, sn);
  }

  lemma StayedSettled(s: State, t: State, u: UserKey, sn: nat)
    requires Extends(s, t) && sn <= s.lastSequence && Settled(t.back, t.history, u, sn)
    ensures Settled(s.back, s.history, u, sn)
  {
  }
}
