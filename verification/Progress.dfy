/** What can be taken to its end from every state in which it may begin: recovery after a crash at any
    moment, a flush, a compaction. Safety would also hold of a store that stands still. */
module Progress {
  import opened Keys
  import opened Wrappers
  import opened Durability
  import opened DurabilityProofs
  import opened Histories
  import Versions

  ghost predicate Path(ss: seq<State>, s: State, t: State) {
    && |ss| > 0 && ss[0] == s && ss[|ss| - 1] == t
    && forall i :: 0 <= i < |ss| - 1 ==> Next(ss[i], ss[i + 1])
  }

  // The process may stop in any state; what is on disk stays.
  lemma CrashAtAnyTime(s: State)
    ensures Next(s, s.(mode := Down))
  {
    assert Crash(s, s.(mode := Down));
    hide LogBatch, InsertBatch, Switch, StartFlush, WriteTable, StartFlushInstall, WriteManifest, FinishInstall, StartCompaction,
         OpenOutput, FinishOutput, StartCompactionInstall, StartMove, CleanUp, Collect, Pin, Unpin, BeginOpen, ReplayTable,
         CreateLog, FinishOpen, Crash;
  }

  /** Recovery */

  lemma {:induction false} UnusedNumber(used: set<nat>, low: nat) returns (n: nat)
    ensures n >= low && forall m :: m in used ==> m < n
    decreases used
  {
    n := low;
    if used != {} {
      var m :| m in used;
      n := UnusedNumber(used - {m}, if low > m then low else m + 1);
      assert forall k :: k in used ==> k == m || k in used - {m};
    }
  }

  lemma {:induction false} LargestNumber(es: set<Entry>, low: nat) returns (last: nat)
    ensures last >= low && AllAtMost(es, last) && (last == low || exists e :: e in es && e.key.seqno == last)
    decreases es
  {
    last := low;
    if es != {} {
      var e :| e in es;
      last := LargestNumber(es - {e}, if low > e.key.seqno then low else e.key.seqno);
      assert forall x :: x in es ==> x == e || x in es - {e};
    }
  }

  lemma OneTable(tables: map<nat, set<Entry>>, n: nat, es: set<Entry>)
    ensures TableEntries(tables[n := es], {n}) == es
  {
    var all := tables[n := es];
    forall e | e in es
      ensures e in TableEntries(all, {n})
    {
      assert n in all && e in all[n];
    }
  }

  // What the logs hold becomes one table.
  lemma ReplaysLogs(s: State) returns (ss: seq<State>, t: State)
    requires Inv(s) && s.mode.Down?
    ensures Path(ss, s, t)
    ensures var n, m := s.disk.manifest.nextFile + 1, s.disk.manifest;
      t == s.(disk := s.disk.(tables := s.disk.tables[n := LogEntries(s.disk.logs, m.logNumber)]), mode := Opening(n + 1, {n}, None))
  {
    hide Next, Inv, LogEntries;
    var replayed := LogEntries(s.disk.logs, s.disk.manifest.logNumber);
    var n := s.disk.manifest.nextFile + 1;
    var s1 := s.(mode := Opening(n, {}, None));
    t := s.(disk := s.disk.(tables := s.disk.tables[n := replayed]), mode := Opening(n + 1, {n}, None));
    assert {} + {n} == {n};
    assert ReplayTable(s1, replayed, t);
    CanBegin(s, s1);
    CanReplay(s1, replayed, t);
    ss := [s, s1, t];
  }

  // A new log and a new manifest.
  lemma OpensFor(s: State, n: nat) returns (ss: seq<State>, t: State)
    requires s.mode.Opening? && s.mode.newLog.None? && s.mode.newTables == {n}
    requires TableEntries(s.disk.tables, {n}) == LogEntries(s.disk.logs, s.disk.manifest.logNumber)
    ensures Path(ss, s, t) && t.mode.Up? && t.history == s.history
    ensures t.mode.live.current == t.disk.manifest.files == s.disk.manifest.files + {n}
    ensures t.mode.live.imm.None? && t.mode.live.mem == {}
  {
    hide Next, LogEntries, TableEntries;
    var log := UnusedNumber(s.disk.logs.Keys, s.mode.nextFile);
    var s1 := s.(disk := s.disk.(logs := s.disk.logs[log := {}]), mode := s.mode.(nextFile := log + 1, newLog := Some(log)));
    EmptyLogEntries(s.disk.logs, s.disk.manifest.logNumber, log);
    var last := LargestNumber(LogEntries(s.disk.logs, s.disk.manifest.logNumber), s.disk.manifest.lastSequence);
    var files := s.disk.manifest.files + {n};
    var m := Manifest(files, log, log + 1, last);
    t := s1.(disk := s1.disk.(manifest := m), mode := Up(Live({}, log, None, 0, {}, files, [], {}, None, None, None, log + 1, log, last)));
    assert CreateLog(s, log, s1) && FinishOpen(s1, last, t);
    CanCreate(s, log, s1);
    CanFinish(s1, last, t);
    ss := [s, s1, t];
  }

  // From whatever a crash leaves behind, recovery can go on to a running store with everything that was logged.
  lemma RecoveryCompletes(s: State) returns (ss: seq<State>, t: State)
    requires Inv(s) && s.mode.Down?
    ensures Path(ss, s, t) && t.mode.Up? && t.history == s.history
    ensures t.mode.live.current == t.disk.manifest.files && t.mode.live.imm.None? && t.mode.live.mem == {}
    ensures s.disk.manifest.files <= t.disk.manifest.files
  {
    hide Next, Inv, LogEntries, TableEntries;
    var middle;
    ss, middle := ReplaysLogs(s);
    OneTable(s.disk.tables, s.disk.manifest.nextFile + 1, LogEntries(s.disk.logs, s.disk.manifest.logNumber));
    var more;
    more, t := OpensFor(middle, s.disk.manifest.nextFile + 1);
    ss := ss + more[1..];
  }

  lemma CanBegin(s: State, t: State)
    requires Inv(s) && s.mode.Down? && t == s.(mode := Opening(s.disk.manifest.nextFile + 1, {}, None))
    ensures Next(s, t)
  {
    assert BeginOpen(s, t);
  }

  lemma CanReplay(s: State, es: set<Entry>, t: State)
    requires ReplayTable(s, es, t)
    ensures Next(s, t)
  {
    hide ReplayTable;
  }

  lemma CanCreate(s: State, n: nat, t: State)
    requires CreateLog(s, n, t)
    ensures Next(s, t)
  {
    hide CreateLog;
  }

  lemma CanFinish(s: State, last: nat, t: State)
    requires FinishOpen(s, last, t)
    ensures Next(s, t)
  {
    hide FinishOpen;
  }

  /** Flushes and compactions */

  // The immutable memtable can be written out, after which the logs before the memtable's are not needed.
  lemma FlushCompletes(s: State) returns (ss: seq<State>, t: State)
    requires s.mode.Up? && s.mode.live.imm.Some? && s.mode.live.build.None? && s.mode.live.install.None?
    ensures Path(ss, s, t) && t.mode.Up? && t.mode.live.imm.None? && t.mode.live.logNumber == t.mode.live.memLog == s.mode.live.memLog
    ensures t.disk.manifest.files == t.mode.live.current && t.disk.manifest.logNumber == t.mode.live.logNumber
    ensures t.mode.live.mem == s.mode.live.mem && t.disk.logs == s.disk.logs
    ensures t.mode.live.current == s.mode.live.current + (if s.mode.live.imm == Some({}) then {} else {s.mode.live.nextFile})
    ensures t.disk.tables == s.disk.tables[s.mode.live.nextFile := s.mode.live.imm.value]
  {
    hide Next;
    var l, n := s.mode.live, s.mode.live.nextFile;
    var l1 := l.(build := Some(Build(n, false)), pending := l.pending + {n}, nextFile := n + 1);
    var s1 := s.(mode := Up(l1));
    var s2 := s1.(disk := s.disk.(tables := s.disk.tables[n := l.imm.value]), mode := Up(l1.(build := Some(Build(n, true)))));
    var m := Manifest(l.current + (if l.imm.value == {} then {} else {n}), l.memLog, n + 1, l.lastSequence);
    var l3 := l1.(pending := l1.pending - {n}, build := None, install := Some(Install(m, s.horizon, s.back, true, false)));
    var s3 := s2.(mode := Up(l3));
    ss, t := Installs(s3);
    assert StartFlush(s, s1) && WriteTable(s1, s2) && StartFlushInstall(s2, s3);
    AreSteps(s, s1);
    AreSteps(s1, s2);
    AreSteps(s2, s3);
    ss := [s, s1, s2] + ss;
  }

  lemma AreSteps(s: State, t: State)
    requires || StartFlush(s, t) || WriteTable(s, t) || StartFlushInstall(s, t) || WriteManifest(s, t) || FinishInstall(s, t)
             || OpenOutput(s, t) || StartCompactionInstall(s, t) || CleanUp(s, t)
    ensures Next(s, t)
  {
    hide StartFlush, WriteTable, StartFlushInstall, WriteManifest, FinishInstall, OpenOutput, StartCompactionInstall, CleanUp;
  }

  // A prepared installation can be carried through.
  lemma Installs(s: State) returns (ss: seq<State>, t: State)
    requires s.mode.Up? && s.mode.live.install.Some? && !s.mode.live.install.value.written
    ensures Path(ss, s, t)
    ensures var l, i := s.mode.live, s.mode.live.install.value;
      t == s.(disk := s.disk.(manifest := i.manifest), horizon := i.horizon, back := i.back,
              mode := Up(l.(current := i.manifest.files, logNumber := i.manifest.logNumber, install := None,
                            imm := if i.flush then None else l.imm)))
  {
    hide Next;
    var l, i := s.mode.live, s.mode.live.install.value;
    var s1 := s.(disk := s.disk.(manifest := i.manifest), mode := Up(l.(install := Some(i.(written := true)))),
                 horizon := i.horizon, back := i.back);
    t := s1.(mode := Up(l.(current := i.manifest.files, logNumber := i.manifest.logNumber, install := None,
                           imm := if i.flush then None else l.imm)));
    assert WriteManifest(s, s1) && FinishInstall(s1, t);
    AreSteps(s, s1);
    AreSteps(s1, t);
    ss := [s, s1, t];
  }

  // A compaction that has started can be finished: its inputs give way to what the drop rules leave of them.
  lemma CompactionCompletes(s: State) returns (ss: seq<State>, t: State)
    requires s.mode.Up? && s.mode.live.job.Some? && s.mode.live.build.None? && s.mode.live.install.None?
    requires var j := s.mode.live.job.value;
      j.output.None? && j.outputs == {} && |j.version.levels| == Versions.NUM_LEVELS && j.inputs <= s.mode.live.current
    ensures Path(ss, s, t) && t.mode.Up? && t.mode.live.job.None?
    ensures var j, n := s.mode.live.job.value, s.mode.live.nextFile;
      && t.mode.live.current == t.disk.manifest.files == s.mode.live.current - j.inputs + {n}
      && t.disk.tables == s.disk.tables[n := j.Kept()]
    ensures t.mode.live.mem == s.mode.live.mem && t.mode.live.imm == s.mode.live.imm && t.disk.logs == s.disk.logs
  {
    hide Next, Job.Kept, TableEntries, Gone, Returned;
    var l, n, j := s.mode.live, s.mode.live.nextFile, s.mode.live.job.value;
    var kept := j.Kept();
    var l1 := l.(job := Some(j.(output := Some(n))), pending := l.pending + {n}, nextFile := n + 1);
    var s1 := s.(mode := Up(l1));
    var done := j.(outputs := {n});
    var l2 := l1.(job := Some(done));
    var s2 := s1.(disk := s.disk.(tables := s.disk.tables[n := kept]), mode := Up(l2));
    var m := Manifest(l.current - j.inputs + {n}, l.logNumber, n + 1, l.lastSequence);
    var h := if s.horizon < j.snapshot then j.snapshot else s.horizon;
    var s3 := s2.(mode := Up(l2.(install := Some(Install(m, h, Returned(s.back, Gone(s2.disk, l2, done), h), false, false)))));
    var middle, s4 := Installs(s3);
    t := s4.(mode := Up(s4.mode.live.(job := None, pending := s4.mode.live.pending - {n} - {})));
    assert {} + {n} == {n};
    OneTable(s.disk.tables, n, kept);
    SameKept(j, j.(output := Some(n)));
    SameKept(j, done);
    assert OpenOutput(s, s1) && FinishOutput(s1, kept, s2) && StartCompactionInstall(s2, s3);
    assert CleanUp(s4, t);
    AreSteps(s, s1);
    CanFinishOutput(s1, kept, s2);
    AreSteps(s2, s3);
    AreSteps(s4, t);
    ss := [s, s1, s2] + middle + [t];
  }

  lemma SameKept(j: Job, k: Job)
    requires |j.version.levels| == Versions.NUM_LEVELS && k == j.(output := k.output, outputs := k.outputs)
    ensures k.Kept() == j.Kept()
  {
  }

  lemma CanFinishOutput(s: State, es: set<Entry>, t: State)
    requires FinishOutput(s, es, t)
    ensures Next(s, t)
  {
    hide FinishOutput;
  }

  /** Writes and the switch to a new memtable */

  lemma CanWrite(s: State, es: set<Entry>, last: nat, t: State)
    requires LogBatch(s, es, t) || InsertBatch(s, last, t) || Switch(s, t)
    ensures Next(s, t)
  {
    hide LogBatch, InsertBatch, Switch;
  }

  // Entries with new numbers can be logged and inserted whenever no other group is in flight.
  lemma WriteCompletes(s: State, es: set<Entry>) returns (ss: seq<State>, t: State)
    requires Inv(s) && s.mode.Up? && s.mode.live.inflight == {} && AllAbove(es, s.mode.live.lastSequence) && Distinct(es)
    ensures Path(ss, s, t) && t.mode.Up? && t.mode.live.inflight == {} && t.mode.live.mem == s.mode.live.mem + es
    ensures t.mode.live.memLog == s.mode.live.memLog && t.mode.live.memLog in t.disk.logs && es <= t.disk.logs[t.mode.live.memLog]
    ensures t.history == s.history + es && AllAtMost(es, t.mode.live.lastSequence)
  {
    hide Next;
    assert s.mode.live.memLog in s.disk.logs by { assert UpInv(s, s.mode.live); }
    hide Inv;
    var l, logs := s.mode.live, s.disk.logs;
    var last := LargestNumber(es, l.lastSequence);
    var s1 := s.(disk := s.disk.(logs := logs[l.memLog := logs[l.memLog] + es]), mode := Up(l.(inflight := es)), history := s.history + es);
    t := s1.(mode := Up(l.(mem := l.mem + es, inflight := {}, lastSequence := last)));
    assert LogBatch(s, es, s1) && InsertBatch(s1, last, t);
    CanWrite(s, es, last, s1);
    CanWrite(s1, es, last, t);
    ss := [s, s1, t];
  }

  // The memtable can be switched when the last one has been flushed and no group is in flight.
  lemma SwitchIsPossible(s: State) returns (t: State)
    requires s.mode.Up? && s.mode.live.imm.None? && s.mode.live.inflight == {}
    ensures Next(s, t) && t.mode.Up? && t.mode.live.imm == Some(s.mode.live.mem) && t.mode.live.mem == {}
    ensures t.mode.live.memLog == s.mode.live.nextFile && t.mode.live.immLog == s.mode.live.memLog
    ensures t.disk.logs == s.disk.logs[s.mode.live.nextFile := {}] && t.disk.tables == s.disk.tables
  {
    hide Next;
    var l, n := s.mode.live, s.mode.live.nextFile;
    t := s.(disk := s.disk.(logs := s.disk.logs[n := {}]),
            mode := Up(l.(imm := Some(l.mem), immLog := l.memLog, mem := {}, memLog := n, nextFile := n + 1)));
    assert Switch(s, t);
    CanWrite(s, {}, 0, t);
  }

  /** Beginning compactions, and readers */

  // Any files of two neighbouring levels of the current version may be compacted, with any snapshot so far,
  // while nothing else is going on in the background.
  lemma CompactionBegins(s: State, j: Job) returns (t: State)
    requires s.mode.Up? && s.mode.live.job.None? && s.mode.live.build.None? && s.mode.live.install.None?
    requires j.base == s.mode.live.current && Describes(j.version, s.disk.tables, j.base) && j.level + 1 < 7
    requires j.inputs <= j.base && Sorted(j.merged) && Elements(j.merged) == TableEntries(s.disk.tables, j.inputs)
    requires forall n :: n in j.inputs ==> exists f :: f in j.version.levels[j.level] + j.version.levels[j.level + 1] && f.number == n
    requires j.snapshot <= s.mode.live.lastSequence && j.snapshot < MAX_SEQUENCE && j.output.None? && j.outputs == {}
    ensures Next(s, t) && t == s.(mode := Up(s.mode.live.(job := Some(j))))
  {
    hide Next;
    t := s.(mode := Up(s.mode.live.(job := Some(j))));
    assert StartCompaction(s, j, t);
    CanStart(s, j, t);
  }

  lemma CanStart(s: State, j: Job, t: State)
    requires StartCompaction(s, j, t)
    ensures Next(s, t)
  {
    hide StartCompaction;
  }

  // A reader can hold on to the current version and let go of it again at any time, and leaves no trace.
  lemma ReadersComeAndGo(s: State) returns (held: State)
    requires s.mode.Up?
    ensures Path([s, held, s], s, s) && held.mode.Up? && s.mode.live.current <= Listed(held.mode.live)
  {
    hide Next;
    var p := s.mode.live.pinned;
    held := s.(mode := Up(s.mode.live.(pinned := p + [s.mode.live.current])));
    assert (p + [s.mode.live.current])[..|p|] + (p + [s.mode.live.current])[|p| + 1..] == p;
    assert Pin(s, held) && Unpin(held, |p|, s);
    CanPin(s, held, 0);
    CanPin(held, s, |p|);
  }

  lemma CanPin(s: State, t: State, i: nat)
    requires Pin(s, t) || Unpin(s, i, t)
    ensures Next(s, t)
  {
    hide Pin, Unpin;
  }
}
