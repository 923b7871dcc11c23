/** No acknowledged data is lost: what every step of the store and its files keeps. */
module DurabilityProofs {
  import opened Keys
  import opened Wrappers
  import opened Durability
  import opened Histories
  import Versions
  import CompactionWork
  import CompactionReads

  /** The invariant */

  // A recovery from manifest m would find its tables and read like the history from h on, apart from
  // keys that have come back.
  ghost predicate Faithful(d: Disk, m: Manifest, history: set<Entry>, h: nat, back: Returns) {
    && m.files <= d.tables.Keys && (forall n :: n in m.files ==> n < m.nextFile)
    && h <= m.lastSequence && ReadsLike(Content(d, m), history, h, back)
    // sequence numbers above the recorded one are found in the logs
    && (forall e :: e in history ==> e.key.seqno <= m.lastSequence || e in LogEntries(d.logs, m.logNumber))
  }

  function LiveManifest(l: Live): Manifest {
    Manifest(l.current, l.logNumber, l.nextFile, l.lastSequence)
  }

  ghost predicate LogsInv(d: Disk, l: Live) {
    && l.memLog in d.logs && d.logs[l.memLog] == l.mem + l.inflight
    && l.logNumber <= l.memLog < l.nextFile
    && (l.imm.Some? ==> l.immLog in d.logs && d.logs[l.immLog] == l.imm.value && l.logNumber <= l.immLog < l.memLog)
    && (forall n :: n in d.logs && n >= l.logNumber ==> n == l.memLog || (l.imm.Some? && n == l.immLog))
  }

  // A number that has been handed out, but whose file no version knows yet.
  ghost predicate Unlisted(d: Disk, l: Live, n: nat) {
    && n in l.pending && n !in Listed(l) && n !in JobOutputs(l.job) && n !in d.manifest.files
    && (l.install.Some? ==> n !in l.install.value.manifest.files)
  }

  ghost predicate FilesInv(d: Disk, l: Live) {
    && Listed(l) <= d.tables.Keys
    && (forall n :: n in l.pending ==> n < l.nextFile)
    && (forall n :: n in Listed(l) ==> n < l.nextFile)
    && JobOutputs(l.job) <= l.pending && JobOutputs(l.job) <= d.tables.Keys
    && (l.job.Some? ==> l.job.value.inputs <= l.job.value.base && l.job.value.snapshot <= l.lastSequence)
    && (l.job.Some? && l.job.value.output.Some? ==> Unlisted(d, l, l.job.value.output.value))
    && (l.build.Some? ==> Unlisted(d, l, l.build.value.number))
    && (l.build.Some? && l.job.Some? ==> l.job.value.output != Some(l.build.value.number))
    && (l.build.Some? ==> l.imm.Some? && l.install.None?)
    && (l.build.Some? && l.build.value.written ==>
          l.build.value.number in d.tables && d.tables[l.build.value.number] == l.imm.value)
  }

  ghost predicate InstallInv(s: State, l: Live) {
    && s.disk.manifest.nextFile <= l.nextFile && s.disk.manifest.lastSequence <= l.lastSequence
    && match l.install
       case None => s.disk.manifest.files == l.current && s.disk.manifest.logNumber == l.logNumber
       case Some(i) =>
         && (if i.written then s.disk.manifest == i.manifest && s.horizon == i.horizon && s.back == i.back
             else s.disk.manifest.files == l.current && s.disk.manifest.logNumber == l.logNumber)
         && i.manifest.nextFile <= l.nextFile && i.manifest.lastSequence <= l.lastSequence
         && i.manifest.lastSequence >= s.disk.manifest.lastSequence && s.horizon <= i.horizon && Excuses(i.back, s.back)
         && i.manifest.logNumber == (if i.flush then l.memLog else l.logNumber)
         && (i.flush ==> l.imm.Some?)
         && Faithful(s.disk, i.manifest, s.history, i.horizon, i.back)
  }

  // A compaction reads and writes only what was logged.
  ghost predicate JobInv(d: Disk, job: Option<Job>, history: set<Entry>) {
    && TableEntries(d.tables, JobBase(job) + JobOutputs(job)) <= history
    && (job.Some? ==>
          var j := job.value;
          && |j.version.levels| == Versions.NUM_LEVELS && j.snapshot < MAX_SEQUENCE
          && Sorted(j.merged) && Elements(j.merged) == TableEntries(d.tables, j.inputs))
  }

  ghost predicate UpInv(s: State, l: Live) {
    && JobInv(s.disk, l.job, s.history)
    && LogsInv(s.disk, l) && FilesInv(s.disk, l) && InstallInv(s, l)
    && Faithful(s.disk, LiveManifest(l), s.history, s.horizon, s.back)
    && (forall e :: e in s.history ==> e.key.seqno <= l.lastSequence || e in l.inflight)
    && AllAbove(l.inflight, l.lastSequence)
  }

  ghost predicate OpeningInv(s: State) {
    var d, m := s.disk, s.disk.manifest;
    s.mode.Opening? ==>
      && m.nextFile < s.mode.nextFile
      && s.mode.newTables <= d.tables.Keys
      && (forall n :: n in s.mode.newTables ==> m.nextFile < n < s.mode.nextFile)
      && TableEntries(d.tables, s.mode.newTables) <= LogEntries(d.logs, m.logNumber)
      && match s.mode.newLog
         case None => true
         case Some(n) =>
           && n in d.logs && d.logs[n] == {} && n < s.mode.nextFile && (forall k :: k in d.logs ==> k <= n)
           && TableEntries(d.tables, s.mode.newTables) == LogEntries(d.logs, m.logNumber)
  }

  ghost predicate Inv(s: State) {
    && Distinct(s.history) && Faithful(s.disk, s.disk.manifest, s.history, s.horizon, s.back)
    && OpeningInv(s)
    && (s.mode.Up? ==> UpInv(s, s.mode.live))
  }

  /** Frames */

  // The files of m and the logs it replays are the same on both disks.
  ghost predicate SameFor(d: Disk, e: Disk, m: Manifest) {
    && (forall n :: n in m.files && n in d.tables ==> n in e.tables && e.tables[n] == d.tables[n])
    && (forall n :: n >= m.logNumber ==> (n in d.logs <==> n in e.logs) && (n in d.logs ==> d.logs[n] == e.logs[n]))
  }

  lemma FaithfulFrame(d: Disk, e: Disk, m: Manifest, history: set<Entry>, h: nat, back: Returns)
    requires Faithful(d, m, history, h, back) && SameFor(d, e, m)
    ensures Faithful(e, m, history, h, back)
  {
    hide View;
    TablesFrame(d.tables, e.tables, m.files);
    assert LogEntries(d.logs, m.logNumber) == LogEntries(e.logs, m.logNumber);
  }

  lemma TablesFrame(t: map<nat, set<Entry>>, u: map<nat, set<Entry>>, files: set<nat>)
    requires files <= t.Keys && forall n :: n in files ==> n in u && u[n] == t[n]
    ensures TableEntries(t, files) == TableEntries(u, files)
  {
  }

  // Reading with a later last sequence number, a larger next file number or a later horizon.
  lemma FaithfulLater(d: Disk, m: Manifest, k: Manifest, history: set<Entry>, h: nat, back: Returns, g: nat, back2: Returns)
    requires Faithful(d, m, history, h, back) && Excuses(back2, back) && (forall u :: u in back2 ==> back2[u] <= g)
    requires k.files == m.files && k.logNumber == m.logNumber && k.nextFile >= m.nextFile && k.lastSequence >= m.lastSequence
    requires h <= g <= k.lastSequence
    ensures Faithful(d, k, history, g, back2)
  {
    hide ReadsLike;
    ReadsLikeLater(Content(d, m), history, h, back, g, back2);
    assert Content(d, k) == Content(d, m);
  }

  // Another manifest with the same content.
  lemma FaithfulMoved(d: Disk, m: Manifest, e: Disk, k: Manifest, history: set<Entry>, h: nat, back: Returns)
    requires Faithful(d, m, history, h, back) && Content(d, m) == Content(e, k)
    requires k.files <= e.tables.Keys && (forall n :: n in k.files ==> n < k.nextFile) && h <= k.lastSequence
    requires forall x :: x in history ==> x.key.seqno <= k.lastSequence || x in LogEntries(e.logs, k.logNumber)
    ensures Faithful(e, k, history, h, back)
  {
    hide ReadsLike, Content;
  }

  lemma LogGrows(logs: map<nat, set<Entry>>, min: nat, log: nat, es: set<Entry>)
    requires log in logs && min <= log
    ensures LogEntries(logs[log := logs[log] + es], min) == LogEntries(logs, min) + es
  {
    var grown := logs[log := logs[log] + es];
    forall x | x in LogEntries(logs, min) + es
      ensures x in LogEntries(grown, min)
    {
      if x in es {
        assert x in grown[log];
      } else {
        var n :| n in logs && n >= min && x in logs[n];
        assert x in grown[n];
      }
    }
  }

  // New entries go to a log that the manifest replays.
  lemma FaithfulGrows(d: Disk, m: Manifest, history: set<Entry>, h: nat, back: Returns, log: nat, es: set<Entry>, last: nat)
    requires Faithful(d, m, history, h, back) && log in d.logs && m.logNumber <= log
    requires Distinct(history) && AllAtMost(history, last) && AllAbove(es, last) && Distinct(es)
    ensures Faithful(d.(logs := d.logs[log := d.logs[log] + es]), m, history + es, h, back)
  {
    var e := d.(logs := d.logs[log := d.logs[log] + es]);
    LogGrows(d.logs, m.logNumber, log, es);
    hide View, TableEntries, LogEntries;
    var c := Content(d, m);
    assert Content(e, m) == es + c && history + es == es + history;
    assert Distinct(es + history);
    ReadsLikeOnTop(es, c, history, h, back);
  }

  // Steps that touch neither tables, versions nor the background thread.
  lemma FilesFrame(d: Disk, l: Live, e: Disk, k: Live)
    requires FilesInv(d, l) && e.tables == d.tables && e.manifest.files == d.manifest.files
    requires k.current == l.current && k.pinned == l.pinned && k.pending == l.pending
    requires k.build == l.build && k.job == l.job && k.install == l.install
    requires (l.imm == k.imm || l.imm.None?) && l.nextFile <= k.nextFile && l.lastSequence <= k.lastSequence
    ensures FilesInv(e, k)
  {
  }

  /** What each step keeps */

  lemma LogBatchKeepsInv(s: State, es: set<Entry>, t: State)
    requires Inv(s) && LogBatch(s, es, t)
    ensures Inv(t)
  {
    hide Faithful, View, FilesInv;
    var l := s.mode.live;
    FilesFrame(s.disk, l, t.disk, t.mode.live);
    FaithfulGrows(s.disk, s.disk.manifest, s.history, s.horizon, s.back, l.memLog, es, l.lastSequence);
    FaithfulGrows(s.disk, LiveManifest(l), s.history, s.horizon, s.back, l.memLog, es, l.lastSequence);
    if l.install.Some? {
      FaithfulGrows(s.disk, l.install.value.manifest, s.history, l.install.value.horizon, l.install.value.back, l.memLog, es, l.lastSequence);
    }
  }

  lemma InsertBatchKeepsInv(s: State, last: nat, t: State)
    requires Inv(s) && InsertBatch(s, last, t)
    ensures Inv(t)
  {
    hide View, FilesInv;
    var l := s.mode.live;
    FilesFrame(s.disk, l, t.disk, t.mode.live);
    assert s.horizon <= LiveManifest(l).lastSequence;
    hide Faithful;
    FaithfulLater(s.disk, LiveManifest(l), LiveManifest(t.mode.live), s.history, s.horizon, s.back, s.horizon, s.back);
  }

  lemma SwitchKeepsInv(s: State, t: State)
    requires Inv(s) && Switch(s, t)
    ensures Inv(t)
  {
    hide View, FilesInv;
    var l := s.mode.live;
    FilesFrame(s.disk, l, t.disk, t.mode.live);
    EmptyLog(s.disk, s.disk.manifest, s.history, s.horizon, s.back, l.nextFile);
    EmptyLog(s.disk, LiveManifest(l), s.history, s.horizon, s.back, l.nextFile);
    if l.install.Some? {
      EmptyLog(s.disk, l.install.value.manifest, s.history, l.install.value.horizon, l.install.value.back, l.nextFile);
    }
    assert s.horizon <= LiveManifest(l).lastSequence;
    hide Faithful;
    FaithfulLater(t.disk, LiveManifest(l), LiveManifest(t.mode.live), s.history, s.horizon, s.back, s.horizon, s.back);
  }

  // A new, empty log adds nothing.
  lemma EmptyLog(d: Disk, m: Manifest, history: set<Entry>, h: nat, back: Returns, n: nat)
    requires Faithful(d, m, history, h, back) && n !in d.logs
    ensures Faithful(d.(logs := d.logs[n := {}]), m, history, h, back)
  {
    hide View;
    EmptyLogEntries(d.logs, m.logNumber, n);
  }

  lemma EmptyLogEntries(logs: map<nat, set<Entry>>, min: nat, n: nat)
    requires n !in logs
    ensures LogEntries(logs[n := {}], min) == LogEntries(logs, min)
  {
    var grown := logs[n := {}];
    forall x | x in LogEntries(logs, min)
      ensures x in LogEntries(grown, min)
    {
      var k :| k in logs && k >= min && x in logs[k];
      assert x in grown[k];
    }
  }

  lemma StartFlushKeepsInv(s: State, t: State)
    requires Inv(s) && StartFlush(s, t)
    ensures Inv(t)
  {
  }

  lemma WriteTableKeepsInv(s: State, t: State)
    requires Inv(s) && WriteTable(s, t)
    ensures Inv(t)
  {
    hide View, Faithful;
    var l := s.mode.live;
    assert Listed(t.mode.live) == Listed(l);
    TablesFrame(s.disk.tables, t.disk.tables, JobBase(l.job) + JobOutputs(l.job));
    FaithfulFrame(s.disk, t.disk, s.disk.manifest, s.history, s.horizon, s.back);
    FaithfulFrame(s.disk, t.disk, LiveManifest(l), s.history, s.horizon, s.back);
    var k := t.mode.live;
    assert k.build.value.number in Listed(k) <==> k.build.value.number in Listed(l);
    assert Unlisted(t.disk, k, k.build.value.number);
    assert k.job.Some? && k.job.value.output.Some? ==> Unlisted(t.disk, k, k.job.value.output.value);
  }

  // The manifest that a flush installs has the same content: the memtable's log is replaced by its table.
  lemma FlushedContent(d: Disk, l: Live, files: set<nat>, n: nat)
    requires LogsInv(d, l) && l.imm.Some? && n in d.tables && d.tables[n] == l.imm.value && n !in l.current
    requires files == l.current + if l.imm.value == {} then {} else {n}
    ensures TableEntries(d.tables, files) == TableEntries(d.tables, l.current) + l.imm.value
    ensures LogEntries(d.logs, l.logNumber) == l.imm.value + LogEntries(d.logs, l.memLog)
    ensures LogEntries(d.logs, l.memLog) == l.mem + l.inflight
  {
  }

  lemma StartFlushInstallKeepsInv(s: State, t: State)
    requires Inv(s) && StartFlushInstall(s, t)
    ensures Inv(t)
  {
    var l, k := s.mode.live, t.mode.live;
    var n := l.build.value.number;
    var m := k.install.value.manifest;
    hide View, FilesInv, TableEntries, LogEntries, JobInv, ReadsLike, OpeningInv;
    BuiltFacts(s.disk, l);
    FlushInstallFiles(s.disk, l, k);
    FlushedContent(s.disk, l, m.files, n);
    assert Content(s.disk, LiveManifest(l)) == Content(s.disk, m);
    hide Content;
    FaithfulMoved(s.disk, LiveManifest(l), s.disk, m, s.history, s.horizon, s.back);
    hide Faithful, LogsInv;
    assert LogsInv(t.disk, k) by { SameLogs(s.disk, l, k); }
  }

  lemma SameLogs(d: Disk, l: Live, k: Live)
    requires LogsInv(d, l) && k.mem == l.mem && k.inflight == l.inflight && k.imm == l.imm && k.immLog == l.immLog
    requires k.memLog == l.memLog && k.logNumber == l.logNumber && k.nextFile == l.nextFile
    ensures LogsInv(d, k)
  {
  }

  lemma BuiltFacts(d: Disk, l: Live)
    requires FilesInv(d, l) && l.build.Some? && l.build.value.written
    ensures l.imm.Some? && l.install.None?
    ensures var n := l.build.value.number; n in d.tables && d.tables[n] == l.imm.value && n !in l.current && n < l.nextFile
  {
  }

  lemma FlushInstallFiles(d: Disk, l: Live, k: Live)
    requires FilesInv(d, l) && l.build.Some? && l.install.None? && k.install.Some? && l.imm.Some?
    requires k == l.(pending := l.pending - {l.build.value.number}, build := None, install := k.install)
    requires k.install.value.manifest.files == l.current + if l.imm.value == {} then {} else {l.build.value.number}
    ensures FilesInv(d, k)
  {
    assert Listed(k) == Listed(l);
    assert k.job.Some? && k.job.value.output.Some? ==> Unlisted(d, k, k.job.value.output.value);
  }

  lemma WriteManifestKeepsInv(s: State, t: State)
    requires Inv(s) && WriteManifest(s, t)
    ensures Inv(t)
  {
    var l, k := s.mode.live, t.mode.live;
    var m := l.install.value.manifest;
    assert s.disk.tables == t.disk.tables && s.disk.logs == t.disk.logs;
    assert Content(t.disk, m) == Content(s.disk, m) && Content(t.disk, LiveManifest(l)) == Content(s.disk, LiveManifest(l));
    hide View, TableEntries, LogEntries, Content;
    FaithfulMoved(s.disk, m, t.disk, m, s.history, t.horizon, t.back);
    FaithfulLater(s.disk, LiveManifest(l), LiveManifest(l), s.history, s.horizon, s.back, t.horizon, t.back);
    FaithfulMoved(s.disk, LiveManifest(l), t.disk, LiveManifest(k), s.history, t.horizon, t.back);
    hide Faithful;
    assert Listed(k) == Listed(l);
    assert k.job.Some? && k.job.value.output.Some? ==> Unlisted(t.disk, k, k.job.value.output.value);
  }

  lemma FinishInstallKeepsInv(s: State, t: State)
    requires Inv(s) && FinishInstall(s, t)
    ensures Inv(t)
  {
    var l, k := s.mode.live, t.mode.live;
    var m := l.install.value.manifest;
    assert m.files <= s.disk.tables.Keys && s.horizon <= m.lastSequence && forall n :: n in m.files ==> n < m.nextFile;
    hide View, TableEntries, LogEntries, Content, Faithful;
    FaithfulLater(s.disk, m, LiveManifest(k), s.history, s.horizon, s.back, s.horizon, s.back);
    assert k.job.Some? && k.job.value.output.Some? ==> Unlisted(t.disk, k, k.job.value.output.value);
  }

  lemma StartCompactionKeepsInv(s: State, j: Job, t: State)
    requires Inv(s) && StartCompaction(s, j, t)
    ensures Inv(t)
  {
    var l := s.mode.live;
    assert TableEntries(s.disk.tables, l.current) <= Content(s.disk, LiveManifest(l)) <= s.history;
    assert l.current + {} == l.current;
    hide View, Faithful;
    assert Listed(t.mode.live) == Listed(l);
    assert LiveManifest(t.mode.live) == LiveManifest(s.mode.live);
  }

  lemma OpenOutputKeepsInv(s: State, t: State)
    requires Inv(s) && OpenOutput(s, t)
    ensures Inv(t)
  {
    hide View;
    var l, k := s.mode.live, t.mode.live;
    assert Listed(k) == Listed(l);
    assert s.horizon <= LiveManifest(l).lastSequence;
    FaithfulLater(s.disk, LiveManifest(l), LiveManifest(k), s.history, s.horizon, s.back, s.horizon, s.back);
    hide Faithful;
    assert Unlisted(t.disk, k, l.nextFile);
  }

  lemma OutputContent(d: Disk, j: Job, es: set<Entry>, e: Disk, k: Job)
    requires j.output.Some? && j.output.value !in j.base + j.outputs && j.base + j.outputs <= d.tables.Keys
    requires |j.version.levels| == Versions.NUM_LEVELS && es <= j.Kept()
    requires Elements(j.merged) == TableEntries(d.tables, j.inputs) && j.inputs <= j.base
    requires e.tables == d.tables[j.output.value := es] && k == j.(output := None, outputs := j.outputs + {j.output.value})
    ensures TableEntries(e.tables, k.base + k.outputs) <= TableEntries(d.tables, j.base + j.outputs)
    ensures TableEntries(e.tables, k.inputs) == TableEntries(d.tables, j.inputs)
  {
    CompactionWork.KeptElements(j.version, j.level, j.merged, j.snapshot, |j.merged|);
    assert es <= Elements(j.merged);
    TablesFrame(d.tables, e.tables, j.inputs);
  }

  lemma FinishOutputKeepsInv(s: State, es: set<Entry>, t: State)
    requires Inv(s) && FinishOutput(s, es, t)
    ensures Inv(t)
  {
    hide View, Faithful;
    var l, k := s.mode.live, t.mode.live;
    assert Listed(k) == Listed(l);
    assert LiveManifest(k) == LiveManifest(l);
    OutputContent(s.disk, l.job.value, es, t.disk, k.job.value);
    FaithfulFrame(s.disk, t.disk, s.disk.manifest, s.history, s.horizon, s.back);
    FaithfulFrame(s.disk, t.disk, LiveManifest(l), s.history, s.horizon, s.back);
  }

  lemma StartCompactionInstallKeepsInv(s: State, t: State)
    requires Inv(s) && StartCompactionInstall(s, t)
    ensures Inv(t)
  {
    hide View;
    var l, k := s.mode.live, t.mode.live;
    var m := k.install.value.manifest;
    assert LiveManifest(k) == LiveManifest(l);
    assert Listed(k) == Listed(l);
    CompactedIsFaithful(s, l, m, k.install.value.horizon);
    hide Faithful, View, Content, Gone, Resurfaces;
  }

  lemma CompactedIsFaithful(s: State, l: Live, m: Manifest, h: nat)
    requires Inv(s) && s.mode == Up(l) && l.job.Some? && l.install.None? && l.build.None?
    requires m == Manifest(l.current - l.job.value.inputs + l.job.value.outputs, l.logNumber, l.nextFile, l.lastSequence)
    requires h == if s.horizon < l.job.value.snapshot then l.job.value.snapshot else s.horizon
    requires l.job.value.inputs <= l.current && |l.job.value.version.levels| == Versions.NUM_LEVELS
    requires TableEntries(s.disk.tables, l.job.value.outputs) == l.job.value.Kept()
    ensures var back := Returned(s.back, Gone(s.disk, l, l.job.value), h);
      Faithful(s.disk, m, s.history, h, back) && Excuses(back, s.back)
  {
    CompactedReadsLike(s, l, m, h);
    CompactedFiles(s, l, m, h);
    hide Resurfaces, View, ReadsLike, Content, Inv, TableEntries, LogEntries, Gone;
  }

  lemma CompactedFiles(s: State, l: Live, m: Manifest, h: nat)
    requires Inv(s) && s.mode == Up(l) && l.job.Some? && l.install.None? && l.build.None?
    requires m == Manifest(l.current - l.job.value.inputs + l.job.value.outputs, l.logNumber, l.nextFile, l.lastSequence)
    requires h == if s.horizon < l.job.value.snapshot then l.job.value.snapshot else s.horizon
    ensures m.files <= s.disk.tables.Keys && (forall n :: n in m.files ==> n < m.nextFile) && h <= m.lastSequence
    ensures forall e :: e in s.history ==> e.key.seqno <= m.lastSequence || e in LogEntries(s.disk.logs, m.logNumber)
  {
    hide ReadsLike, Content, JobInv;
  }

  // What an installation leaves, whatever it brings back.
  lemma CompactedReadsLike(s: State, l: Live, m: Manifest, h: nat)
    requires Inv(s) && s.mode == Up(l) && l.job.Some? && l.install.None?
    requires m == Manifest(l.current - l.job.value.inputs + l.job.value.outputs, l.logNumber, l.nextFile, l.lastSequence)
    requires h == if s.horizon < l.job.value.snapshot then l.job.value.snapshot else s.horizon
    requires l.job.value.inputs <= l.current && |l.job.value.version.levels| == Versions.NUM_LEVELS
    requires TableEntries(s.disk.tables, l.job.value.outputs) == l.job.value.Kept()
    ensures var back := Returned(s.back, Gone(s.disk, l, l.job.value), h);
      ReadsLike(Content(s.disk, m), s.history, h, back) && Excuses(back, s.back)
  {
    var j := l.job.value;
    hide Inv, View, Content, TableEntries, LogEntries, Others, CompactionReads.Resurfaces, CompactionWork.Kept, ReadsLike, Returned;
    JobFacts(s, l);
    ContentWithout(s.disk, l, j, m);
    KeptFacts(j);
    var rest := Others(s.disk, l, j);
    forall e | e in Elements(j.merged) + rest && e.key.seqno > h
      ensures e in Content(s.disk, m)
    {
      if e in Elements(j.merged) {
        CompactionReads.RecentAreKept(j.version, j.level, j.merged, j.snapshot, e);
        assert e in j.Kept();
      }
    }
    forall u, sn: nat | h <= sn && u !in Gone(s.disk, l, j)
      ensures View(Content(s.disk, m), u, sn) == View(Recovered(s.disk), u, sn)
    {
      CompactionReads.ReadKept(j.version, j.level, j.merged, rest, j.snapshot, u, sn);
    }
    ReadsLikeAfter(Recovered(s.disk), Content(s.disk, m), s.history, s.horizon, s.back, h, Gone(s.disk, l, j));
  }

  lemma KeptFacts(j: Job)
    requires |j.version.levels| == Versions.NUM_LEVELS
    ensures j.Kept() <= Elements(j.merged)
  {
    CompactionWork.KeptElements(j.version, j.level, j.merged, j.snapshot, |j.merged|);
  }

  lemma ContentWithout(d: Disk, l: Live, j: Job, m: Manifest)
    requires j.inputs <= l.current && m == Manifest(l.current - j.inputs + j.outputs, l.logNumber, l.nextFile, l.lastSequence)
    ensures Content(d, LiveManifest(l)) == TableEntries(d.tables, j.inputs) + Others(d, l, j)
    ensures Content(d, m) == TableEntries(d.tables, j.outputs) + Others(d, l, j)
  {
  }

  lemma JobFacts(s: State, l: Live)
    requires Inv(s) && s.mode == Up(l) && l.job.Some? && l.install.None?
    ensures Recovered(s.disk) == Content(s.disk, LiveManifest(l)) && Distinct(Recovered(s.disk))
    ensures var j := l.job.value; |j.version.levels| == Versions.NUM_LEVELS && Sorted(j.merged) && j.snapshot < MAX_SEQUENCE
    ensures Elements(l.job.value.merged) == TableEntries(s.disk.tables, l.job.value.inputs)
    ensures Distinct(s.history) && ReadsLike(Recovered(s.disk), s.history, s.horizon, s.back)
  {
    assert Recovered(s.disk) == Content(s.disk, LiveManifest(l)) <= s.history;
  }

  // Installing what the drop rules left keeps all reads from the snapshot on if and only if no
  // deleted value resurfaces from the files and logs that are there when it is installed.
  lemma InstallReadsIff(s: State, l: Live, m: Manifest)
    requires Inv(s) && s.mode == Up(l) && l.job.Some? && l.install.None?
    requires m == Manifest(l.current - l.job.value.inputs + l.job.value.outputs, l.logNumber, l.nextFile, l.lastSequence)
    requires l.job.value.inputs <= l.current && |l.job.value.version.levels| == Versions.NUM_LEVELS
    requires TableEntries(s.disk.tables, l.job.value.outputs) == l.job.value.Kept()
    ensures (forall u, sn: nat :: l.job.value.snapshot <= sn ==> View(Content(s.disk, m), u, sn) == View(Recovered(s.disk), u, sn))
       <==> (forall u :: !Resurfaces(s.disk, l, l.job.value, u))
  {
    hide Inv, View, Content, TableEntries, LogEntries, Others, CompactionReads.Resurfaces, CompactionWork.Kept;
    var j := l.job.value;
    JobFacts(s, l);
    ContentWithout(s.disk, l, j, m);
    var rest := Others(s.disk, l, j);
    CompactionReads.ReadsKeptIff(j.version, j.level, j.merged, rest, j.snapshot);
    assert Content(s.disk, m) == Elements(CompactionWork.Kept(j.version, j.level, j.merged, j.snapshot, |j.merged|)) + rest;
    assert Recovered(s.disk) == Elements(j.merged) + rest;
    assert forall u :: Resurfaces(s.disk, l, j, u) <==> CompactionReads.Resurfaces(j.version, j.level, Elements(j.merged), rest, j.snapshot, u);
  }

  lemma StartMoveKeepsInv(s: State, t: State)
    requires Inv(s) && StartMove(s, t)
    ensures Inv(t)
  {
  }

  lemma CleanUpKeepsInv(s: State, t: State)
    requires Inv(s) && CleanUp(s, t)
    ensures Inv(t)
  {
    var l, k := s.mode.live, t.mode.live;
    assert LiveManifest(k) == LiveManifest(l);
    assert Listed(k) <= Listed(l);
    assert TableEntries(t.disk.tables, {}) == {};
    hide Faithful, View;
  }

  lemma CollectKeepsInv(s: State, deadTables: set<nat>, deadLogs: set<nat>, t: State)
    requires Inv(s) && Collect(s, deadTables, deadLogs, t)
    ensures Inv(t)
  {
    hide View, Faithful;
    var l := s.mode.live;
    assert LiveManifest(t.mode.live) == LiveManifest(l);
    assert Listed(l) !! deadTables && l.pending !! deadTables;
    TablesFrame(s.disk.tables, t.disk.tables, JobBase(l.job) + JobOutputs(l.job));
    FaithfulFrame(s.disk, t.disk, s.disk.manifest, s.history, s.horizon, s.back);
    FaithfulFrame(s.disk, t.disk, LiveManifest(l), s.history, s.horizon, s.back);
  }

  lemma PinKeepsInv(s: State, t: State)
    requires Inv(s) && Pin(s, t)
    ensures Inv(t)
  {
    hide View, Faithful;
    var l, k := s.mode.live, t.mode.live;
    assert LiveManifest(k) == LiveManifest(l);
    forall n
      ensures n in Pinned(k.pinned) <==> n in Pinned(l.pinned) || n in l.current
    {
      assert k.pinned[|l.pinned|] == l.current;
      assert forall i :: 0 <= i < |l.pinned| ==> k.pinned[i] == l.pinned[i];
    }
    assert Listed(k) == Listed(l);
  }

  lemma UnpinKeepsInv(s: State, i: nat, t: State)
    requires Inv(s) && Unpin(s, i, t)
    ensures Inv(t)
  {
    hide View, Faithful;
    var l, k := s.mode.live, t.mode.live;
    assert LiveManifest(k) == LiveManifest(l);
    assert Listed(k) <= Listed(l);
  }

  lemma ReplayTableKeepsInv(s: State, es: set<Entry>, t: State)
    requires Inv(s) && ReplayTable(s, es, t)
    ensures Inv(t)
  {
    assert s.mode.nextFile !in s.disk.manifest.files;
    hide View, Faithful;
    FaithfulFrame(s.disk, t.disk, s.disk.manifest, s.history, s.horizon, s.back);
    TablesFrame(s.disk.tables, t.disk.tables, s.mode.newTables);
  }

  lemma CreateLogKeepsInv(s: State, n: nat, t: State)
    requires Inv(s) && CreateLog(s, n, t)
    ensures Inv(t)
  {
    EmptyLog(s.disk, s.disk.manifest, s.history, s.horizon, s.back, n);
    EmptyLogEntries(s.disk.logs, s.disk.manifest.logNumber, n);
    hide View, Faithful;
  }

  lemma FinishOpenKeepsInv(s: State, last: nat, t: State)
    requires Inv(s) && FinishOpen(s, last, t)
    ensures Inv(t)
  {
    hide View;
    var d, m := s.disk, t.disk.manifest;
    OpenedContent(s, t);
    hide TableEntries, LogEntries;
    assert Content(d, d.manifest) == Content(t.disk, m);
    hide Content;
    FaithfulMoved(d, d.manifest, t.disk, m, s.history, s.horizon, s.back);
    hide Faithful;
    assert LiveManifest(t.mode.live) == m;
  }

  lemma OpenedContent(s: State, t: State)
    requires OpeningInv(s) && s.mode.Opening? && s.mode.newLog.Some? && s.disk.manifest.files <= s.disk.tables.Keys
    requires t.disk.manifest.files == s.disk.manifest.files + s.mode.newTables && t.disk.manifest.logNumber == s.mode.newLog.value
    requires t.disk.tables == s.disk.tables && t.disk.logs == s.disk.logs
    ensures TableEntries(t.disk.tables, t.disk.manifest.files)
         == TableEntries(s.disk.tables, s.disk.manifest.files) + LogEntries(s.disk.logs, s.disk.manifest.logNumber)
    ensures LogEntries(t.disk.logs, t.disk.manifest.logNumber) == {}
  {
  }

  lemma NextKeepsInv(s: State, t: State)
    requires Inv(s) && Next(s, t)
    ensures Inv(t)
  {
    hide Inv, LogBatch, InsertBatch, Switch, StartFlush, WriteTable, StartFlushInstall, WriteManifest, FinishInstall;
    hide StartCompaction, OpenOutput, FinishOutput, StartCompactionInstall, StartMove, CleanUp, Collect, Pin, Unpin;
    hide ReplayTable, CreateLog, FinishOpen, Crash, BeginOpen;
    if es :| LogBatch(s, es, t) { LogBatchKeepsInv(s, es, t); }
    else if last :| InsertBatch(s, last, t) { InsertBatchKeepsInv(s, last, t); }
    else if Switch(s, t) { SwitchKeepsInv(s, t); }
    else if StartFlush(s, t) { StartFlushKeepsInv(s, t); }
    else if WriteTable(s, t) { WriteTableKeepsInv(s, t); }
    else if StartFlushInstall(s, t) { StartFlushInstallKeepsInv(s, t); }
    else if WriteManifest(s, t) { WriteManifestKeepsInv(s, t); }
    else if FinishInstall(s, t) { FinishInstallKeepsInv(s, t); }
    else if j :| StartCompaction(s, j, t) { StartCompactionKeepsInv(s, j, t); }
    else if OpenOutput(s, t) { OpenOutputKeepsInv(s, t); }
    else if es :| FinishOutput(s, es, t) { FinishOutputKeepsInv(s, es, t); }
    else if StartCompactionInstall(s, t) { StartCompactionInstallKeepsInv(s, t); }
    else if StartMove(s, t) { StartMoveKeepsInv(s, t); }
    else if CleanUp(s, t) { CleanUpKeepsInv(s, t); }
    else if dt, dl :| Collect(s, dt, dl, t) { CollectKeepsInv(s, dt, dl, t); }
    else if Pin(s, t) { PinKeepsInv(s, t); }
    else if i :| Unpin(s, i, t) { UnpinKeepsInv(s, i, t); }
    else if es :| ReplayTable(s, es, t) { ReplayTableKeepsInv(s, es, t); }
    else if n :| CreateLog(s, n, t) { CreateLogKeepsInv(s, n, t); }
    else if last :| FinishOpen(s, last, t) { FinishOpenKeepsInv(s, last, t); }
    else { CrashKeepsInv(s, t); }
  }

  lemma CrashKeepsInv(s: State, t: State)
    requires Inv(s) && (Crash(s, t) || BeginOpen(s, t))
    ensures Inv(t)
  {
  }

  lemma InitialInv()
    ensures Inv(Initial())
  {
  }

  lemma {:induction false} RunKeepsInv(ss: seq<State>, i: nat)
    requires Run(ss) && i < |ss|
    ensures Inv(ss[i])
  {
    hide Inv, Next;
    if i == 0 {
      InitialInv();
    } else {
      RunKeepsInv(ss, i - 1);
      NextKeepsInv(ss[i - 1], ss[i]);
    }
  }

  /** The results */

  // Whenever the process dies, every table that the manifest names is on disk, no entry above the
  // horizon is lost, and what a recovery rebuilds from those tables and the logs at or above the
  // recorded number reads like everything that was ever logged, for every user key that no installed
  // compaction has brought back, or that has been written since.
  lemma NothingIsLost(ss: seq<State>, i: nat, u: UserKey, sn: nat)
    requires Run(ss) && i < |ss| && ss[i].horizon <= sn
    ensures ss[i].disk.manifest.files <= ss[i].disk.tables.Keys
    ensures forall e :: e in ss[i].history && e.key.seqno > ss[i].horizon ==> e in Recovered(ss[i].disk)
    ensures Settled(ss[i].back, ss[i].history, u, sn) ==> View(Recovered(ss[i].disk), u, sn) == View(ss[i].history, u, sn)
  {
    RunKeepsInv(ss, i);
    hide View, OpeningInv, UpInv;
  }

  // While the store is up, cleanup has not removed a table of a listed version or of a finished
  // compaction output, nor the log of an entry still in a memtable; those logs are the ones that
  // both the running store and a recovery from its next manifest go on counting on.
  lemma NothingInUseIsDeleted(ss: seq<State>, i: nat)
    requires Run(ss) && i < |ss| && ss[i].mode.Up?
    ensures var l, d := ss[i].mode.live, ss[i].disk;
      && Listed(l) + JobOutputs(l.job) <= d.tables.Keys
      && l.mem <= LogEntries(d.logs, l.memLog) && ImmEntries(l.imm) <= LogEntries(d.logs, l.logNumber)
      && l.logNumber <= l.memLog && d.manifest.logNumber <= l.memLog
  {
    RunKeepsInv(ss, i);
    hide Faithful;
    var l, d := ss[i].mode.live, ss[i].disk;
    assert l.mem <= d.logs[l.memLog];
    assert l.imm.Some? ==> l.imm.value <= d.logs[l.immLog];
  }

  // A running store that a recovery brought up reads right, keys brought back aside, and numbers its next batch above
  // everything ever logged, in this process or before.
  lemma RunningStoreReadsRight(ss: seq<State>, i: nat, u: UserKey, sn: nat)
    requires Run(ss) && i < |ss| && ss[i].mode.Up?
    ensures var s, l := ss[i], ss[i].mode.live;
      && (s.horizon <= sn <= l.lastSequence && Settled(s.back, s.history, u, sn) ==>
            View(l.mem + ImmEntries(l.imm) + TableEntries(s.disk.tables, l.current), u, sn) == View(s.history, u, sn))
      && (l.inflight == {} ==> AllAtMost(s.history, l.lastSequence))
      && s.horizon <= l.lastSequence
  {
    RunKeepsInv(ss, i);
    var s, l := ss[i], ss[i].mode.live;
    if s.horizon <= sn <= l.lastSequence && Settled(s.back, s.history, u, sn) {
      var seen := l.mem + ImmEntries(l.imm) + TableEntries(s.disk.tables, l.current);
      LiveContent(s.disk, l);
      assert Content(s.disk, LiveManifest(l)) == seen + l.inflight;
      assert Distinct(seen + l.inflight);
      hide TableEntries, LogEntries, Content;
      InvisibleOnTop(seen, l.inflight, u, sn);
    }
  }

  lemma LiveContent(d: Disk, l: Live)
    requires LogsInv(d, l)
    ensures LogEntries(d.logs, l.logNumber) == l.mem + ImmEntries(l.imm) + l.inflight
  {
  }

  // Entries above the reader's sequence number do not matter.
  lemma InvisibleOnTop(es: set<Entry>, more: set<Entry>, u: UserKey, sn: nat)
    requires Distinct(es + more) && AllAbove(more, sn)
    ensures View(es + more, u, sn) == View(es, u, sn)
  {
  }

  // The installation of a compaction that brings u back.
  ghost predicate InstallBringsBack(s: State, t: State, u: UserKey) {
    && StartCompactionInstall(s, t)
    && Resurfaces(s.disk, s.mode.live, s.mode.live.job.value, u)
  }

  ghost predicate InstallBringsBackAt(ss: seq<State>, k: nat, u: UserKey) {
    k + 1 < |ss| && InstallBringsBack(ss[k], ss[k + 1], u)
  }

  // Brought back by a compaction that is installed, or about to be.
  ghost predicate OnItsWayBack(s: State, u: UserKey) {
    u in s.back || (s.mode.Up? && s.mode.live.install.Some? && u in s.mode.live.install.value.back)
  }

  lemma BackStep(s: State, t: State, u: UserKey)
    requires Next(s, t) && OnItsWayBack(t, u)
    ensures OnItsWayBack(s, u) || InstallBringsBack(s, t, u)
  {
    hide Content, TableEntries, LogEntries, Resurfaces, Describes, LiveFiles, AllAbove, AllAtMost;
    if StartCompactionInstall(s, t) {
    } else if es :| LogBatch(s, es, t) {
    } else if last :| InsertBatch(s, last, t) {
    } else if j :| StartCompaction(s, j, t) {
    } else if es :| FinishOutput(s, es, t) {
    } else if dt, dl :| Collect(s, dt, dl, t) {
    } else if i :| Unpin(s, i, t) {
    } else if es :| ReplayTable(s, es, t) {
    } else if n :| CreateLog(s, n, t) {
    } else if last :| FinishOpen(s, last, t) {
    }
  }

  // Only keys that some installation of the run has brought back are excused.
  lemma {:induction false} BackMeaning(ss: seq<State>, i: nat, u: UserKey)
    requires Run(ss) && i < |ss| && OnItsWayBack(ss[i], u)
    ensures exists k: nat :: k < i && InstallBringsBackAt(ss, k, u)
  {
    hide Next, InstallBringsBack;
    if i > 0 {
      BackStep(ss[i - 1], ss[i], u);
      if OnItsWayBack(ss[i - 1], u) {
        BackMeaning(ss, i - 1, u);
      } else {
        assert InstallBringsBackAt(ss, i - 1, u);
      }
    }
  }

  // So a key that no installation has brought back is never lost.
  lemma UntouchedKeysAreKept(ss: seq<State>, i: nat, u: UserKey, sn: nat)
    requires Run(ss) && i < |ss| && ss[i].horizon <= sn
    requires forall k: nat :: k < i ==> !InstallBringsBackAt(ss, k, u)
    ensures View(Recovered(ss[i].disk), u, sn) == View(ss[i].history, u, sn)
  {
    hide Run, View, InstallBringsBackAt, Recovered;
    if u in ss[i].back {
      BackMeaning(ss, i, u);
    }
    NothingIsLost(ss, i, u, sn);
  }

  /** Why no other background call may clean up during LogAndApply */

  const FIRST: Entry := Entry(IKey(0, 1, Value), [])

  // A new store takes one write, switches its memtable and flushes it, up to LogAndApply.
  function FlushRun(): seq<State> {
    var none := Manifest({}, 0, 2, 0);
    var m := Manifest({}, 3, 4, 0);
    var up := Live({}, 3, None, 0, {}, {}, [], {}, None, None, None, 4, 3, 0);
    var switched := Live({}, 4, Some({FIRST}), 3, {}, {}, [], {}, None, None, None, 5, 3, 1);
    var building := switched.(build := Some(Build(5, false)), pending := {5}, nextFile := 6);
    var logs := map[3 := {FIRST}, 4 := {}];
    [State(Disk(map[], map[], none), Down, {}, 0, imap[]),
     State(Disk(map[], map[], none), Opening(3, {}, None), {}, 0, imap[]),
     State(Disk(map[], map[3 := {}], none), Opening(4, {}, Some(3)), {}, 0, imap[]),
     State(Disk(map[], map[3 := {}], m), Up(up), {}, 0, imap[]),
     State(Disk(map[], map[3 := {FIRST}], m), Up(up.(inflight := {FIRST})), {FIRST}, 0, imap[]),
     State(Disk(map[], map[3 := {FIRST}], m), Up(up.(mem := {FIRST}, lastSequence := 1)), {FIRST}, 0, imap[]),
     State(Disk(map[], logs, m), Up(switched), {FIRST}, 0, imap[]),
     State(Disk(map[], logs, m), Up(building), {FIRST}, 0, imap[]),
     State(Disk(map[5 := {FIRST}], logs, m), Up(building.(build := Some(Build(5, true)))), {FIRST}, 0, imap[]),
     State(Disk(map[5 := {FIRST}], logs, m),
           Up(building.(build := None, pending := {}, install := Some(Install(Manifest({5}, 4, 6, 1), 0, imap[], true, false)))), {FIRST}, 0, imap[])]
  }

  lemma OpensNewStore()
    ensures forall i :: 0 <= i < 3 ==> Next(FlushRun()[i], FlushRun()[i + 1])
  {
    var ss := FlushRun();
    assert BeginOpen(ss[0], ss[1]);
    assert CreateLog(ss[1], 3, ss[2]);
    assert LogEntries(ss[2].disk.logs, 0) == {};
    assert ss[2].disk.manifest.files + ss[2].mode.newTables == {};
    assert FinishOpen(ss[2], 0, ss[3]);
  }

  lemma WritesAndSwitches()
    ensures forall i :: 3 <= i < 6 ==> Next(FlushRun()[i], FlushRun()[i + 1])
  {
    var ss := FlushRun();
    assert {} + {FIRST} == {FIRST};
    assert ss[3].disk.logs[3 := {FIRST}] == ss[4].disk.logs;
    assert LogBatch(ss[3], {FIRST}, ss[4]);
    assert InsertBatch(ss[4], 1, ss[5]);
    assert Switch(ss[5], ss[6]);
  }

  lemma FlushesMemTable()
    ensures forall i :: 6 <= i < 9 ==> Next(FlushRun()[i], FlushRun()[i + 1])
  {
    var ss := FlushRun();
    assert {} + {5} == {5};
    assert StartFlush(ss[6], ss[7]);
    assert WriteTable(ss[7], ss[8]);
    assert StartFlushInstall(ss[8], ss[9]);
  }

  // At the end of that run the number of the table has left pending_outputs_, and no version lists
  // it: cleanup would delete it, and the manifest about to be written names it. With the rule of one
  // background call no cleanup step can be taken then.
  lemma CleanupDuringInstallLosesTable() returns (ss: seq<State>, dead: set<nat>)
    ensures Run(ss) && |ss| == 10
    ensures var s := ss[9];
      && s.mode.Up? && s.mode.live.install.Some? && dead !! LiveFiles(s.mode.live)
      && !(s.mode.live.install.value.manifest.files <= (s.disk.tables - dead).Keys)
      && (forall dt, dl, t :: !Collect(s, dt, dl, t))
  {
    ss := FlushRun();
    dead := {5};
    OpensNewStore();
    WritesAndSwitches();
    FlushesMemTable();
    hide Next;
    assert forall i :: 0 <= i < 9 ==> Next(ss[i], ss[i + 1]);
    assert 5 !in (ss[9].disk.tables - dead).Keys;
  }
}
