/** The store as a process and its files: logs, tables and the manifest survive a crash, everything
    else does not. One step is what happens between two points where the mutex is released, so a
    flush, a merging compaction, writes, readers and cleanup interleave; the background thread does
    one thing at a time, except that a flush may run inside a merging compaction. */
module Durability {
  import opened Keys
  import opened Wrappers
  import Versions
  import CompactionWork
  import CompactionReads
  import opened Histories

  // What a recovery learns from the manifest, the levels of the files aside.
  datatype Manifest = Manifest(files: set<nat>, logNumber: nat, nextFile: nat, lastSequence: nat)

  datatype Disk = Disk(tables: map<nat, set<Entry>>, logs: map<nat, set<Entry>>, manifest: Manifest)

  // The table that WriteLevel0Table builds.
  datatype Build = Build(number: nat, written: bool)

  // A merging compaction on its way: its input version, whose files are base, the entries of the
  // inputs as the merging iterator yields them, and the file being written.
  datatype Job = Job(version: Versions.Version, level: nat, base: set<nat>, inputs: set<nat>, merged: seq<Entry>,
                     snapshot: nat, output: Option<nat>, outputs: set<nat>)
  {
    // What the drop rules leave of the inputs.
    ghost function Kept(): set<Entry>
      requires |version.levels| == Versions.NUM_LEVELS
    {
      Elements(CompactionWork.Kept(version, level, merged, snapshot, |merged|))
    }
  }

  // LogAndApply on its way; written once the manifest record is durable.
  datatype Install = Install(manifest: Manifest, horizon: nat, back: Returns, flush: bool, written: bool)

  datatype Live = Live(
    mem: set<Entry>, memLog: nat, imm: Option<set<Entry>>, immLog: nat,
    // logged, but not yet in mem; belongs to the writer at the head of the queue
    inflight: set<Entry>,
    current: set<nat>, pinned: seq<set<nat>>, pending: set<nat>,
    build: Option<Build>, job: Option<Job>, install: Option<Install>,
    nextFile: nat, logNumber: nat, lastSequence: nat)

  datatype Mode =
    | Down
    | Opening(nextFile: nat, newTables: set<nat>, newLog: Option<nat>)
    | Up(live: Live)

  // history holds every entry that was ever logged, horizon the largest snapshot that an installed
  // compaction has used, back the user keys that one has brought back; no step depends on them.
  datatype State = State(disk: Disk, mode: Mode, history: set<Entry>, horizon: nat, back: Returns)

  /** What is in the files */

  ghost function TableEntries(tables: map<nat, set<Entry>>, files: set<nat>): set<Entry> {
    set n, e | n in files && n in tables && e in tables[n] :: e
  }

  // The entries of the logs that a recovery replays.
  ghost function LogEntries(logs: map<nat, set<Entry>>, min: nat): set<Entry> {
    set n, e | n in logs && n >= min && e in logs[n] :: e
  }

  ghost function Content(disk: Disk, m: Manifest): set<Entry> {
    TableEntries(disk.tables, m.files) + LogEntries(disk.logs, m.logNumber)
  }

  // What a recovery after a crash at this moment finds.
  ghost function Recovered(disk: Disk): set<Entry> {
    Content(disk, disk.manifest)
  }

  function ImmEntries(imm: Option<set<Entry>>): set<Entry> {
    match imm case None => {} case Some(es) => es
  }

  function Pinned(versions: seq<set<nat>>): set<nat> {
    set i, n | 0 <= i < |versions| && n in versions[i] :: n
  }

  function JobBase(job: Option<Job>): set<nat> {
    match job case None => {} case Some(j) => j.base
  }

  function JobOutputs(job: Option<Job>): set<nat> {
    match job case None => {} case Some(j) => j.outputs
  }

  // Files of versions that are still listed: the current one, those readers hold, and the one a compaction reads.
  function Listed(l: Live): set<nat> {
    l.current + Pinned(l.pinned) + JobBase(l.job)
  }

  // DeleteObsoleteFiles keeps these tables.
  function LiveFiles(l: Live): set<nat> {
    l.pending + Listed(l)
  }

  /** Steps of a running store */

  ghost predicate AllAbove(es: set<Entry>, n: nat) {
    forall e :: e in es ==> e.key.seqno > n
  }

  ghost predicate AllAtMost(es: set<Entry>, n: nat) {
    forall e :: e in es ==> e.key.seqno <= n
  }

  // The writer at the head of the queue appends its group to the log.
  ghost predicate LogBatch(s: State, es: set<Entry>, t: State) {
    && s.mode.Up? && s.mode.live.inflight == {} && s.mode.live.memLog in s.disk.logs
    && AllAbove(es, s.mode.live.lastSequence) && Distinct(es)
    && var l, logs := s.mode.live, s.disk.logs;
       t == s.(disk := s.disk.(logs := logs[l.memLog := logs[l.memLog] + es]),
               mode := Up(l.(inflight := es)), history := s.history + es)
  }

  // It then inserts the group into the memtable and publishes the new last sequence number.
  ghost predicate InsertBatch(s: State, last: nat, t: State) {
    && s.mode.Up?
    && var l := s.mode.live;
       && last >= l.lastSequence && AllAtMost(l.inflight, last)
       && t == s.(mode := Up(l.(mem := l.mem + l.inflight, inflight := {}, lastSequence := last)))
  }

  // MakeRoomForWrite starts a new log and memtable.
  ghost predicate Switch(s: State, t: State) {
    && s.mode.Up? && s.mode.live.imm.None? && s.mode.live.inflight == {}
    && var l, n := s.mode.live, s.mode.live.nextFile;
       t == s.(disk := s.disk.(logs := s.disk.logs[n := {}]),
               mode := Up(l.(imm := Some(l.mem), immLog := l.memLog, mem := {}, memLog := n, nextFile := n + 1)))
  }

  // CompactMemTable enters WriteLevel0Table.
  ghost predicate StartFlush(s: State, t: State) {
    && s.mode.Up? && s.mode.live.imm.Some? && s.mode.live.build.None? && s.mode.live.install.None?
    && var l, n := s.mode.live, s.mode.live.nextFile;
       t == s.(mode := Up(l.(build := Some(Build(n, false)), pending := l.pending + {n}, nextFile := n + 1)))
  }

  ghost predicate WriteTable(s: State, t: State) {
    && s.mode.Up? && s.mode.live.build.Some? && s.mode.live.imm.Some?
    && var l, n := s.mode.live, s.mode.live.build.value.number;
       t == s.(disk := s.disk.(tables := s.disk.tables[n := l.imm.value]),
               mode := Up(l.(build := Some(Build(n, true)))))
  }

  // Back under the mutex the number leaves pending_outputs_, and LogAndApply starts. An empty
  // memtable leaves no file.
  ghost predicate StartFlushInstall(s: State, t: State) {
    && s.mode.Up? && s.mode.live.build.Some? && s.mode.live.build.value.written && s.mode.live.imm.Some?
    && s.mode.live.install.None?
    && var l, n := s.mode.live, s.mode.live.build.value.number;
       var files := l.current + if l.imm.value == {} then {} else {n};
       var m := Manifest(files, l.memLog, l.nextFile, l.lastSequence);
       t == s.(mode := Up(l.(pending := l.pending - {n}, build := None, install := Some(Install(m, s.horizon, s.back, true, false)))))
  }

  ghost predicate WriteManifest(s: State, t: State) {
    && s.mode.Up? && s.mode.live.install.Some?
    && var l, i := s.mode.live, s.mode.live.install.value;
       && !i.written
       && t == s.(disk := s.disk.(manifest := i.manifest), mode := Up(l.(install := Some(i.(written := true)))),
                  horizon := i.horizon, back := i.back)
  }

  ghost predicate FinishInstall(s: State, t: State) {
    && s.mode.Up? && s.mode.live.install.Some? && s.mode.live.install.value.written
    && var l, i := s.mode.live, s.mode.live.install.value;
       t == s.(mode := Up(l.(current := i.manifest.files, logNumber := i.manifest.logNumber, install := None,
                             imm := if i.flush then None else l.imm)))
  }

  // The version has these files, with what is in them on disk.
  ghost predicate Describes(v: Versions.Version, tables: map<nat, set<Entry>>, files: set<nat>) {
    && |v.levels| == Versions.NUM_LEVELS
    && (forall l, f :: 0 <= l < |v.levels| && f in v.levels[l] ==>
          f.number in files && f.number in tables && tables[f.number] == Elements(f.table))
    && (forall n :: n in files ==> exists l, f :: 0 <= l < |v.levels| && f in v.levels[l] && f.number == n)
  }

  // A merging compaction pins its input version and fixes the smallest snapshot it has to serve.
  // The inputs are files of two adjacent levels.
  ghost predicate StartCompaction(s: State, j: Job, t: State) {
    && s.mode.Up?
    && var l := s.mode.live;
       && l.job.None? && l.build.None? && l.install.None?
       && j.base == l.current && Describes(j.version, s.disk.tables, j.base) && j.level + 1 < Versions.NUM_LEVELS
       && j.inputs <= j.base
       && (forall n :: n in j.inputs ==> exists f :: f in j.version.levels[j.level] + j.version.levels[j.level + 1] && f.number == n)
       && Sorted(j.merged) && Elements(j.merged) == TableEntries(s.disk.tables, j.inputs)
       && j.snapshot <= l.lastSequence && j.snapshot < MAX_SEQUENCE && j.output.None? && j.outputs == {}
       && t == s.(mode := Up(l.(job := Some(j))))
  }

  ghost predicate OpenOutput(s: State, t: State) {
    && s.mode.Up? && s.mode.live.job.Some? && s.mode.live.job.value.output.None?
    && s.mode.live.build.None? && s.mode.live.install.None?
    && var l, n, j := s.mode.live, s.mode.live.nextFile, s.mode.live.job.value;
       t == s.(mode := Up(l.(job := Some(j.(output := Some(n))), pending := l.pending + {n}, nextFile := n + 1)))
  }

  ghost predicate FinishOutput(s: State, es: set<Entry>, t: State) {
    && s.mode.Up? && s.mode.live.job.Some? && s.mode.live.job.value.output.Some?
    && s.mode.live.build.None? && s.mode.live.install.None?
    && var l, j := s.mode.live, s.mode.live.job.value;
       var n := j.output.value;
       && |j.version.levels| == Versions.NUM_LEVELS && es <= j.Kept()
       && t == s.(disk := s.disk.(tables := s.disk.tables[n := es]),
                  mode := Up(l.(job := Some(j.(output := None, outputs := j.outputs + {n})))))
  }

  // Everything but the inputs of the compaction that a recovery would find now, which includes what
  // was flushed while the compaction ran.
  ghost function Others(d: Disk, l: Live, j: Job): set<Entry> {
    TableEntries(d.tables, l.current - j.inputs) + LogEntries(d.logs, l.logNumber)
  }

  ghost predicate Resurfaces(d: Disk, l: Live, j: Job, u: UserKey)
    requires |j.version.levels| == Versions.NUM_LEVELS
  {
    CompactionReads.Resurfaces(j.version, j.level, Elements(j.merged), Others(d, l, j), j.snapshot, u)
  }

  ghost function Gone(d: Disk, l: Live, j: Job): iset<UserKey>
    requires |j.version.levels| == Versions.NUM_LEVELS
  {
    iset u | Resurfaces(d, l, j, u)
  }

  // InstallCompactionResults, once all entries that the drop rules keep are in the outputs.
  ghost predicate StartCompactionInstall(s: State, t: State) {
    && s.mode.Up? && s.mode.live.job.Some? && s.mode.live.job.value.output.None?
    && s.mode.live.build.None? && s.mode.live.install.None?
    && var l, j := s.mode.live, s.mode.live.job.value;
       var m := Manifest(l.current - j.inputs + j.outputs, l.logNumber, l.nextFile, l.lastSequence);
       && |j.version.levels| == Versions.NUM_LEVELS && j.inputs <= l.current
       && TableEntries(s.disk.tables, j.outputs) == j.Kept()
       && var h := if s.horizon < j.snapshot then j.snapshot else s.horizon;
          t == s.(mode := Up(l.(install := Some(Install(m, h, Returned(s.back, Gone(s.disk, l, j), h), false, false)))))
  }

  // A trivial move rewrites the manifest without changing the set of files.
  ghost predicate StartMove(s: State, t: State) {
    && s.mode.Up?
    && var l := s.mode.live;
       && l.job.None? && l.build.None? && l.install.None?
       && var m := Manifest(l.current, l.logNumber, l.nextFile, l.lastSequence);
          t == s.(mode := Up(l.(install := Some(Install(m, s.horizon, s.back, false, false)))))
  }

  // CleanupCompaction and ReleaseInputs, after the installation or when the compaction is given up.
  ghost predicate CleanUp(s: State, t: State) {
    && s.mode.Up? && s.mode.live.job.Some? && s.mode.live.build.None? && s.mode.live.install.None?
    && var l, j := s.mode.live, s.mode.live.job.value;
       t == s.(mode := Up(l.(job := None, pending := l.pending - j.outputs - if j.output.Some? then {j.output.value} else {})))
  }

  // DeleteObsoleteFiles, or the part of it done before a crash. Only the background thread and
  // DB::Open call it, and neither is in WriteLevel0Table or LogAndApply then.
  ghost predicate Collect(s: State, deadTables: set<nat>, deadLogs: set<nat>, t: State) {
    && s.mode.Up? && s.mode.live.build.None? && s.mode.live.install.None?
    && var l := s.mode.live;
       && deadTables !! LiveFiles(l) && (forall n :: n in deadLogs ==> n < l.logNumber)
       && t == s.(disk := s.disk.(tables := s.disk.tables - deadTables, logs := s.disk.logs - deadLogs))
  }

  ghost predicate Pin(s: State, t: State) {
    s.mode.Up? && t == s.(mode := Up(s.mode.live.(pinned := s.mode.live.pinned + [s.mode.live.current])))
  }

  ghost predicate Unpin(s: State, i: nat, t: State) {
    && s.mode.Up? && i < |s.mode.live.pinned|
    && var p := s.mode.live.pinned;
       t == s.(mode := Up(s.mode.live.(pinned := p[..i] + p[i + 1..])))
  }

  /** Crash and recovery */

  ghost predicate Crash(s: State, t: State) {
    t == s.(mode := Down)
  }

  ghost predicate BeginOpen(s: State, t: State) {
    && s.mode.Down? && s.disk.manifest.files <= s.disk.tables.Keys
    && t == s.(mode := Opening(s.disk.manifest.nextFile + 1, {}, None))
  }

  // RecoverLogFile writes a level-0 table from a part of the logs.
  ghost predicate ReplayTable(s: State, es: set<Entry>, t: State) {
    && s.mode.Opening? && s.mode.newLog.None?
    && es <= LogEntries(s.disk.logs, s.disk.manifest.logNumber)
    && var n := s.mode.nextFile;
       t == s.(disk := s.disk.(tables := s.disk.tables[n := es]),
               mode := s.mode.(nextFile := n + 1, newTables := s.mode.newTables + {n}))
  }

  // Once all of it is in tables, the store takes a log number above every log it found.
  ghost predicate CreateLog(s: State, n: nat, t: State) {
    && s.mode.Opening? && s.mode.newLog.None?
    && LogEntries(s.disk.logs, s.disk.manifest.logNumber) == TableEntries(s.disk.tables, s.mode.newTables)
    && n >= s.mode.nextFile && (forall m :: m in s.disk.logs ==> m < n)
    && t == s.(disk := s.disk.(logs := s.disk.logs[n := {}]), mode := s.mode.(nextFile := n + 1, newLog := Some(n)))
  }

  // The new manifest takes effect when CURRENT is renamed.
  ghost predicate FinishOpen(s: State, last: nat, t: State) {
    && s.mode.Opening? && s.mode.newLog.Some?
    && var replayed := LogEntries(s.disk.logs, s.disk.manifest.logNumber);
       && last >= s.disk.manifest.lastSequence && AllAtMost(replayed, last)
       && (last == s.disk.manifest.lastSequence || exists e :: e in replayed && e.key.seqno == last)
       && var files := s.disk.manifest.files + s.mode.newTables;
          var m := Manifest(files, s.mode.newLog.value, s.mode.nextFile, last);
          t == s.(disk := s.disk.(manifest := m),
                  mode := Up(Live({}, m.logNumber, None, 0, {}, files, [], {}, None, None, None, m.nextFile, m.logNumber, last)))
  }

  ghost predicate Next(s: State, t: State) {
    || (exists es :: LogBatch(s, es, t))
    || (exists last :: InsertBatch(s, last, t))
    || Switch(s, t) || StartFlush(s, t) || WriteTable(s, t) || StartFlushInstall(s, t)
    || WriteManifest(s, t) || FinishInstall(s, t)
    || (exists j :: StartCompaction(s, j, t))
    || OpenOutput(s, t)
    || (exists es :: FinishOutput(s, es, t))
    || StartCompactionInstall(s, t) || StartMove(s, t) || CleanUp(s, t)
    || (exists dt, dl :: Collect(s, dt, dl, t))
    || Pin(s, t)
    || (exists i :: Unpin(s, i, t))
    || Crash(s, t) || BeginOpen(s, t)
    || (exists es :: ReplayTable(s, es, t))
    || (exists n :: CreateLog(s, n, t))
    || (exists last :: FinishOpen(s, last, t))
  }

  // NewDB: an empty manifest.
  function Initial(): State {
    State(Disk(map[], map[], Manifest({}, 0, 2, 0)), Down, {}, 0, imap[])
  }

  ghost predicate Run(ss: seq<State>) {
    && |ss| > 0 && ss[0] == Initial()
    && forall i :: 0 <= i < |ss| - 1 ==> Next(ss[i], ss[i + 1])
  }
}
