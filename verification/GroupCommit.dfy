/** The write queue: the writer at its head commits a group of batches for those behind it. */
module GroupCommit {
  import opened Wrappers
  import opened WriteBatches

  // A call of Write; a missing batch only asks for the memtable to be switched.
  datatype Request = Request(batch: Option<seq<Record>>, size: nat, sync: bool)

  function Records(r: Request): seq<Record> {
    match r.batch case None => [] case Some(rs) => rs
  }

  function BatchSize(r: Request): nat {
    if r.batch.None? then 0 else r.size
  }

  /** Choosing the group */

  function MaxSize(size: nat): nat {
    if size <= 128 * 1024 then size + 128 * 1024 else 1024 * 1024
  }

  lemma MaxSizeIs(size: nat)
    ensures size <= 128 * 1024 ==> MaxSize(size) == size + 128 * 1024
    ensures size > 128 * 1024 ==> MaxSize(size) == 1024 * 1024
  {
  }

  // Where the group led by rs[0] ends, given that it reaches at least to i and has this size so far.
  function GroupEnd(rs: seq<Request>, i: nat, size: nat): (end: nat)
    requires 1 <= i <= |rs|
    ensures i <= end <= |rs|
    decreases |rs| - i
  {
    if i == |rs| then i
    else if rs[i].sync && !rs[0].sync then i
    else if rs[i].batch.None? then GroupEnd(rs, i + 1, size)
    else if size + rs[i].size > MaxSize(rs[0].size) then i
    else GroupEnd(rs, i + 1, size + rs[i].size)
  }

  function GroupOf(rs: seq<Request>): (end: nat)
    requires |rs| > 0
    ensures 1 <= end <= |rs|
  {
    GroupEnd(rs, 1, rs[0].size)
  }

  function TotalSize(rs: seq<Request>): nat {
    if rs == [] then 0 else TotalSize(rs[..|rs| - 1]) + BatchSize(rs[|rs| - 1])
  }

  function GroupRecords(rs: seq<Request>): seq<Record> {
    if rs == [] then [] else GroupRecords(rs[..|rs| - 1]) + Records(rs[|rs| - 1])
  }

  // The group takes no sync writer unless its leader syncs, keeps within the limit apart from the
  // leader's own batch, and is the longest such prefix of the queue.
  ghost predicate GoodGroup(rs: seq<Request>, end: nat) {
    && 1 <= end <= |rs|
    && (!rs[0].sync ==> forall k :: 0 <= k < end ==> !rs[k].sync)
    && (WithinLimit(rs[0].size, TotalSize(rs[..end])) || forall k :: 1 <= k < end ==> rs[k].batch.None?)
    && (end < |rs| ==>
          || (rs[end].sync && !rs[0].sync)
          || (rs[end].batch.Some? && !WithinLimit(rs[0].size, TotalSize(rs[..end]) + rs[end].size)))
  }

  // A megabyte in all, but after a small batch of up to 128 KB only 128 KB more.
  ghost predicate WithinLimit(first: nat, total: nat) {
    if first <= 131072 then total - first <= 131072 else total <= 1048576
  }

  lemma TotalStep(rs: seq<Request>, i: nat)
    requires i < |rs|
    ensures TotalSize(rs[..i + 1]) == TotalSize(rs[..i]) + BatchSize(rs[i])
    ensures GroupRecords(rs[..i + 1]) == GroupRecords(rs[..i]) + Records(rs[i])
  {
    assert rs[..i + 1][..i] == rs[..i];
  }

  lemma {:induction false} GroupEndIsGood(rs: seq<Request>, i: nat, size: nat)
    requires 1 <= i <= |rs| && rs[0].batch.Some? && size == TotalSize(rs[..i])
    requires !rs[0].sync ==> forall k :: 0 <= k < i ==> !rs[k].sync
    requires size <= MaxSize(rs[0].size) || forall k :: 1 <= k < i ==> rs[k].batch.None?
    ensures GoodGroup(rs, GroupEnd(rs, i, size))
    decreases |rs| - i
  {
    hide TotalSize, GroupRecords, GroupEnd, MaxSize;
    EndStep(rs, i, size);
    LimitIs(rs[0].size);
    hide WithinLimit;
    if i < |rs| && !(rs[i].sync && !rs[0].sync) {
      TotalStep(rs, i);
      if rs[i].batch.None? {
        GroupEndIsGood(rs, i + 1, size);
      } else if size + rs[i].size <= MaxSize(rs[0].size) {
        GroupEndIsGood(rs, i + 1, size + rs[i].size);
      }
    }
  }

  lemma LimitIs(first: nat)
    ensures forall total: nat :: WithinLimit(first, total) <==> total <= MaxSize(first)
  {
  }

  lemma GroupIsGood(rs: seq<Request>)
    requires |rs| > 0 && rs[0].batch.Some?
    ensures GoodGroup(rs, GroupOf(rs))
  {
    TotalStep(rs, 0);
    GroupEndIsGood(rs, 1, rs[0].size);
  }

  /** BuildBatchGroup on the batches themselves */

  class Writer {
    const batch: WriteBatch?
    const sync: bool

    constructor (batch: WriteBatch?, sync: bool)
      ensures this.batch == batch && this.sync == sync
    {
      this.batch, this.sync := batch, sync;
    }
  }

  ghost function RequestOf(w: Writer): Request
    reads w, w.batch
  {
    if w.batch == null then Request(None, 0, w.sync)
    else Request(Some(w.batch.records), |w.batch.rep|, w.sync)
  }

  ghost function Batches(ws: seq<Writer>): set<WriteBatch> {
    set i | 0 <= i < |ws| && ws[i].batch != null :: ws[i].batch
  }

  ghost function Requests(ws: seq<Writer>): (rs: seq<Request>)
    reads ws, Batches(ws)
    ensures |rs| == |ws| && forall i :: 0 <= i < |ws| ==> rs[i] == RequestOf(ws[i])
  {
    seq(|ws|, i requires 0 <= i < |ws| reads ws, Batches(ws) => RequestOf(ws[i]))
  }

  lemma OnlyLeader(rs: seq<Request>)
    requires |rs| > 0
    ensures GroupRecords(rs[..1]) == Records(rs[0])
  {
  }

  lemma EndStep(rs: seq<Request>, i: nat, size: nat)
    requires 1 <= i <= |rs|
    ensures GroupEnd(rs, i, size) ==
      if i == |rs| || (rs[i].sync && !rs[0].sync) then i
      else if rs[i].batch.None? then GroupEnd(rs, i + 1, size)
      else if size + rs[i].size > MaxSize(rs[0].size) then i
      else GroupEnd(rs, i + 1, size + rs[i].size)
  {
  }

  // The first append switches to the scratch batch, so as not to disturb the caller's.
  method AppendToGroup(group: WriteBatch, first: WriteBatch, next: WriteBatch, tmp: WriteBatch) returns (result: WriteBatch)
    requires first != tmp && next != tmp && first.Valid() && next.Valid() && tmp.Valid()
    requires (group == first && tmp.records == []) || group == tmp
    modifies tmp
    ensures result == tmp && tmp.Valid() && tmp.records == old(group.records) + next.records
  {
    hide Encode;
    result := group;
    if result == first {
      result := tmp;
      result.Append(first);
    }
    result.Append(next);
  }

  // The result holds the records of the group in queue order. Only the scratch batch is written to.
  method BuildBatchGroup(writers: seq<Writer>, tmp: WriteBatch) returns (result: WriteBatch, last: nat)
    requires |writers| > 0 && writers[0].batch != null
    requires forall b :: b in Batches(writers) ==> b.Valid() && b != tmp
    requires tmp.Valid() && tmp.records == []
    modifies tmp
    ensures last == GroupOf(old(Requests(writers))) - 1
    ensures result.Valid() && result.records == GroupRecords(old(Requests(writers))[..last + 1])
    ensures result == writers[0].batch || result == tmp
  {
    hide GroupRecords, GroupEnd, TotalSize, MaxSize, Encode;
    ghost var rs := Requests(writers);
    EndStep(rs, 1, rs[0].size);
    var first := writers[0];
    assert first.batch in Batches(writers);
    result := first.batch;
    var size: nat := |first.batch.rep|;
    var maxSize := 1024 * 1024;
    if size <= 128 * 1024 {
      maxSize := size + 128 * 1024;
    }
    assert maxSize == MaxSize(size) by { MaxSizeIs(size); }
    last := 0;
    OnlyLeader(rs);
    var i := 1;
    while i < |writers|
      invariant 1 <= i <= |writers| && last == i - 1
      invariant GroupOf(rs) == GroupEnd(rs, i, size) && maxSize == MaxSize(rs[0].size)
      invariant result == first.batch || result == tmp
      invariant first.batch.Valid() && (result == first.batch ==> tmp.records == [])
      invariant tmp.Valid() && result.Valid() && result.records == GroupRecords(rs[..i])
    {
      var w := writers[i];
      EndStep(rs, i, size);
      assert w.batch != null ==> w.batch in Batches(writers);
      assert rs[i] == old(RequestOf(w));
      if w.sync && !first.sync {
        break;
      }
      TotalStep(rs, i);
      if w.batch != null {
        size := size + |w.batch.rep|;
        if size > maxSize {
          break;
        }
        result := AppendToGroup(result, first.batch, w.batch, tmp);
      }
      last := i;
      i := i + 1;
    }
  }

  /** The queue over time */

  datatype Outcome = Waiting | Done(ok: bool)

  datatype Phase = Started | Logged | Inserted | Failed

  // The group requests[front..end], while the mutex is released.
  datatype Commit = Commit(end: nat, first: nat, phase: Phase)

  // A record of the log: the group it came from, its first sequence number, and what became of it.
  datatype LogRecord = LogRecord(from: nat, to: nat, first: nat, records: seq<Record>, synced: bool, applied: bool)

  // A group that tried to append its records to the log.
  datatype Attempt = Attempt(first: nat, count: nat, appended: bool)

  // Writers are numbered by arrival; the queue holds requests[front..]. No step depends on attempts,
  // nor on forced, the writers without a batch that had the memtable switched themselves.
  datatype State = State(
    requests: seq<Request>, outcomes: seq<Outcome>, front: nat, commit: Option<Commit>,
    log: seq<LogRecord>, mem: seq<(nat, Record)>, lastSequence: nat, error: bool,
    attempts: seq<Attempt>, forced: set<nat>)

  ghost predicate Arrive(s: State, r: Request, t: State) {
    t == s.(requests := s.requests + [r], outcomes := s.outcomes + [Waiting])
  }

  // A writer that fails in MakeRoomForWrite, or that has no batch, leaves alone, the latter after the
  // memtable was switched for it.
  ghost predicate LeaveAlone(s: State, ok: bool, t: State) {
    && s.commit.None? && s.front < |s.requests| == |s.outcomes|
    && (ok ==> s.requests[s.front].batch.None? && !s.error)
    && t == s.(outcomes := s.outcomes[s.front := Done(ok)], front := s.front + 1,
               forced := if ok then s.forced + {s.front} else s.forced)
  }

  ghost predicate Begin(s: State, t: State) {
    && s.commit.None? && s.front < |s.requests| && !s.error
    && s.requests[s.front].batch.Some?
    && t == s.(commit := Some(Commit(s.front + GroupOf(s.requests[s.front..]), s.lastSequence + 1, Started)))
  }

  function Group(s: State): seq<Request>
    requires s.commit.Some? && s.front <= s.commit.value.end <= |s.requests|
  {
    s.requests[s.front..s.commit.value.end]
  }

  predicate InPhase(s: State, p: Phase) {
    s.commit.Some? && s.commit.value.phase == p && s.front < s.commit.value.end <= |s.requests|
  }

  // AddRecord and, for a sync leader, Sync. When only Sync fails, the record is in the log all the
  // same, and no later write is let through.
  ghost predicate AppendLog(s: State, appended: bool, synced: bool, t: State) {
    && InPhase(s, Started)
    && var c, leader := s.commit.value, s.requests[s.front];
       var ok := appended && (leader.sync ==> synced);
       t == s.(commit := Some(c.(phase := if ok then Logged else Failed)),
               log := if appended then s.log + [LogRecord(s.front, c.end, c.first, GroupRecords(Group(s)), synced && leader.sync, false)]
                      else s.log,
               attempts := s.attempts + [Attempt(c.first, |GroupRecords(Group(s))|, appended)],
               error := s.error || (appended && !ok))
  }

  ghost predicate Insert(s: State, t: State) {
    && InPhase(s, Logged) && s.log != []
    && var c, k := s.commit.value, |s.log| - 1;
       t == s.(commit := Some(c.(phase := Inserted)), log := s.log[k := s.log[k].(applied := true)],
               mem := s.mem + Numbered(c.first, GroupRecords(Group(s))))
  }

  // Back under the mutex: the last sequence number moves on in any case, and the group leaves.
  ghost predicate Finish(s: State, t: State) {
    && (InPhase(s, Inserted) || InPhase(s, Failed))
    && var c := s.commit.value;
       && |t.outcomes| == |s.outcomes|
       && (forall i :: 0 <= i < |s.outcomes| ==>
             t.outcomes[i] == if s.front <= i < c.end then Done(c.phase == Inserted) else s.outcomes[i])
       && t == s.(commit := None, front := c.end, outcomes := t.outcomes,
                  lastSequence := s.lastSequence + |GroupRecords(Group(s))|)
  }

  ghost predicate Next(s: State, t: State) {
    || (exists r :: Arrive(s, r, t))
    || (exists ok :: LeaveAlone(s, ok, t))
    || Begin(s, t)
    || (exists appended, synced :: AppendLog(s, appended, synced, t))
    || Insert(s, t)
    || Finish(s, t)
  }

  ghost predicate Run(ss: seq<State>) {
    && |ss| > 0 && (exists n :: ss[0] == State([], [], 0, None, [], [], n, false, [], {}))
    && forall i :: 0 <= i < |ss| - 1 ==> Next(ss[i], ss[i + 1])
  }

  /** The invariant */

  ghost predicate QueueInv(s: State) {
    && |s.outcomes| == |s.requests| && s.front <= |s.requests|
    && (forall i :: 0 <= i < |s.requests| ==> (s.outcomes[i] == Waiting <==> i >= s.front))
    && (s.commit.Some? ==>
          var c := s.commit.value;
          && s.front < c.end <= |s.requests| && c.first == s.lastSequence + 1
          && LedGroup(s.requests, s.front, c.end))
  }

  // The writers from..to went together: the first has a batch, and syncs if any of them wants to.
  ghost predicate LedGroup(rs: seq<Request>, from: nat, to: nat) {
    && from < to <= |rs| && rs[from].batch.Some?
    && (!rs[from].sync ==> forall k :: from <= k < to ==> !rs[k].sync)
  }

  // Where the log reaches: past the front once the current group is in it.
  function LoggedTo(s: State): nat {
    if s.commit.Some? && s.commit.value.phase != Started then s.commit.value.end else s.front
  }

  ghost predicate LogRecordOk(s: State, r: LogRecord) {
    && LedGroup(s.requests, r.from, r.to) && r.to <= LoggedTo(s)
    && r.records == GroupRecords(s.requests[r.from..r.to])
    && (r.to > s.front ==> s.commit.Some? && r.from == s.front && r.to == s.commit.value.end)
    && (r.applied ==> r.synced == s.requests[r.from].sync)
    && r.first + |r.records| <= s.lastSequence + 1 + if r.to > s.front then |r.records| else 0
  }

  ghost predicate LogInv(s: State) {
    && QueueInv(s)
    && (forall k :: 0 <= k < |s.log| ==> LogRecordOk(s, s.log[k]))
    && (forall j, k :: 0 <= j < k < |s.log| ==>
          s.log[j].to <= s.log[k].from && s.log[j].first + |s.log[j].records| <= s.log[k].first)
    && (s.commit.Some? && s.commit.value.phase in {Logged, Inserted} ==>
          && s.log != []
          && var r, c := s.log[|s.log| - 1], s.commit.value;
             r == LogRecord(s.front, c.end, c.first, GroupRecords(Group(s)), s.requests[s.front].sync, c.phase == Inserted))
    // an acknowledged batch is in the log
    && (forall i :: 0 <= i < s.front && s.outcomes[i] == Done(true) && s.requests[i].batch.Some? ==> InLog(s.log, i))
  }

  ghost predicate InLog(log: seq<LogRecord>, i: nat) {
    exists k :: 0 <= k < |log| && log[k].from <= i < log[k].to && log[k].applied
  }

  // The records of the writers that succeeded, in order of arrival.
  function OkRecords(rs: seq<Request>, os: seq<Outcome>): seq<Record>
    requires |rs| == |os|
  {
    if rs == [] then []
    else
      var n := |rs| - 1;
      OkRecords(rs[..n], os[..n]) + if os[n] == Done(true) then Records(rs[n]) else []
  }

  function Contents(mem: seq<(nat, Record)>): (r: seq<Record>)
    ensures |r| == |mem| && forall i :: 0 <= i < |mem| ==> r[i] == mem[i].1
  {
    seq(|mem|, i requires 0 <= i < |mem| => mem[i].1)
  }

  // What the applied part of the log inserts.
  function Applied(log: seq<LogRecord>): seq<(nat, Record)> {
    if log == [] then []
    else
      var r := log[|log| - 1];
      Applied(log[..|log| - 1]) + if r.applied then Numbered(r.first, r.records) else []
  }

  function CurrentGroup(s: State): seq<Record>
    requires QueueInv(s)
  {
    if InPhase(s, Inserted) then GroupRecords(Group(s)) else []
  }

  ghost predicate MemInv(s: State) {
    && QueueInv(s)
    && s.mem == Applied(s.log)
    && Contents(s.mem) == OkRecords(s.requests[..s.front], s.outcomes[..s.front]) + CurrentGroup(s)
  }

  ghost predicate Inv(s: State) {
    QueueInv(s) && LogInv(s) && MemInv(s)
  }

  /** What each step keeps */

  lemma ArriveKeepsInv(s: State, r: Request, t: State)
    requires Inv(s) && Arrive(s, r, t)
    ensures Inv(t)
  {
    hide GroupRecords, OkRecords, Applied;
    ArriveKeepsLog(s, r, t);
    hide LogInv;
    assert t.requests[..t.front] == s.requests[..s.front] && t.outcomes[..t.front] == s.outcomes[..s.front];
    assert s.commit.Some? ==> Group(t) == Group(s);
  }

  lemma ArriveKeepsLog(s: State, r: Request, t: State)
    requires LogInv(s) && Arrive(s, r, t)
    ensures LogInv(t)
  {
    hide GroupRecords;
    ArriveKeepsRecords(s, r, t);
    hide LogRecordOk, InLog;
    assert s.commit.Some? ==> Group(t) == Group(s);
  }

  lemma ArriveKeepsRecords(s: State, r: Request, t: State)
    requires LogInv(s) && Arrive(s, r, t)
    ensures forall k :: 0 <= k < |t.log| ==> LogRecordOk(t, t.log[k])
  {
    hide GroupRecords, InLog;
    forall k | 0 <= k < |s.log|
      ensures LogRecordOk(t, t.log[k])
    {
      var e := s.log[k];
      assert LogRecordOk(s, e);
      assert t.requests[e.from..e.to] == s.requests[e.from..e.to];
    }
  }

  lemma OkRecordsStep(rs: seq<Request>, os: seq<Outcome>, n: nat)
    requires n < |rs| == |os|
    ensures OkRecords(rs[..n + 1], os[..n + 1]) == OkRecords(rs[..n], os[..n]) + if os[n] == Done(true) then Records(rs[n]) else []
  {
    assert rs[..n + 1][..n] == rs[..n] && os[..n + 1][..n] == os[..n];
  }

  lemma LeaveAloneKeepsInv(s: State, ok: bool, t: State)
    requires Inv(s) && LeaveAlone(s, ok, t)
    ensures Inv(t)
  {
    hide GroupRecords, OkRecords, Applied;
    LeaveAloneKeepsLog(s, ok, t);
    hide LogInv;
    OkRecordsStep(t.requests, t.outcomes, s.front);
    assert t.outcomes[..s.front] == s.outcomes[..s.front];
  }

  lemma LeaveAloneKeepsLog(s: State, ok: bool, t: State)
    requires LogInv(s) && LeaveAlone(s, ok, t)
    ensures LogInv(t)
  {
  }

  lemma BeginKeepsInv(s: State, t: State)
    requires Inv(s) && Begin(s, t)
    ensures Inv(t)
  {
    hide GroupRecords, OkRecords, Applied;
    var rs := s.requests[s.front..];
    GroupIsGood(rs);
    var end := s.front + GroupOf(rs);
    hide GroupOf;
    assert forall k :: s.front <= k < end ==> s.requests[k] == rs[k - s.front];
    assert LedGroup(s.requests, s.front, end);
    forall k | 0 <= k < |s.log|
      ensures LogRecordOk(t, t.log[k])
    {
      assert LogRecordOk(s, s.log[k]);
    }
  }

  lemma AppendLogKeepsInv(s: State, appended: bool, synced: bool, t: State)
    requires Inv(s) && AppendLog(s, appended, synced, t)
    ensures Inv(t)
  {
    hide GroupRecords, OkRecords;
    AppendLogKeepsLog(s, appended, synced, t);
    hide LogInv;
    assert appended ==> t.log[..|t.log| - 1] == s.log;
  }

  lemma AppendLogKeepsLog(s: State, appended: bool, synced: bool, t: State)
    requires LogInv(s) && AppendLog(s, appended, synced, t)
    ensures LogInv(t)
  {
    hide GroupRecords;
    forall k | 0 <= k < |s.log|
      ensures LogRecordOk(t, s.log[k])
      ensures s.log[k].to <= s.front && s.log[k].first + |s.log[k].records| <= s.lastSequence + 1
    {
      assert LogRecordOk(s, s.log[k]);
    }
    if appended {
      var r := t.log[|s.log|];
      assert LogRecordOk(t, r);
      hide LogRecordOk, LedGroup;
      forall i | 0 <= i < s.front && InLog(s.log, i)
        ensures InLog(t.log, i)
      {
        InLogGrows(s.log, r, i);
      }
    }
  }

  lemma InLogGrows(log: seq<LogRecord>, r: LogRecord, i: nat)
    requires InLog(log, i)
    ensures InLog(log + [r], i)
  {
    var k :| 0 <= k < |log| && log[k].from <= i < log[k].to && log[k].applied;
    assert (log + [r])[k] == log[k];
  }

  lemma InsertKeepsInv(s: State, t: State)
    requires Inv(s) && Insert(s, t)
    ensures Inv(t)
  {
    hide GroupRecords, OkRecords, Applied, Contents, LogInv;
    InsertKeepsLog(s, t);
    InsertKeepsMem(s, t);
  }

  lemma InsertKeepsMem(s: State, t: State)
    requires LogInv(s) && s.mem == Applied(s.log) && Insert(s, t)
    ensures t.mem == Applied(t.log) && Contents(t.mem) == Contents(s.mem) + GroupRecords(Group(s))
  {
    hide GroupRecords, LogRecordOk, InLog;
    var k := |s.log| - 1;
    assert t.log[..k] == s.log[..k];
  }

  lemma InsertKeepsLog(s: State, t: State)
    requires LogInv(s) && Insert(s, t)
    ensures LogInv(t)
  {
    hide GroupRecords, LogRecordOk, LedGroup, InLog;
    InsertKeepsRecords(s, t);
    forall i | InLog(s.log, i)
      ensures InLog(t.log, i)
    {
      InLogApplied(s.log, |s.log| - 1, i);
    }
    assert Group(t) == Group(s);
  }

  lemma InLogApplied(log: seq<LogRecord>, k: nat, i: nat)
    requires k < |log| && InLog(log, i)
    ensures InLog(log[k := log[k].(applied := true)], i)
  {
    var j :| 0 <= j < |log| && log[j].from <= i < log[j].to && log[j].applied;
    assert log[k := log[k].(applied := true)][j].applied;
  }

  lemma InsertKeepsRecords(s: State, t: State)
    requires LogInv(s) && Insert(s, t)
    ensures forall k :: 0 <= k < |t.log| ==> LogRecordOk(t, t.log[k])
  {
    hide GroupRecords, InLog;
    forall k | 0 <= k < |s.log|
      ensures LogRecordOk(t, t.log[k])
    {
      assert LogRecordOk(s, s.log[k]);
    }
  }

  lemma NoRecords(rs: seq<Request>, i: nat)
    requires i <= |rs|
    ensures GroupRecords(rs[i..i]) == []
  {
  }

  // Writers that leave together.
  lemma {:induction false} OkRecordsOfGroup(rs: seq<Request>, os: seq<Outcome>, from: nat, to: nat, ok: bool)
    requires from <= to <= |rs| == |os| && forall i :: from <= i < to ==> os[i] == Done(ok)
    ensures OkRecords(rs[..to], os[..to]) == OkRecords(rs[..from], os[..from]) + if ok then GroupRecords(rs[from..to]) else []
  {
    hide OkRecords, GroupRecords;
    NoRecords(rs, to);
    if from < to {
      OkRecordsOfGroup(rs, os, from, to - 1, ok);
      OkRecordsStep(rs, os, to - 1);
      GroupGrows(rs, from, to - 1);
    }
  }

  lemma GroupGrows(rs: seq<Request>, from: nat, to: nat)
    requires from <= to < |rs|
    ensures GroupRecords(rs[from..to + 1]) == GroupRecords(rs[from..to]) + Records(rs[to])
  {
    hide GroupRecords;
    var group := rs[from..to + 1];
    TotalStep(group, to - from);
    assert group[..to - from] == rs[from..to] && group[..to - from + 1] == group;
  }

  lemma FinishKeepsInv(s: State, t: State)
    requires Inv(s) && Finish(s, t)
    ensures Inv(t)
  {
    hide GroupRecords, OkRecords, Applied;
    var c := s.commit.value;
    FinishKeepsLog(s, t);
    hide LogInv;
    OkRecordsOfGroup(t.requests, t.outcomes, s.front, c.end, c.phase == Inserted);
    assert t.outcomes[..s.front] == s.outcomes[..s.front];
  }

  lemma FinishKeepsLog(s: State, t: State)
    requires LogInv(s) && Finish(s, t)
    ensures LogInv(t)
  {
    hide GroupRecords;
    var c := s.commit.value;
    forall k | 0 <= k < |s.log|
      ensures LogRecordOk(t, t.log[k])
    {
      assert LogRecordOk(s, s.log[k]);
    }
    forall i | 0 <= i < t.front && t.outcomes[i] == Done(true) && t.requests[i].batch.Some?
      ensures InLog(t.log, i)
    {
      if i >= s.front {
        assert s.log[|s.log| - 1].applied;
      }
    }
  }

  lemma InitialInv(n: nat)
    ensures Inv(State([], [], 0, None, [], [], n, false, [], {}))
  {
  }

  lemma NextKeepsInv(s: State, t: State)
    requires Inv(s) && Next(s, t)
    ensures Inv(t)
  {
    hide Inv, Arrive, LeaveAlone, Begin, AppendLog, Insert, Finish;
    if r :| Arrive(s, r, t) { ArriveKeepsInv(s, r, t); }
    else if ok :| LeaveAlone(s, ok, t) { LeaveAloneKeepsInv(s, ok, t); }
    else if Begin(s, t) { BeginKeepsInv(s, t); }
    else if appended, synced :| AppendLog(s, appended, synced, t) { AppendLogKeepsInv(s, appended, synced, t); }
    else if Insert(s, t) { InsertKeepsInv(s, t); }
    else { FinishKeepsInv(s, t); }
  }

  // A writer at the head of the queue whose batch nobody has taken can commit its group, unless a failed
  // sync has closed the store: the records of the group enter the memtable and its writers succeed.
  lemma HeadCanSucceed(s: State) returns (ss: seq<State>, end: nat)
    requires Inv(s) && s.commit.None? && s.front < |s.requests| && !s.error && s.requests[s.front].batch.Some?
    ensures |ss| == 5 && ss[0] == s && forall i :: 0 <= i < 4 ==> Next(ss[i], ss[i + 1])
    ensures s.front < end <= |s.requests| && ss[4].front == end && ss[4].commit.None?
    ensures |ss[4].outcomes| == |s.outcomes| == |s.requests|
    ensures forall w :: 0 <= w < |s.outcomes| ==> ss[4].outcomes[w] == if s.front <= w < end then Done(true) else s.outcomes[w]
    ensures Contents(ss[4].mem) == Contents(s.mem) + GroupRecords(s.requests[s.front..end])
  {
    hide Next, LogInv, MemInv, GroupRecords, GroupOf, GroupEnd;
    end := s.front + GroupOf(s.requests[s.front..]);
    var first, records := s.lastSequence + 1, GroupRecords(s.requests[s.front..end]);
    var sync := s.requests[s.front].sync;
    var entry := LogRecord(s.front, end, first, records, sync, false);
    var s1 := s.(commit := Some(Commit(end, first, Started)));
    var s2 := s1.(commit := Some(Commit(end, first, Logged)), log := s.log + [entry], attempts := s.attempts + [Attempt(first, |records|, true)]);
    var log := s2.log[|s.log| := entry.(applied := true)];
    var s3 := s2.(commit := Some(Commit(end, first, Inserted)), log := log, mem := s.mem + Numbered(first, records));
    var outcomes := seq(|s.outcomes|, i requires 0 <= i < |s.outcomes| => if s.front <= i < end then Done(true) else s.outcomes[i]);
    var s4 := s3.(commit := None, front := end, outcomes := outcomes, lastSequence := s.lastSequence + |records|);
    assert Begin(s, s1) && AppendLog(s1, true, sync, s2) && Insert(s2, s3) && Finish(s3, s4);
    CanStep(s, s1, true, sync);
    CanStep(s1, s2, true, sync);
    CanStep(s2, s3, true, sync);
    CanStep(s3, s4, true, sync);
    ss := [s, s1, s2, s3, s4];
  }

  lemma CanStep(s: State, t: State, appended: bool, synced: bool)
    requires Begin(s, t) || AppendLog(s, appended, synced, t) || Insert(s, t) || Finish(s, t)
    ensures Next(s, t)
  {
    hide Begin, AppendLog, Insert, Finish;
  }

  lemma {:induction false} RunKeepsInv(ss: seq<State>, i: nat)
    requires Run(ss) && i < |ss|
    ensures Inv(ss[i])
  {
    hide Inv, Next;
    if i == 0 {
      var n :| ss[0] == State([], [], 0, None, [], [], n, false, [], {});
      InitialInv(n);
    } else {
      RunKeepsInv(ss, i - 1);
      NextKeepsInv(ss[i - 1], ss[i]);
    }
  }

  /** The results, for every interleaving */

  // The memtable holds, in order of arrival, exactly the batches of the writers that succeeded,
  // and possibly those of a group about to be told so.
  lemma WritesAreSerial(ss: seq<State>, i: nat)
    requires Run(ss) && i < |ss|
    ensures var s := ss[i];
      && |s.outcomes| == |s.requests| && s.front <= |s.requests|
      && OkRecords(s.requests[..s.front], s.outcomes[..s.front]) <= Contents(s.mem)
      && (s.commit.None? ==> Contents(s.mem) == OkRecords(s.requests[..s.front], s.outcomes[..s.front]))
  {
    RunKeepsInv(ss, i);
  }

  ghost predicate Increasing(mem: seq<(nat, Record)>, bound: nat) {
    && (forall a, b :: 0 <= a < b < |mem| ==> mem[a].0 < mem[b].0)
    && (forall a :: 0 <= a < |mem| ==> mem[a].0 < bound)
  }

  lemma AppendIncreasing(mem: seq<(nat, Record)>, first: nat, rs: seq<Record>)
    requires Increasing(mem, first)
    ensures Increasing(mem + Numbered(first, rs), first + |rs|)
  {
  }

  lemma {:induction false} AppliedNumbers(s: State, n: nat)
    requires LogInv(s) && n <= |s.log|
    ensures Increasing(Applied(s.log[..n]), if n == 0 then 0 else s.log[n - 1].first + |s.log[n - 1].records|)
  {
    hide GroupRecords, LogRecordOk, InLog, QueueInv, Applied, Increasing;
    if n == 0 {
      NothingApplied(s.log);
    } else {
      AppliedNumbers(s, n - 1);
      AppliedStep(s.log, n - 1);
      var r := s.log[n - 1];
      var bound := if n == 1 then 0 else s.log[n - 2].first + |s.log[n - 2].records|;
      assert bound <= r.first;
      hide LogInv;
      HigherBound(Applied(s.log[..n - 1]), bound, r.first);
      HigherBound(Applied(s.log[..n - 1]), bound, r.first + |r.records|);
      AppendIncreasing(Applied(s.log[..n - 1]), r.first, r.records);
    }
  }

  lemma NothingApplied(log: seq<LogRecord>)
    ensures Applied(log[..0]) == [] && Increasing([], 0)
  {
  }

  lemma AppliedStep(log: seq<LogRecord>, n: nat)
    requires n < |log|
    ensures var before := Applied(log[..n]);
      Applied(log[..n + 1]) == if log[n].applied then before + Numbered(log[n].first, log[n].records) else before
  {
    assert log[..n + 1][..n] == log[..n];
  }

  lemma HigherBound(mem: seq<(nat, Record)>, bound: nat, higher: nat)
    requires Increasing(mem, bound) && bound <= higher
    ensures Increasing(mem, higher)
  {
  }

  // Sequence numbers are never reused: they increase through the memtable and from each log record
  // to the next, also when a write failed in between.
  lemma NumbersIncrease(ss: seq<State>, i: nat)
    requires Run(ss) && i < |ss|
    ensures var s := ss[i];
      && (forall a, b :: 0 <= a < b < |s.mem| ==> s.mem[a].0 < s.mem[b].0)
      && (forall j, k :: 0 <= j < k < |s.log| ==> s.log[j].first + |s.log[j].records| <= s.log[k].first)
      && (s.commit.None? ==> forall k :: 0 <= k < |s.log| ==> s.log[k].first + |s.log[k].records| <= s.lastSequence + 1)
  {
    RunKeepsInv(ss, i);
    var s := ss[i];
    AppliedNumbers(s, |s.log|);
    assert s.log[..|s.log|] == s.log;
    hide GroupRecords, InLog;
    assert forall k :: 0 <= k < |s.log| ==> LogRecordOk(s, s.log[k]);
  }

  ghost predicate InSyncedLog(log: seq<LogRecord>, w: nat, sync: bool) {
    exists k :: 0 <= k < |log| && log[k].from <= w < log[k].to && log[k].applied && (sync ==> log[k].synced)
  }

  // A successful writer's batch is in exactly one log record, which holds the batches of its group
  // in order of arrival and, if the writer asked for it, was synced. No batch is in two records.
  lemma LoggedExactlyOnce(ss: seq<State>, i: nat, w: nat)
    requires Run(ss) && i < |ss| && w < |ss[i].requests| && ss[i].requests[w].batch.Some?
    ensures var s := ss[i];
      && |s.outcomes| == |s.requests|
      && (s.outcomes[w] == Done(true) ==> InSyncedLog(s.log, w, s.requests[w].sync))
      && (forall j, k :: 0 <= j < |s.log| && 0 <= k < |s.log| && s.log[j].from <= w < s.log[j].to && s.log[k].from <= w < s.log[k].to ==> j == k)
      && (forall k :: 0 <= k < |s.log| ==> s.log[k].from < s.log[k].to <= |s.requests|)
      && (forall k :: 0 <= k < |s.log| ==> s.log[k].records == GroupRecords(s.requests[s.log[k].from..s.log[k].to]))
  {
    hide GroupRecords, Applied, OkRecords, Contents;
    RunKeepsInv(ss, i);
    var s := ss[i];
    forall k | 0 <= k < |s.log|
      ensures s.log[k].from < s.log[k].to <= |s.requests| && s.log[k].records == GroupRecords(s.requests[s.log[k].from..s.log[k].to])
      ensures s.log[k].applied && s.log[k].from <= w < s.log[k].to && s.requests[w].sync ==> s.log[k].synced
    {
      assert LogRecordOk(s, s.log[k]);
    }
    if s.outcomes[w] == Done(true) {
      var k :| 0 <= k < |s.log| && s.log[k].from <= w < s.log[k].to && s.log[k].applied;
    }
  }

  // What a step may do to the past: nothing is taken back.
  ghost predicate Extends(s: State, t: State) {
    && s.requests <= t.requests && s.mem <= t.mem && s.front <= t.front && s.lastSequence <= t.lastSequence
    && |s.outcomes| <= |t.outcomes| && (forall w :: 0 <= w < |s.outcomes| && s.outcomes[w] != Waiting ==> t.outcomes[w] == s.outcomes[w])
    && |s.log| <= |t.log| && (forall k :: 0 <= k < |s.log| ==> t.log[k].(applied := s.log[k].applied) == s.log[k])
  }

  lemma NextExtends(s: State, t: State)
    requires Inv(s) && Next(s, t)
    ensures Extends(s, t)
  {
    hide GroupRecords, LogInv, MemInv, GroupOf;
  }

  // Each writer completes once: an outcome that has been reported does not change, and it has been
  // reported exactly for the writers that left the queue.
  lemma {:induction false} OutcomesAreFinal(ss: seq<State>, i: nat, k: nat)
    requires Run(ss) && i <= k < |ss|
    ensures Extends(ss[i], ss[k])
    ensures |ss[k].outcomes| == |ss[k].requests|
    ensures forall w :: 0 <= w < |ss[k].requests| ==> (ss[k].outcomes[w] != Waiting <==> w < ss[k].front)
  {
    hide Inv, Next, Extends;
    RunKeepsInv(ss, k);
    QueueFacts(ss[k]);
    if i == k {
      ExtendsSelf(ss[k]);
    } else {
      OutcomesAreFinal(ss, i, k - 1);
      RunKeepsInv(ss, k - 1);
      NextExtends(ss[k - 1], ss[k]);
      ExtendsTwice(ss[i], ss[k - 1], ss[k]);
    }
  }

  lemma QueueFacts(s: State)
    requires Inv(s)
    ensures |s.outcomes| == |s.requests|
    ensures forall w :: 0 <= w < |s.requests| ==> (s.outcomes[w] != Waiting <==> w < s.front)
  {
  }

  lemma ExtendsSelf(s: State)
    ensures Extends(s, s)
  {
  }

  lemma ExtendsTwice(s: State, t: State, u: State)
    requires Extends(s, t) && Extends(t, u)
    ensures Extends(s, u)
  {
  }
}
