/** How the write queue numbers records: what is contiguous, what a failed append leaves out, and what
    a writer without a batch can rely on. */
module SequenceNumbers {
  import opened Wrappers
  import opened WriteBatches
  import opened GroupCommit

  /** Attempts to append */

  ghost predicate Contiguous(attempts: seq<Attempt>, start: nat) {
    && (attempts != [] ==> attempts[0].first == start)
    && forall k :: 0 < k < |attempts| ==> attempts[k].first == attempts[k - 1].first + attempts[k - 1].count
  }

  function EndOf(attempts: seq<Attempt>, start: nat): nat {
    if attempts == [] then start else attempts[|attempts| - 1].first + attempts[|attempts| - 1].count
  }

  // The numbers that these attempts use up.
  function Used(attempts: seq<Attempt>): nat {
    if attempts == [] then 0 else Used(attempts[..|attempts| - 1]) + attempts[|attempts| - 1].count
  }

  // The positions of the attempts that reached the log.
  function Appended(attempts: seq<Attempt>): (r: seq<nat>)
    ensures forall j, k :: 0 <= j < k < |r| ==> r[j] < r[k]
    ensures forall i: nat :: i in r <==> i < |attempts| && attempts[i].appended
  {
    if attempts == [] then []
    else
      var n := |attempts| - 1;
      var before := Appended(attempts[..n]);
      assert forall k :: 0 <= k < |before| ==> before[k] in before;
      before + if attempts[n].appended then [n] else []
  }

  lemma {:induction false} UsedBetween(attempts: seq<Attempt>, start: nat, a: nat, b: nat)
    requires Contiguous(attempts, start) && a < b < |attempts|
    ensures attempts[b].first == attempts[a].first + attempts[a].count + Used(attempts[a + 1..b])
  {
    if a + 1 < b {
      UsedBetween(attempts, start, a, b - 1);
      assert attempts[a + 1..b][..b - 1 - (a + 1)] == attempts[a + 1..b - 1];
    }
  }

  /** The invariant */

  // Once a group has tried, its numbers are spent.
  function NextNumber(s: State): nat
    requires QueueInv(s)
  {
    s.lastSequence + 1 + if s.commit.Some? && s.commit.value.phase != Started then |GroupRecords(Group(s))| else 0
  }

  // Record k of the log is the k-th attempt that reached it.
  ghost predicate LogFollows(s: State) {
    var at := Appended(s.attempts);
    && |at| == |s.log|
    && forall k :: 0 <= k < |at| ==>
         at[k] < |s.attempts| && s.attempts[at[k]].first == s.log[k].first && s.attempts[at[k]].count == |s.log[k].records|
  }

  // Only the last record can be missing from the memtable, and after an error it stays so.
  ghost predicate Pending(s: State) {
    && (forall k :: 0 <= k < |s.log| && !s.log[k].applied ==>
          k == |s.log| - 1 && (s.error || (s.commit.Some? && s.commit.value.phase == Logged)))
    && (s.error ==> s.commit.None? || s.commit.value.phase == Failed)
    && (s.commit.Some? && s.commit.value.phase in {Logged, Inserted} ==>
          s.log != [] && s.log[|s.log| - 1].applied == (s.commit.value.phase == Inserted))
  }

  ghost predicate NumbersInv(s: State, start: nat) {
    && QueueInv(s) && Contiguous(s.attempts, start) && EndOf(s.attempts, start) == NextNumber(s)
    && LogFollows(s) && Pending(s)
  }

  lemma AppendedGrows(attempts: seq<Attempt>, a: Attempt)
    ensures Appended(attempts + [a]) == Appended(attempts) + if a.appended then [|attempts|] else []
  {
    assert (attempts + [a])[..|attempts|] == attempts;
  }

  lemma LogFollowsGrows(s: State, appended: bool, synced: bool, t: State)
    requires AppendLog(s, appended, synced, t) && LogFollows(s)
    ensures LogFollows(t)
  {
    hide GroupRecords;
    AppendedGrows(s.attempts, t.attempts[|s.attempts|]);
    hide Appended;
  }

  lemma AppendKeepsNumbers(s: State, appended: bool, synced: bool, t: State, start: nat)
    requires QueueInv(t) && AppendLog(s, appended, synced, t) && NumbersInv(s, start)
    ensures NumbersInv(t, start)
  {
    LogFollowsGrows(s, appended, synced, t);
    assert s.commit.value.first == s.lastSequence + 1;
    hide GroupRecords, LogFollows, QueueInv;
    assert Group(t) == Group(s);
  }

  lemma InsertKeepsNumbers(s: State, t: State, start: nat)
    requires Insert(s, t) && NumbersInv(s, start)
    ensures NumbersInv(t, start)
  {
    hide GroupRecords, Appended;
    assert Group(t) == Group(s);
  }

  lemma ArriveKeepsNumbers(s: State, r: Request, t: State, start: nat)
    requires Arrive(s, r, t) && NumbersInv(s, start) && QueueInv(t)
    ensures NumbersInv(t, start)
  {
    hide GroupRecords, Appended, Contiguous;
    assert s.commit.Some? ==> Group(t) == Group(s);
  }

  lemma LeaveAloneKeepsNumbers(s: State, ok: bool, t: State, start: nat)
    requires LeaveAlone(s, ok, t) && NumbersInv(s, start) && QueueInv(t)
    ensures NumbersInv(t, start)
  {
    hide GroupRecords, Appended, Contiguous;
  }

  lemma BeginKeepsNumbers(s: State, t: State, start: nat)
    requires Begin(s, t) && NumbersInv(s, start) && QueueInv(t)
    ensures NumbersInv(t, start)
  {
    hide GroupRecords, GroupOf, Appended, Contiguous;
  }

  lemma FinishKeepsNumbers(s: State, t: State, start: nat)
    requires Finish(s, t) && NumbersInv(s, start) && QueueInv(t)
    ensures NumbersInv(t, start)
  {
    hide GroupRecords, Appended, Contiguous;
  }

  lemma NextKeepsNumbers(s: State, t: State, start: nat)
    requires Next(s, t) && QueueInv(t) && NumbersInv(s, start)
    ensures NumbersInv(t, start)
  {
    hide NumbersInv, QueueInv, Arrive, LeaveAlone, Begin, AppendLog, Insert, Finish;
    if r :| Arrive(s, r, t) { ArriveKeepsNumbers(s, r, t, start); }
    else if ok :| LeaveAlone(s, ok, t) { LeaveAloneKeepsNumbers(s, ok, t, start); }
    else if Begin(s, t) { BeginKeepsNumbers(s, t, start); }
    else if appended, synced :| AppendLog(s, appended, synced, t) { AppendKeepsNumbers(s, appended, synced, t, start); }
    else if Insert(s, t) { InsertKeepsNumbers(s, t, start); }
    else { FinishKeepsNumbers(s, t, start); }
  }

  lemma {:induction false} RunKeepsNumbers(ss: seq<State>, i: nat)
    requires Run(ss) && i < |ss|
    ensures NumbersInv(ss[i], ss[0].lastSequence + 1)
  {
    hide Next, Inv, NumbersInv;
    if i == 0 {
      var n :| ss[0] == State([], [], 0, None, [], [], n, false, [], {});
      NoNumbersYet(n);
    } else {
      RunKeepsNumbers(ss, i - 1);
      RunKeepsInv(ss, i);
      assert QueueInv(ss[i]) by { InvFacts(ss[i]); }
      NextKeepsNumbers(ss[i - 1], ss[i], ss[0].lastSequence + 1);
    }
  }

  lemma NoNumbersYet(n: nat)
    ensures NumbersInv(State([], [], 0, None, [], [], n, false, [], {}), n + 1)
  {
  }

  lemma InvFacts(s: State)
    requires Inv(s)
    ensures QueueInv(s) && s.mem == Applied(s.log)
  {
  }

  /** The results */

  lemma NoneBetween(attempts: seq<Attempt>, k: nat, c: nat)
    requires k + 1 < |Appended(attempts)| && c in Appended(attempts)
    ensures c <= Appended(attempts)[k] || Appended(attempts)[k + 1] <= c
  {
    var at := Appended(attempts);
    var j :| 0 <= j < |at| && at[j] == c;
    if j <= k {
      assert at[j] <= at[k];
    } else {
      assert at[k + 1] <= at[j];
    }
  }

  // Between two neighbouring records of the log exactly the numbers of the groups are missing whose
  // append failed in between; a and b are the attempts that wrote the two records.
  lemma GapsAreFailures(ss: seq<State>, i: nat, k: nat) returns (a: nat, b: nat)
    requires Run(ss) && i < |ss| && k + 1 < |ss[i].log|
    ensures var s := ss[i];
      && a < b < |s.attempts| && s.attempts[a].appended && s.attempts[b].appended
      && s.attempts[a] == Attempt(s.log[k].first, |s.log[k].records|, true) && s.attempts[b].first == s.log[k + 1].first
      && (forall c :: a < c < b ==> !s.attempts[c].appended)
      && s.log[k + 1].first == s.log[k].first + |s.log[k].records| + Used(s.attempts[a + 1..b])
  {
    RunKeepsNumbers(ss, i);
    var s := ss[i];
    var at := Appended(s.attempts);
    a, b := at[k], at[k + 1];
    assert a in at && b in at;
    UsedBetween(s.attempts, ss[0].lastSequence + 1, a, b);
    forall c | a < c < b
      ensures !s.attempts[c].appended
    {
      if c in at {
        NoneBetween(s.attempts, k, c);
      }
    }
  }

  ghost predicate AllAppended(attempts: seq<Attempt>) {
    forall k :: 0 <= k < |attempts| ==> attempts[k].appended
  }

  lemma {:induction false} AllPositions(attempts: seq<Attempt>)
    requires AllAppended(attempts)
    ensures |Appended(attempts)| == |attempts| && forall k :: 0 <= k < |attempts| ==> Appended(attempts)[k] == k
  {
    if attempts != [] {
      AllPositions(attempts[..|attempts| - 1]);
    }
  }

  // Each record of the log starts where the one before ends.
  ghost predicate Chained(log: seq<LogRecord>, start: nat) {
    && (log != [] ==> log[0].first == start)
    && forall k :: 0 < k < |log| ==> log[k].first == log[k - 1].first + |log[k - 1].records|
  }

  // Numbers from start on, without a gap.
  ghost predicate Consecutive(mem: seq<(nat, Record)>, start: nat) {
    forall k :: 0 <= k < |mem| ==> mem[k].0 == start + k
  }

  lemma ChainedStep(log: seq<LogRecord>, start: nat, k: nat)
    requires Chained(log, start) && k < |log|
    ensures log[k].first == if k == 0 then start else log[k - 1].first + |log[k - 1].records|
  {
  }

  lemma AppendConsecutive(mem: seq<(nat, Record)>, start: nat, rs: seq<Record>)
    requires Consecutive(mem, start)
    ensures Consecutive(mem + Numbered(start + |mem|, rs), start)
  {
  }

  lemma {:induction false} AppliedIsConsecutive(log: seq<LogRecord>, start: nat, n: nat)
    requires n <= |log| && forall k :: 0 <= k < n ==> log[k].applied
    requires Chained(log, start)
    ensures Consecutive(Applied(log[..n]), start)
    ensures n > 0 ==> start + |Applied(log[..n])| == log[n - 1].first + |log[n - 1].records|
  {
    hide Applied, Chained;
    if n > 0 {
      AppliedIsConsecutive(log, start, n - 1);
      if n == 1 {
        NothingApplied(log);
      }
      ChainedStep(log, start, n - 1);
      AppliedStep(log, n - 1);
      AppendConsecutive(Applied(log[..n - 1]), start, log[n - 1].records);
    } else {
      NothingApplied(log);
    }
  }

  lemma AttemptOfRecord(s: State, start: nat, k: nat)
    requires NumbersInv(s, start) && AllAppended(s.attempts) && k < |s.log|
    ensures |s.log| == |s.attempts| && s.attempts[k].first == s.log[k].first && s.attempts[k].count == |s.log[k].records|
  {
    AllPositions(s.attempts);
    hide QueueInv, Appended, Pending, Contiguous;
    assert Appended(s.attempts)[k] == k;
  }

  lemma RecordFollows(s: State, start: nat, k: nat)
    requires NumbersInv(s, start) && AllAppended(s.attempts) && k < |s.log|
    ensures s.log[k].first == if k == 0 then start else s.log[k - 1].first + |s.log[k - 1].records|
  {
    AttemptOfRecord(s, start, k);
    if k > 0 {
      AttemptOfRecord(s, start, k - 1);
    }
    hide QueueInv, Pending, LogFollows;
  }

  lemma LogIsContiguous(s: State, start: nat)
    requires NumbersInv(s, start) && AllAppended(s.attempts)
    ensures Chained(s.log, start)
  {
    hide NumbersInv, AllAppended;
    if s.log != [] {
      RecordFollows(s, start, 0);
    }
    forall k | 0 < k < |s.log|
      ensures s.log[k].first == s.log[k - 1].first + |s.log[k - 1].records|
    {
      RecordFollows(s, start, k);
    }
  }

  lemma AllButLastApplied(s: State, start: nat)
    requires NumbersInv(s, start)
    ensures forall k :: 0 <= k < |s.log| - 1 ==> s.log[k].applied
  {
  }

  lemma MemIsConsecutive(log: seq<LogRecord>, start: nat)
    requires Chained(log, start) && forall k :: 0 <= k < |log| - 1 ==> log[k].applied
    ensures Consecutive(Applied(log), start)
  {
    hide Applied, Consecutive, Chained;
    var n := |log|;
    assert log[..n] == log;
    if n > 0 && !log[n - 1].applied {
      AppliedIsConsecutive(log, start, n - 1);
      AppliedStep(log, n - 1);
    } else {
      AppliedIsConsecutive(log, start, n);
    }
  }

  // As long as every append succeeds, log records follow each other without a gap, and so do the
  // numbers in the memtable, from the one after the sequence number that the store started with.
  lemma NumbersAreContiguous(ss: seq<State>, i: nat)
    requires Run(ss) && i < |ss| && AllAppended(ss[i].attempts)
    ensures Chained(ss[i].log, ss[0].lastSequence + 1) && Consecutive(ss[i].mem, ss[0].lastSequence + 1)
  {
    hide *;
    RunKeepsNumbers(ss, i);
    LogIsContiguous(ss[i], ss[0].lastSequence + 1);
    RunKeepsInv(ss, i);
    InvFacts(ss[i]);
    AllButLastApplied(ss[i], ss[0].lastSequence + 1);
    MemIsConsecutive(ss[i].log, ss[0].lastSequence + 1);
  }
}
