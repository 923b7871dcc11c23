/** A write without a batch asks for the memtable to be switched. It gets that only at the head of the queue. */
module ForcedSwitch {
  import opened Wrappers
  import opened WriteBatches
  import opened GroupCommit

  ghost predicate Succeeded(s: State, w: nat) {
    w < s.front <= |s.requests| == |s.outcomes| && s.requests[w].batch.None? && s.outcomes[w] == Done(true)
  }

  // w went with the group of some log record.
  ghost predicate InGroup(log: seq<LogRecord>, w: nat) {
    exists k :: 0 <= k < |log| && log[k].from <= w < log[k].to
  }

  ghost predicate ForcedInv(s: State) {
    && (forall w :: w in s.forced ==> w < s.front && !InGroup(s.log, w))
    && (forall w: nat :: Succeeded(s, w) ==> w in s.forced || InGroup(s.log, w))
  }

  lemma SameGroups(a: seq<LogRecord>, b: seq<LogRecord>, w: nat)
    requires |a| == |b| && forall k :: 0 <= k < |a| ==> a[k].from == b[k].from && a[k].to == b[k].to
    ensures InGroup(a, w) <==> InGroup(b, w)
  {
    if InGroup(a, w) {
      var k :| 0 <= k < |a| && a[k].from <= w < a[k].to;
      assert b[k].from <= w < b[k].to;
    }
    if InGroup(b, w) {
      var k :| 0 <= k < |b| && b[k].from <= w < b[k].to;
      assert a[k].from <= w < a[k].to;
    }
  }

  lemma AppendKeepsForced(s: State, appended: bool, synced: bool, t: State)
    requires AppendLog(s, appended, synced, t) && ForcedInv(s)
    ensures ForcedInv(t)
  {
    hide GroupRecords;
    forall w: nat | InGroup(s.log, w)
      ensures InGroup(t.log, w)
    {
      var k :| 0 <= k < |s.log| && s.log[k].from <= w < s.log[k].to;
      assert t.log[k].from <= w < t.log[k].to;
    }
    forall w | w in s.forced
      ensures !InGroup(t.log, w)
    {
      forall k | 0 <= k < |t.log|
        ensures !(t.log[k].from <= w < t.log[k].to)
      {
        assert k < |s.log| ==> t.log[k] == s.log[k];
      }
    }
  }

  lemma LeaveAloneKeepsForced(s: State, ok: bool, t: State)
    requires LogInv(s) && LeaveAlone(s, ok, t) && ForcedInv(s)
    ensures ForcedInv(t)
  {
    hide GroupRecords;
    forall k | 0 <= k < |s.log|
      ensures !(s.log[k].from <= s.front < s.log[k].to)
    {
      assert LogRecordOk(s, s.log[k]);
    }
    forall w: nat | Succeeded(t, w) && w != s.front
      ensures Succeeded(s, w)
    {
    }
  }

  lemma FinishKeepsForced(s: State, t: State)
    requires LogInv(s) && Finish(s, t) && ForcedInv(s)
    ensures ForcedInv(t)
  {
    hide GroupRecords, LogRecordOk;
    forall w: nat | Succeeded(t, w)
      ensures Succeeded(s, w) || InGroup(t.log, w)
    {
      if w >= s.front {
        var k := |s.log| - 1;
        assert s.log[k].from <= w < s.log[k].to;
      }
    }
  }

  lemma NextKeepsForced(s: State, t: State)
    requires Inv(s) && Next(s, t) && ForcedInv(s)
    ensures ForcedInv(t)
  {
    hide GroupRecords, GroupOf, LogInv, ForcedInv, InGroup, LeaveAlone, AppendLog, Finish;
    if r :| Arrive(s, r, t) {
      ArriveKeepsForced(s, r, t);
    } else if ok :| LeaveAlone(s, ok, t) {
      LeaveAloneKeepsForced(s, ok, t);
    } else if appended, synced :| AppendLog(s, appended, synced, t) {
      AppendKeepsForced(s, appended, synced, t);
    } else if Finish(s, t) {
      FinishKeepsForced(s, t);
    } else if Insert(s, t) {
      InsertKeepsForced(s, t);
    } else {
      assert Begin(s, t);
      BeginKeepsForced(s, t);
    }
  }

  lemma ArriveKeepsForced(s: State, r: Request, t: State)
    requires QueueInv(s) && Arrive(s, r, t) && ForcedInv(s)
    ensures ForcedInv(t)
  {
    hide InGroup;
    forall w: nat | Succeeded(t, w)
      ensures Succeeded(s, w)
    {
    }
  }

  lemma InsertKeepsForced(s: State, t: State)
    requires Insert(s, t) && ForcedInv(s)
    ensures ForcedInv(t)
  {
    hide GroupRecords;
    forall w: nat
      ensures InGroup(s.log, w) <==> InGroup(t.log, w)
    {
      SameGroups(s.log, t.log, w);
    }
    hide InGroup;
    forall w: nat | Succeeded(t, w)
      ensures Succeeded(s, w)
    {
    }
  }

  lemma BeginKeepsForced(s: State, t: State)
    requires Begin(s, t) && ForcedInv(s)
    ensures ForcedInv(t)
  {
    hide GroupOf, InGroup;
    forall w: nat | Succeeded(t, w)
      ensures Succeeded(s, w)
    {
    }
  }

  lemma {:induction false} RunKeepsForced(ss: seq<State>, i: nat)
    requires Run(ss) && i < |ss|
    ensures ForcedInv(ss[i])
  {
    hide Next, Inv;
    if i > 0 {
      RunKeepsForced(ss, i - 1);
      RunKeepsInv(ss, i - 1);
      hide ForcedInv;
      NextKeepsForced(ss[i - 1], ss[i]);
    }
  }

  // A writer without a batch that was told it succeeded had the memtable switched for it if and only
  // if no leader took it into a group.
  lemma SwitchedIff(ss: seq<State>, i: nat, w: nat)
    requires Run(ss) && i < |ss| && Succeeded(ss[i], w)
    ensures w in ss[i].forced <==> !InGroup(ss[i].log, w)
  {
    RunKeepsForced(ss, i);
  }

  const PUT: Record := Put([], [])

  // One writer with a batch, and one without that arrives before the first is done.
  function JoinedRun(): seq<State> {
    var a, b := Request(Some([PUT]), 1, false), Request(None, 0, false);
    var entry := LogRecord(0, 2, 1, [PUT], false, false);
    var tried := [Attempt(1, 1, true)];
    [State([], [], 0, None, [], [], 0, false, [], {}),
     State([a], [Waiting], 0, None, [], [], 0, false, [], {}),
     State([a, b], [Waiting, Waiting], 0, None, [], [], 0, false, [], {}),
     State([a, b], [Waiting, Waiting], 0, Some(Commit(2, 1, Started)), [], [], 0, false, [], {}),
     State([a, b], [Waiting, Waiting], 0, Some(Commit(2, 1, Logged)), [entry], [], 0, false, tried, {}),
     State([a, b], [Waiting, Waiting], 0, Some(Commit(2, 1, Inserted)), [entry.(applied := true)], [(1, PUT)], 0, false, tried, {}),
     State([a, b], [Done(true), Done(true)], 2, None, [entry.(applied := true)], [(1, PUT)], 1, false, tried, {})]
  }

  lemma JoinedGroup()
    ensures var a, b := Request(Some([PUT]), 1, false), Request(None, 0, false);
      GroupOf([a, b]) == 2 && GroupRecords([a, b]) == [PUT]
  {
    var a, b := Request(Some([PUT]), 1, false), Request(None, 0, false);
    assert [a, b][..1] == [a] && [a][..0] == [];
    assert GroupRecords([]) == [];
    assert GroupRecords([a]) == [PUT];
  }

  // It is told that it succeeded, although no switch was made for it.
  lemma JoinsWithoutSwitch() returns (ss: seq<State>)
    ensures Run(ss) && |ss| == 7 && Succeeded(ss[6], 1) && 1 !in ss[6].forced && InGroup(ss[6].log, 1)
  {
    ss := JoinedRun();
    hide Next, InGroup;
    JoinedArrivals();
    JoinedCommit();
    assert forall i :: 0 <= i < 6 ==> Next(ss[i], ss[i + 1]);
    JoinedIn();
  }

  lemma JoinedArrivals()
    ensures forall i :: 0 <= i < 3 ==> Next(JoinedRun()[i], JoinedRun()[i + 1])
  {
    var ss := JoinedRun();
    hide GroupOf, GroupRecords;
    JoinedGroup();
    var rs := ss[3].requests;
    assert rs[0..] == rs;
    assert Arrive(ss[0], rs[0], ss[1]);
    assert Arrive(ss[1], rs[1], ss[2]);
    assert Begin(ss[2], ss[3]);
  }

  lemma JoinedCommit()
    ensures forall i :: 3 <= i < 6 ==> Next(JoinedRun()[i], JoinedRun()[i + 1])
  {
    var ss := JoinedRun();
    hide GroupOf, GroupRecords;
    JoinedGroup();
    var rs := ss[3].requests;
    assert rs[0..2] == rs;
    assert AppendLog(ss[3], true, false, ss[4]);
    assert Insert(ss[4], ss[5]);
    assert Finish(ss[5], ss[6]);
  }

  lemma JoinedIn()
    ensures InGroup(JoinedRun()[6].log, 1)
  {
    assert JoinedRun()[6].log[0].from <= 1 < JoinedRun()[6].log[0].to;
  }
}
