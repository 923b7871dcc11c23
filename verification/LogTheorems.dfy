/** What the reader makes of what the writer wrote, whole or cut short by a crash. */
module LogTheorems {
  import opened Keys
  import opened Wrappers
  import opened Coding
  import opened LogFormat
  import opened LogReader
  import opened LogWriter

  // From offset n on the file is w, as far as the file goes.
  ghost predicate Continues(file: Bytes, n: nat, w: Bytes) {
    n <= |file| && forall k :: 0 <= k < |w| && n + k < |file| ==> file[n + k] == w[k]
  }

  lemma ContinuesParts(file: Bytes, n: nat, a: Bytes, b: Bytes)
    requires Continues(file, n, a + b)
    ensures Continues(file, n, a)
    ensures n + |a| <= |file| ==> Continues(file, n + |a|, b)
  {
    forall k | 0 <= k < |a| && n + k < |file|
      ensures file[n + k] == a[k]
    {
      assert (a + b)[k] == a[k];
    }
    forall k | 0 <= k < |b| && n + |a| + k < |file|
      ensures file[n + |a| + k] == b[k]
    {
      assert (a + b)[|a| + k] == b[k] && file[n + (|a| + k)] == (a + b)[|a| + k];
    }
  }

  function BlockEnd(p: nat): nat {
    p - p % BLOCK_SIZE + BLOCK_SIZE
  }

  // The state with the block around p in the buffer, p and everything before it consumed.
  function InBlock(file: Bytes, p: nat, end: nat, d: seq<Drop>): State {
    State(p, Min(|file|, end), |file| < end, d)
  }

  // The state of a reader that has consumed the file up to p.
  function StateAt(file: Bytes, p: nat, d: seq<Drop>): State {
    if p % BLOCK_SIZE == 0 then State(p, p, false, d) else InBlock(file, p, BlockEnd(p), d)
  }

  lemma StateAtIsWithin(file: Bytes, p: nat, d: seq<Drop>)
    requires p <= |file|
    ensures Within(file, StateAt(file, p, d))
  {
  }

  // The reader's first step from offset n: step over a trailer, load a block.
  function Loaded(file: Bytes, n: nat, d: seq<Drop>): (r: State)
    requires n <= |file|
    ensures Within(file, r)
  {
    StateAtIsWithin(file, n, d);
    var st := StateAt(file, n, d);
    if st.end - st.start < HEADER_SIZE && !st.eof then Load(file, st) else st
  }

  lemma LoadedFacts(file: Bytes, n: nat, d: seq<Drop>)
    requires n <= |file|
    ensures var m, st := n + Padding(n), Loaded(file, n, d);
      && st.drops == d
      && (m + HEADER_SIZE <= |file| ==> st == InBlock(file, m, BlockEnd(m), d))
      && (m + HEADER_SIZE > |file| ==> st.end - st.start < HEADER_SIZE)
  {
  }

  // After a physical record that ends at p in the block that ends at end.
  lemma AfterRecord(file: Bytes, m: nat, p: nat, d: seq<Drop>)
    requires m % BLOCK_SIZE + (p - m) <= BLOCK_SIZE && m < p <= |file|
    ensures InBlock(file, p, BlockEnd(m), d) == StateAt(file, p, d)
  {
  }

  lemma ParsesRecord(crc: Checksum, checksum: bool, file: Bytes, m: nat, t: byte, payload: Bytes, d: seq<Drop>)
    requires |payload| <= 0xffff && m % BLOCK_SIZE + HEADER_SIZE + |payload| <= BLOCK_SIZE
    requires m + HEADER_SIZE <= |file| && t != ZERO_TYPE
    requires Continues(file, m, Physical(crc, t, payload))
    ensures var st, p := InBlock(file, m, BlockEnd(m), d), m + HEADER_SIZE + |payload|;
      && Within(file, st) && st.start + HEADER_SIZE <= st.end
      && (p <= |file| ==> Parse(crc, checksum, file, st) == PhysicalResult(t, payload, StateAt(file, p, d)))
      && (p > |file| ==> Parse(crc, checksum, file, st) == PhysicalResult(EOF_RESULT, [], Discard(st)))
  {
    var p := m + HEADER_SIZE + |payload|;
    InBlockFacts(file, m, p, d);
    HeaderBytes(crc, file, m, t, payload);
    hide Continues, Physical, LengthAt, StateAt, Within, InBlock, ChecksumMatches;
    if p <= |file| {
      PayloadBytes(crc, file, m, t, payload);
      AfterRecord(file, m, p, d);
    }
  }

  lemma InBlockFacts(file: Bytes, m: nat, p: nat, d: seq<Drop>)
    requires m + HEADER_SIZE <= |file| && m + HEADER_SIZE <= p && m % BLOCK_SIZE + (p - m) <= BLOCK_SIZE
    ensures var st := InBlock(file, m, BlockEnd(m), d);
      && Within(file, st) && st.start == m && m + HEADER_SIZE <= st.end
      && (p <= |file| ==> p <= st.end && st.(start := p) == InBlock(file, p, BlockEnd(m), d))
      && (p > |file| ==> p > st.end && st.eof)
  {
  }

  lemma HeaderBytes(crc: Checksum, file: Bytes, m: nat, t: byte, payload: Bytes)
    requires |payload| <= 0xffff && m + HEADER_SIZE <= |file|
    requires Continues(file, m, Physical(crc, t, payload))
    ensures file[m + 6] == t && LengthAt(file, m) == |payload|
    ensures file[m..m + 4] == Fixed32(Mask(crc([t] + payload)))
  {
    var w := Physical(crc, t, payload);
    assert w[4] == |payload| % 256 && w[5] == |payload| / 256 && w[6] == t;
    assert file[m + 4] == w[4] && file[m + 5] == w[5] && file[m + 6] == w[6];
    assert w[..4] == Fixed32(Mask(crc([t] + payload)));
    forall k | 0 <= k < 4
      ensures file[m..m + 4][k] == w[..4][k]
    {
      assert file[m + k] == w[k];
    }
  }

  lemma PayloadBytes(crc: Checksum, file: Bytes, m: nat, t: byte, payload: Bytes)
    requires |payload| <= 0xffff && m + HEADER_SIZE + |payload| <= |file|
    requires Continues(file, m, Physical(crc, t, payload))
    ensures file[m + HEADER_SIZE..m + HEADER_SIZE + |payload|] == payload
    ensures LengthAt(file, m) == |payload| && ChecksumMatches(crc, file, m)
  {
    var w := Physical(crc, t, payload);
    var p := m + HEADER_SIZE;
    HeaderBytes(crc, file, m, t, payload);
    forall k | 0 <= k < |payload|
      ensures file[p + k] == payload[k]
    {
      assert w[HEADER_SIZE + k] == payload[k] && file[m + (HEADER_SIZE + k)] == w[HEADER_SIZE + k];
    }
    assert file[p..p + |payload|] == payload;
    assert file[m + 6..p + |payload|] == [t] + payload;
    Fixed32RoundTrip(Mask(crc([t] + payload)));
    UnmaskInvertsMask(crc([t] + payload));
  }

  // One fragment: read if it is all there, taken for the end of the file if not.
  lemma ReadsFragment(crc: Checksum, checksum: bool, file: Bytes, n: nat, data: Bytes, begin: bool, d: seq<Drop>)
    requires n <= |file| && Continues(file, n, Fragment(crc, n, data, begin))
    ensures Within(file, StateAt(file, n, d))
    ensures
      var k, p := FragmentLength(n, |data|), n + |Fragment(crc, n, data, begin)|;
      var r := ReadPhysical(crc, checksum, file, StateAt(file, n, d));
      && (p <= |file| ==> r == PhysicalResult(TypeOf(begin, k == |data|), data[..k], StateAt(file, p, d)))
      && (p > |file| ==> r.kind == EOF_RESULT && r.state.drops == d)
  {
    hide Parse, Continues, Physical;
    var m, k := n + Padding(n), FragmentLength(n, |data|);
    StateAtIsWithin(file, n, d);
    LoadedFacts(file, n, d);
    RoomFacts(n);
    ContinuesParts(file, n, Zeros(Padding(n)), Physical(crc, TypeOf(begin, k == |data|), data[..k]));
    hide Continues, Physical, StateAt, Padding, Room, Parse, Loaded, TypeOf, Within;
    if m + HEADER_SIZE <= |file| {
      ParsesRecord(crc, checksum, file, m, TypeOf(begin, k == |data|), data[..k], d);
    }
  }

  // The steps of ReadLogical that a well-formed log goes through.
  lemma LogicalStep(crc: Checksum, checksum: bool, file: Bytes, st: State, scratch: Bytes, begin: bool)
    requires Within(file, st) && (begin ==> scratch == [])
    ensures
      var p := ReadPhysical(crc, checksum, file, st);
      var r := ReadLogical(crc, checksum, file, st, scratch, !begin);
      && (p.kind == TypeOf(begin, true) ==> r == LogicalResult(Some(scratch + p.fragment), p.state))
      && (p.kind == TypeOf(begin, false) ==> r == ReadLogical(crc, checksum, file, p.state, scratch + p.fragment, true))
      && (p.kind == EOF_RESULT ==> r == LogicalResult(None, p.state))
  {
    hide ReadPhysical;
    var p := ReadPhysical(crc, checksum, file, st);
    assert begin ==> scratch + p.fragment == p.fragment;
  }

  lemma EncodeContinues(crc: Checksum, file: Bytes, n: nat, data: Bytes, begin: bool)
    requires n <= |file| && Continues(file, n, Encode(crc, n, data, begin))
    ensures
      var k, f := FragmentLength(n, |data|), Fragment(crc, n, data, begin);
      && Continues(file, n, f)
      && (n + |f| <= |file| && k < |data| ==> Continues(file, n + |f|, Encode(crc, n + |f|, data[k..], false)))
  {
    hide Continues, Fragment, FragmentLength, Room, Encode, Padding;
    var k, f := FragmentLength(n, |data|), Fragment(crc, n, data, begin);
    EncodeSplits(crc, n, data, begin);
    ContinuesParts(file, n, f, if k == |data| then [] else Encode(crc, n + |f|, data[k..], false));
  }

  // One fragment of what is left of a record.
  lemma ReadsPart(crc: Checksum, checksum: bool, file: Bytes, n: nat, data: Bytes, begin: bool, scratch: Bytes, d: seq<Drop>)
    requires n <= |file| && Continues(file, n, Encode(crc, n, data, begin))
    requires begin ==> scratch == []
    ensures Within(file, StateAt(file, n, d))
    ensures
      var k, next := FragmentLength(n, |data|), n + |Fragment(crc, n, data, begin)|;
      var r := ReadLogical(crc, checksum, file, StateAt(file, n, d), scratch, !begin);
      && (next > |file| ==> r.record == None && r.state.drops == d)
      && (next <= |file| && k == |data| ==> r == LogicalResult(Some(scratch + data), StateAt(file, next, d)))
      && (next <= |file| && k < |data| ==>
            && Continues(file, next, Encode(crc, next, data[k..], false))
            && Within(file, StateAt(file, next, d))
            && r == ReadLogical(crc, checksum, file, StateAt(file, next, d), scratch + data[..k], true))
  {
    hide Continues, StateAt, Fragment, ReadPhysical, ReadLogical, FragmentLength, Room, Within, Encode, TypeOf, Padding;
    EncodeContinues(crc, file, n, data, begin);
    ReadsFragment(crc, checksum, file, n, data, begin, d);
    LogicalStep(crc, checksum, file, StateAt(file, n, d), scratch, begin);
    assert data[..|data|] == data;
  }

  // What is left of one record.
  lemma {:induction false} ReadsRecord(crc: Checksum, checksum: bool, file: Bytes, n: nat, data: Bytes, begin: bool,
                                       scratch: Bytes, d: seq<Drop>)
    requires n <= |file| && Continues(file, n, Encode(crc, n, data, begin))
    requires begin ==> scratch == []
    ensures Within(file, StateAt(file, n, d))
    ensures
      var p := n + |Encode(crc, n, data, begin)|;
      var r := ReadLogical(crc, checksum, file, StateAt(file, n, d), scratch, !begin);
      && (p <= |file| ==> r == LogicalResult(Some(scratch + data), StateAt(file, p, d)))
      && (p > |file| ==> r.record == None && r.state.drops == d)
    decreases |data|, if Room(n) == 0 then 1 else 0
  {
    hide Continues, StateAt, Fragment, ReadLogical, FragmentLength, Room, Within, Encode, Padding;
    var k, next := FragmentLength(n, |data|), n + |Fragment(crc, n, data, begin)|;
    EncodeSplits(crc, n, data, begin);
    ReadsPart(crc, checksum, file, n, data, begin, scratch, d);
    if next <= |file| && k < |data| {
      var more := scratch + data[..k];
      ReadsRecord(crc, checksum, file, next, data[k..], false, more, d);
      assert more + data[k..] == scratch + data;
    }
  }

  lemma EncodeSplits(crc: Checksum, n: nat, data: Bytes, begin: bool)
    ensures var k, f := FragmentLength(n, |data|), Fragment(crc, n, data, begin);
      && Encode(crc, n, data, begin) == f + (if k == |data| then [] else Encode(crc, n + |f|, data[k..], false))
      && (k < |data| ==> k > 0 || (Room(n) == 0 && Room(n + |f|) > 0))
  {
  }

  // How many of the records are completely in a file of the given length.
  function Complete(crc: Checksum, n: nat, records: seq<Bytes>, length: nat): (r: nat)
    ensures r <= |records|
    decreases |records|
  {
    if records == [] then 0
    else
      var p := n + |Encode(crc, n, records[0], true)|;
      if p > length then 0 else 1 + Complete(crc, p, records[1..], length)
  }

  lemma {:induction false} CompleteIs(crc: Checksum, n: nat, records: seq<Bytes>, length: nat, i: nat)
    requires i <= |records| && n <= length
    ensures i <= Complete(crc, n, records, length) <==> n + |Log(crc, n, records[..i])| <= length
    decreases |records|
  {
    hide Encode;
    if i > 0 {
      var p := n + |Encode(crc, n, records[0], true)|;
      LogOfFirst(crc, n, records[..i]);
      assert records[..i][1..] == records[1..][..i - 1];
      if p <= length {
        CompleteIs(crc, p, records[1..], length, i - 1);
      }
    }
  }

  lemma ReadsFirst(crc: Checksum, checksum: bool, file: Bytes, n: nat, records: seq<Bytes>, d: seq<Drop>)
    requires n <= |file| && records != [] && Continues(file, n, Log(crc, n, records))
    ensures Within(file, StateAt(file, n, d))
    ensures
      var p := n + |Encode(crc, n, records[0], true)|;
      var r := ReadAll(crc, checksum, file, StateAt(file, n, d));
      && (p > |file| ==> r.records == [] && r.state.drops == d)
      && (p <= |file| ==>
            && Continues(file, p, Log(crc, p, records[1..]))
            && |Log(crc, n, records)| == p - n + |Log(crc, p, records[1..])|
            && Within(file, StateAt(file, p, d))
            && var more := ReadAll(crc, checksum, file, StateAt(file, p, d));
               r == AllResult([records[0]] + more.records, more.state))
  {
    hide Continues, StateAt, ReadLogical, ReadAll, Log, Within, Encode;
    var e := Encode(crc, n, records[0], true);
    LogOfFirst(crc, n, records);
    ContinuesParts(file, n, e, Log(crc, n + |e|, records[1..]));
    ReadsRecord(crc, checksum, file, n, records[0], true, [], d);
    assert [] + records[0] == records[0];
    AllStep(crc, checksum, file, StateAt(file, n, d));
  }

  lemma {:induction false} ReadsLog(crc: Checksum, checksum: bool, file: Bytes, n: nat, records: seq<Bytes>, d: seq<Drop>)
    requires n <= |file| && Continues(file, n, Log(crc, n, records))
    requires |file| <= n + |Log(crc, n, records)|
    ensures Within(file, StateAt(file, n, d))
    ensures var r := ReadAll(crc, checksum, file, StateAt(file, n, d));
      r.records == records[..Complete(crc, n, records, |file|)] && r.state.drops == d
    decreases |records|
  {
    hide Continues, StateAt, ReadLogical, ReadAll, Log, Within, Encode, Complete;
    StateAtIsWithin(file, n, d);
    CompleteStep(crc, n, records, |file|);
    if records == [] {
      assert |Log(crc, n, records)| == 0 by { LogOfNone(crc, n); }
      ReadsNothing(crc, checksum, file, d);
    } else {
      ReadsFirst(crc, checksum, file, n, records, d);
      var p := n + |Encode(crc, n, records[0], true)|;
      if p > |file| {
        assert records[..0] == [];
      } else {
        ReadsLog(crc, checksum, file, p, records[1..], d);
        var c := Complete(crc, p, records[1..], |file|);
        assert records[..1 + c] == [records[0]] + records[1..][..c];
      }
    }
  }

  lemma LogOfNone(crc: Checksum, n: nat)
    ensures Log(crc, n, []) == []
  {
  }

  lemma CompleteStep(crc: Checksum, n: nat, records: seq<Bytes>, length: nat)
    ensures records == [] ==> Complete(crc, n, records, length) == 0
    ensures records != [] ==> var p := n + |Encode(crc, n, records[0], true)|;
      Complete(crc, n, records, length) == if p > length then 0 else 1 + Complete(crc, p, records[1..], length)
  {
  }

  lemma AllStep(crc: Checksum, checksum: bool, file: Bytes, st: State)
    requires Within(file, st)
    ensures
      var one, r := ReadLogical(crc, checksum, file, st, [], false), ReadAll(crc, checksum, file, st);
      && (one.record.None? ==> r == AllResult([], one.state))
      && (one.record.Some? ==> var more := ReadAll(crc, checksum, file, one.state);
          r == AllResult([one.record.value] + more.records, more.state))
  {
  }

  lemma ReadsNothing(crc: Checksum, checksum: bool, file: Bytes, d: seq<Drop>)
    ensures var st := StateAt(file, |file|, d);
      Within(file, st) && ReadAll(crc, checksum, file, st).records == [] && ReadAll(crc, checksum, file, st).state.drops == d
  {
  }

  /** After a crash that kept only a prefix of the bytes, the reader returns exactly the records
      that are completely in it, and reports no corruption. */
  lemma CrashPrefix(crc: Checksum, checksum: bool, records: seq<Bytes>, length: nat)
    requires length <= |Log(crc, 0, records)|
    ensures
      var r := ReadAll(crc, checksum, Log(crc, 0, records)[..length], START);
      && r.records <= records && r.state.drops == []
      && forall i :: 0 <= i <= |records| ==> (i <= |r.records| <==> |Log(crc, 0, records[..i])| <= length)
  {
    var file := Log(crc, 0, records)[..length];
    assert StateAt(file, 0, []) == START;
    ReadsLog(crc, checksum, file, 0, records, []);
    forall i | 0 <= i <= |records|
      ensures i <= Complete(crc, 0, records, length) <==> |Log(crc, 0, records[..i])| <= length
    {
      CompleteIs(crc, 0, records, length, i);
    }
  }

  /** The reader returns exactly the records that were written, in any number of sessions. */
  lemma RoundTrip(crc: Checksum, checksum: bool, first: seq<Bytes>, second: seq<Bytes>)
    ensures
      var file := Log(crc, 0, first) + Log(crc, |Log(crc, 0, first)|, second);
      var r := ReadAll(crc, checksum, file, START);
      r.records == first + second && r.state.drops == []
  {
    hide Log, ReadAll;
    var records := first + second;
    var file := Log(crc, 0, records);
    LogInTwoSessions(crc, 0, first, second);
    CrashPrefix(crc, checksum, records, |file|);
    assert file[..|file|] == file && records[..|records|] == records;
  }

  /** Reading record by record */

  // A report, once made, stays.
  lemma {:induction false} ReportsStay(crc: Checksum, checksum: bool, file: Bytes, st: State, scratch: Bytes, fragmented: bool)
    requires Within(file, st)
    ensures st.drops <= ReadLogical(crc, checksum, file, st, scratch, fragmented).state.drops
    decreases |file| - st.start
  {
    hide ReadPhysical, TurnOf;
    ReportStays(crc, checksum, file, st);
    var turn := TurnOf(ReadPhysical(crc, checksum, file, st), scratch, fragmented);
    if turn.Again? {
      ReportsStay(crc, checksum, file, turn.state, turn.scratch, turn.fragmented);
    }
  }

  lemma ReportStays(crc: Checksum, checksum: bool, file: Bytes, st: State)
    requires Within(file, st)
    ensures st.drops <= ReadPhysical(crc, checksum, file, st).state.drops
  {
  }

  // Where the reader stands after i records of an uncut list.
  ghost predicate ReadSoFar(crc: Checksum, image: Bytes, st: State, left: seq<Bytes>) {
    && Within(image, st)
    && ReadAll(crc, true, image, st).records == left && ReadAll(crc, true, image, st).state.drops == []
  }

  lemma {:induction false} NoReports(crc: Checksum, image: Bytes, st: State)
    requires Within(image, st)
    ensures st.drops <= ReadAll(crc, true, image, st).state.drops
    decreases |image| - st.start
  {
    hide ReadLogical;
    ReportsStay(crc, true, image, st, [], false);
    var one := ReadLogical(crc, true, image, st, [], false);
    if one.record.Some? {
      NoReports(crc, image, one.state);
    }
  }

  lemma ReadsNext(crc: Checksum, image: Bytes, st: State, left: seq<Bytes>)
    requires ReadSoFar(crc, image, st, left)
    ensures st.drops == []
    ensures var one := ReadLogical(crc, true, image, st, [], false);
      && one.state.drops == []
      && (one.record.None? <==> left == [])
      && (one.record.Some? ==> one.record.value == left[0] && ReadSoFar(crc, image, one.state, left[1..]))
  {
    hide ReadLogical, ReadAll;
    NoReports(crc, image, st);
    AllStep(crc, true, image, st);
    var one := ReadLogical(crc, true, image, st, [], false);
    if one.record.Some? {
      NoReports(crc, image, one.state);
    }
  }

  /** Programs: records written one by one, a crash that keeps the first bytes of the file, and a new
      reader that is asked for records until it has none. */
  method WriteAndRead(crc: Checksum, records: seq<Bytes>, length: nat) returns (read: seq<Bytes>, reported: bool)
    ensures read <= records && !reported
    ensures forall i :: 0 <= i <= |records| ==> (i <= |read| <==> |Log(crc, 0, records[..i])| <= length)
  {
    hide Log, ReadAll, ReadLogical, Within;
    var writer := new Writer(crc, []);
    NoRecords(crc);
    for i := 0 to |records|
      invariant writer.Valid() && writer.crc == crc && writer.dest == Log(crc, 0, records[..i])
    {
      LogGrows(crc, records, i);
      writer.AddRecord(records[i]);
    }
    assert records[..|records|] == records;
    var n := if length <= |writer.dest| then length else |writer.dest|;
    var image := writer.dest[..n];
    CrashPrefix(crc, true, records, n);
    LogPrefixes(crc, records);
    var reader := new Reader(crc, true, image);
    ghost var all := ReadAll(crc, true, image, START);
    assert all == ReadAll(crc, true, image, reader.Abs());
    read := [];
    while true
      invariant reader.Valid() && reader.crc == crc && reader.checksum && reader.file == image
      invariant read + ReadAll(crc, true, image, reader.Abs()).records == all.records
      invariant ReadAll(crc, true, image, reader.Abs()).state == all.state
      decreases |image| - reader.Abs().start
    {
      AllStep(crc, true, image, reader.Abs());
      ghost var st := reader.Abs();
      var ok, record := reader.ReadRecord();
      if !ok {
        break;
      }
      ReadAdvances(crc, true, image, st);
      read := read + [record];
    }
    reported := reader.drops != [];
  }

  lemma LogPrefixes(crc: Checksum, records: seq<Bytes>)
    ensures forall i :: 0 <= i <= |records| ==> |Log(crc, 0, records[..i])| <= |Log(crc, 0, records)|
  {
    hide Log;
    forall i | 0 <= i <= |records|
      ensures |Log(crc, 0, records[..i])| <= |Log(crc, 0, records)|
    {
      LogInTwoSessions(crc, 0, records[..i], records[i..]);
      assert records[..i] + records[i..] == records;
    }
  }

  lemma NoRecords(crc: Checksum)
    ensures Log(crc, 0, []) == []
  {
  }

  lemma LogGrows(crc: Checksum, records: seq<Bytes>, i: nat)
    requires i < |records|
    ensures Log(crc, 0, records[..i + 1]) == Log(crc, 0, records[..i]) + Encode(crc, |Log(crc, 0, records[..i])|, records[i], true)
  {
    hide Encode;
    assert records[..i + 1] == records[..i] + [records[i]];
    LogInTwoSessions(crc, 0, records[..i], [records[i]]);
    LogOfFirst(crc, |Log(crc, 0, records[..i])|, [records[i]]);
  }

  lemma ReadAdvances(crc: Checksum, checksum: bool, file: Bytes, st: State)
    requires Within(file, st)
    ensures var one := ReadLogical(crc, checksum, file, st, [], false);
      Within(file, one.state) && (one.record.Some? ==> one.state.start > st.start)
  {
  }
}
