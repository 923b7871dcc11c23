/** What the log reader makes of a file with any bytes in it: it delivers exactly the unbroken runs of
    physical records that make up a record, and every byte it gives up is reported. */
module LogReads {
  import opened Keys
  import opened Wrappers
  import opened Coding
  import opened LogFormat
  import opened LogReader

  /** Physical records */

  // A physical record with a matching checksum, in place.
  ghost predicate RecordAt(crc: Checksum, file: Bytes, p: nat, t: byte, payload: Bytes) {
    && p + 7 + |payload| <= |file|
    && HasLength(file, p, |payload|) && file[p + 6] == t
    && file[p + 7..p + 7 + |payload|] == payload
    && DecodeFixed(file[p..p + 4]) == Mask(crc(file[p + 6..p + 7 + |payload|]))
  }

  predicate HasLength(file: Bytes, p: nat, n: nat) {
    p + 7 <= |file| && var low: nat, high: nat := file[p + 4], file[p + 5]; low + 256 * high == n
  }

  // It also has to end in its block; a header without type and length is only room set aside.
  ghost predicate Intact(crc: Checksum, file: Bytes, st: State, t: byte, payload: Bytes) {
    RecordAt(crc, file, st.start, t, payload) && st.start + 7 + |payload| <= st.end && !(t == 0 && payload == [])
  }

  // An intact record is delivered as it is.
  lemma DeliversIntact(crc: Checksum, file: Bytes, st: State, t: byte, payload: Bytes)
    requires Within(file, st) && st.start + 7 <= st.end && Intact(crc, file, st, t, payload)
    ensures ReadPhysical(crc, true, file, st) == PhysicalResult(t, payload, st.(start := st.start + 7 + |payload|))
  {
    MatchesIff(crc, file, st.start);
    hide ChecksumMatches, DecodeFixed, Mask;
  }

  // Anything else costs the rest of the block, which is reported, except that a record cut off by the end
  // of the file counts as the end, and room set aside is passed over.
  lemma SkipsTheRest(crc: Checksum, file: Bytes, st: State, n: nat)
    requires Within(file, st) && st.start + 7 <= st.end && HasLength(file, st.start, n)
    requires forall t, payload :: !Intact(crc, file, st, t, payload)
    ensures var r, lost := ReadPhysical(crc, true, file, st), st.end - st.start;
      && r.fragment == []
      && (if 7 + n > lost && st.eof then r.kind == 5 && r.state == st.(start := st.end)
          else if 7 + n <= lost && n == 0 && file[st.start + 6] == 0 then r.kind == 6 && r.state == st.(start := st.end)
          else r.kind == 6 && r.state == st.(start := st.end, drops := st.drops
                 + [Drop(lost, if 7 + n > lost then "bad record length" else "checksum mismatch")]))
  {
    hide ChecksumMatches, Intact, DecodeFixed, Mask;
    if 7 + n <= st.end - st.start {
      IntactIff(crc, file, st, n);
    }
  }

  lemma IntactIff(crc: Checksum, file: Bytes, st: State, n: nat)
    requires Within(file, st) && HasLength(file, st.start, n) && st.start + 7 + n <= st.end
    requires !Intact(crc, file, st, file[st.start + 6], file[st.start + 7..st.start + 7 + n])
    ensures LengthAt(file, st.start) == n
    ensures (file[st.start + 6] == 0 && n == 0) || !ChecksumMatches(crc, file, st.start)
  {
    MatchesIff(crc, file, st.start);
    hide ChecksumMatches, DecodeFixed, Mask;
  }

  lemma MatchesIff(crc: Checksum, file: Bytes, p: nat)
    requires p + HEADER_SIZE <= |file| && p + HEADER_SIZE + LengthAt(file, p) <= |file|
    ensures ChecksumMatches(crc, file, p) <==>
      DecodeFixed(file[p..p + 4]) == Mask(crc(file[p + 6..p + 7 + LengthAt(file, p)]))
  {
    DecodesToWord(file, p);
    MaskInvertsUnmask(DecodeFixed(file[p..p + 4]));
    UnmaskInvertsMask(crc(file[p + 6..p + 7 + LengthAt(file, p)]));
    hide Mask, Unmask, DecodeFixed;
  }

  /** The file as a list of physical records, up to its end */

  function Pieces(crc: Checksum, checksum: bool, file: Bytes, st: State): seq<PhysicalResult>
    requires Within(file, st)
    decreases |file| - st.start
  {
    var p := ReadPhysical(crc, checksum, file, st.(drops := []));
    if p.kind == 5 then [] else [p] + Pieces(crc, checksum, file, p.state)
  }

  // Reports do not decide what is read.
  lemma ReportsApart(crc: Checksum, checksum: bool, file: Bytes, st: State)
    requires Within(file, st)
    ensures var p, q := ReadPhysical(crc, checksum, file, st), ReadPhysical(crc, checksum, file, st.(drops := []));
      && p.kind == q.kind && p.fragment == q.fragment && p.state == q.state.(drops := st.drops + q.state.drops)
      && (q.kind == 5 ==> q.state.drops == [])
  {
    hide ChecksumMatches, Parse;
    var loaded := if st.end - st.start < HEADER_SIZE && !st.eof then Load(file, st) else st;
    if loaded.end - loaded.start >= HEADER_SIZE {
      ParseReportsApart(crc, checksum, file, loaded);
    }
  }

  lemma ParseReportsApart(crc: Checksum, checksum: bool, file: Bytes, st: State)
    requires Within(file, st) && st.start + HEADER_SIZE <= st.end
    ensures var p, q := Parse(crc, checksum, file, st), Parse(crc, checksum, file, st.(drops := []));
      && p.kind == q.kind && p.fragment == q.fragment && p.state == q.state.(drops := st.drops + q.state.drops)
      && (q.kind == 5 ==> q.state.drops == [])
  {
    hide ChecksumMatches, LengthAt, LengthOf;
  }

  /** Records as runs of physical records */

  function Gathered(ps: seq<PhysicalResult>, a: nat, b: nat): Bytes
    requires a <= b <= |ps|
  {
    if a == b then [] else Gathered(ps, a, b - 1) + ps[b - 1].fragment
  }

  // A first fragment at a, and nothing but middle ones after it up to i.
  ghost predicate Open(ps: seq<PhysicalResult>, a: nat, i: nat) {
    a < i <= |ps| && ps[a].kind == 2 && forall k :: a < k < i ==> ps[k].kind == 3
  }

  // A whole record from a to b: one full fragment, or a first one, middle ones and a last one.
  ghost predicate IsRun(ps: seq<PhysicalResult>, a: nat, b: nat) {
    a <= b < |ps| && if a == b then ps[a].kind == 1 else Open(ps, a, b) && ps[b].kind == 4
  }

  // What the reader has gathered when it reaches i.
  ghost predicate Reading(ps: seq<PhysicalResult>, i: nat, scratch: Bytes, fragmented: bool) {
    && i <= |ps|
    && (if fragmented then exists a: nat :: Open(ps, a, i) && scratch == Gathered(ps, a, i)
        else scratch == [] && forall a: nat :: !Open(ps, a, i))
  }

  lemma OpenOnce(ps: seq<PhysicalResult>, a: nat, b: nat, i: nat)
    requires Open(ps, a, i) && Open(ps, b, i)
    ensures a == b
  {
  }

  // One more physical record.
  lemma ReadsOn(ps: seq<PhysicalResult>, i: nat, scratch: Bytes, fragmented: bool)
    requires Reading(ps, i, scratch, fragmented) && i < |ps|
    ensures var kind, more := ps[i].kind, ps[i].fragment;
      if kind == 2 then Reading(ps, i + 1, more, true)
      else if kind == 3 && fragmented then Reading(ps, i + 1, scratch + more, true)
      else Reading(ps, i + 1, [], false)
  {
    var kind := ps[i].kind;
    if kind == 2 {
      assert Open(ps, i, i + 1) && Gathered(ps, i, i) == [];
    } else if kind == 3 && fragmented {
      var a: nat :| Open(ps, a, i) && scratch == Gathered(ps, a, i);
      assert Open(ps, a, i + 1);
    } else {
      hide Open;
      var next := i + 1;
      forall a: nat
        ensures !Open(ps, a, next)
      {
        OpenBefore(ps, a, i);
      }
    }
  }

  lemma OpenBefore(ps: seq<PhysicalResult>, a: nat, i: nat)
    requires i < |ps| && ps[i].kind != 2
    ensures Open(ps, a, i + 1) ==> ps[i].kind == 3 && Open(ps, a, i)
  {
  }

  // The runs that end here.
  lemma RunEnds(ps: seq<PhysicalResult>, i: nat, scratch: Bytes, fragmented: bool)
    requires Reading(ps, i, scratch, fragmented) && i < |ps|
    ensures var kind, more := ps[i].kind, ps[i].fragment;
      if kind == 1 then IsRun(ps, i, i) && Gathered(ps, i, i + 1) == more && forall a: nat :: IsRun(ps, a, i) ==> a == i
      else if kind == 4 && fragmented then
        exists a: nat :: a <= i && IsRun(ps, a, i) && Gathered(ps, a, i + 1) == scratch + more && forall b: nat :: IsRun(ps, b, i) ==> b == a
      else forall a: nat :: !IsRun(ps, a, i)
  {
    if ps[i].kind == 1 {
      assert Gathered(ps, i, i) == [];
    } else if ps[i].kind == 4 && fragmented {
      var a: nat :| Open(ps, a, i) && scratch == Gathered(ps, a, i);
      assert IsRun(ps, a, i);
      forall b: nat | IsRun(ps, b, i)
        ensures b == a
      {
        OpenOnce(ps, a, b, i);
      }
    }
  }

  // The rest of a run of the reader, begun in the middle of a record.
  function RestOf(crc: Checksum, checksum: bool, file: Bytes, st: State, scratch: Bytes, fragmented: bool): AllResult
    requires Within(file, st)
  {
    var one := ReadLogical(crc, checksum, file, st, scratch, fragmented);
    if one.record.None? then AllResult([], one.state)
    else
      var more := ReadAll(crc, checksum, file, one.state);
      AllResult([one.record.value] + more.records, more.state)
  }

  lemma RestTurn(crc: Checksum, checksum: bool, file: Bytes, st: State, scratch: Bytes, fragmented: bool)
    requires Within(file, st)
    ensures var r := RestOf(crc, checksum, file, st, scratch, fragmented);
      match TurnOf(ReadPhysical(crc, checksum, file, st), scratch, fragmented)
      case Again(next, more, going) => r == RestOf(crc, checksum, file, next, more, going)
      case End(one) =>
        if one.record.None? then r == AllResult([], one.state)
        else
          var rest := RestOf(crc, checksum, file, one.state, [], false);
          r == AllResult([one.record.value] + rest.records, rest.state)
  {
    hide TurnOf, ReadPhysical;
  }

  // The list of physical records goes on with the one read.
  lemma NextPiece(crc: Checksum, checksum: bool, file: Bytes, st: State, ps: seq<PhysicalResult>, i: nat)
    requires Within(file, st) && i <= |ps| && Pieces(crc, checksum, file, st) == ps[i..]
    ensures var p := ReadPhysical(crc, checksum, file, st);
      && (p.kind == 5 <==> i == |ps|)
      && (i < |ps| ==> p.kind == ps[i].kind && p.fragment == ps[i].fragment && p.state.drops == st.drops + ps[i].state.drops
                       && forall d :: Pieces(crc, checksum, file, p.state.(drops := d)) == ps[i + 1..])
      && (i == |ps| ==> p.state.drops == st.drops)
  {
    ReportsApart(crc, checksum, file, st);
    hide ReadPhysical, Within;
    if i < |ps| {
      assert ps[i..][1..] == ps[i + 1..];
    }
  }

  datatype Span = Span(first: nat, last: nat)

  ghost predicate DeliversAt(ps: seq<PhysicalResult>, i: nat, span: Span, record: Bytes) {
    && span.first <= span.last < |ps| && i <= span.last
    && IsRun(ps, span.first, span.last) && record == Gathered(ps, span.first, span.last + 1)
  }

  // The records are the runs that end at i or later, in order, and every one of these.
  ghost predicate Delivers(ps: seq<PhysicalResult>, i: nat, spans: seq<Span>, records: seq<Bytes>) {
    && |spans| == |records|
    && (forall k :: 0 <= k < |spans| ==> DeliversAt(ps, i, spans[k], records[k]))
    && (forall j, k :: 0 <= j < k < |spans| ==> spans[j].last < spans[k].last)
    && (forall a: nat, b: nat :: IsRun(ps, a, b) && i <= b ==> Span(a, b) in spans)
  }

  lemma DeliversOne(ps: seq<PhysicalResult>, i: nat, a: nat, record: Bytes, spans: seq<Span>, records: seq<Bytes>)
    requires a <= i < |ps| && Delivers(ps, i + 1, spans, records) && IsRun(ps, a, i) && record == Gathered(ps, a, i + 1)
    requires forall b: nat :: IsRun(ps, b, i) ==> b == a
    ensures Delivers(ps, i, [Span(a, i)] + spans, [record] + records)
  {
    hide IsRun, Gathered, DeliversAt;
    RunHere(ps, i, a, record);
    DeliversLater(ps, i, spans, records);
    var more, all := [Span(a, i)] + spans, [record] + records;
    forall k | 0 <= k < |more|
      ensures DeliversAt(ps, i, more[k], all[k])
    {
      if k > 0 {
        assert more[k] == spans[k - 1] && all[k] == records[k - 1];
      }
    }
    forall b: nat, c: nat | IsRun(ps, b, c) && i <= c
      ensures Span(b, c) in more
    {
      assert c > i ==> Span(b, c) in spans;
    }
  }

  lemma RunHere(ps: seq<PhysicalResult>, i: nat, a: nat, record: Bytes)
    requires a <= i < |ps| && IsRun(ps, a, i) && record == Gathered(ps, a, i + 1)
    ensures DeliversAt(ps, i, Span(a, i), record)
  {
  }

  lemma DeliversLater(ps: seq<PhysicalResult>, i: nat, spans: seq<Span>, records: seq<Bytes>)
    requires Delivers(ps, i + 1, spans, records)
    ensures forall k :: 0 <= k < |spans| ==> DeliversAt(ps, i, spans[k], records[k]) && i < spans[k].last
  {
    hide IsRun, Gathered;
  }

  lemma DeliversNone(ps: seq<PhysicalResult>, i: nat, spans: seq<Span>, records: seq<Bytes>)
    requires Delivers(ps, i + 1, spans, records) && forall a: nat :: !IsRun(ps, a, i)
    ensures Delivers(ps, i, spans, records)
  {
    hide IsRun, Gathered, DeliversAt;
    DeliversLater(ps, i, spans, records);
  }

  lemma {:induction false} RestDelivers(crc: Checksum, checksum: bool, file: Bytes, st: State, scratch: Bytes, fragmented: bool,
                                        ps: seq<PhysicalResult>, i: nat) returns (spans: seq<Span>)
    requires Within(file, st) && i <= |ps| && Reading(ps, i, scratch, fragmented) && Pieces(crc, checksum, file, st) == ps[i..]
    ensures Delivers(ps, i, spans, RestOf(crc, checksum, file, st, scratch, fragmented).records)
    decreases |ps| - i
  {
    hide ReadPhysical, RestOf, Delivers, Reading, IsRun, Gathered, Pieces;
    RestTurn(crc, checksum, file, st, scratch, fragmented);
    NextPiece(crc, checksum, file, st, ps, i);
    var p := ReadPhysical(crc, checksum, file, st);
    if i == |ps| {
      spans := [];
      NothingLeft(ps);
    } else {
      ReadsOn(ps, i, scratch, fragmented);
      RunEnds(ps, i, scratch, fragmented);
      NotFragmented(ps, i, scratch, fragmented);
      match TurnOf(p, scratch, fragmented) {
        case Again(next, more, going) =>
          spans := RestDelivers(crc, checksum, file, next, more, going, ps, i + 1);
          DeliversNone(ps, i, spans, RestOf(crc, checksum, file, next, more, going).records);
        case End(one) =>
          var a: nat :| a <= i && IsRun(ps, a, i) && one.record == Some(Gathered(ps, a, i + 1)) && forall b: nat :: IsRun(ps, b, i) ==> b == a;
          var rest := RestDelivers(crc, checksum, file, one.state, [], false, ps, i + 1);
          DeliversOne(ps, i, a, one.record.value, rest, RestOf(crc, checksum, file, one.state, [], false).records);
          spans := [Span(a, i)] + rest;
      }
    }
  }

  lemma NothingLeft(ps: seq<PhysicalResult>)
    ensures Delivers(ps, |ps|, [], [])
  {
  }

  lemma NotFragmented(ps: seq<PhysicalResult>, i: nat, scratch: Bytes, fragmented: bool)
    requires Reading(ps, i, scratch, fragmented)
    ensures !fragmented ==> scratch == []
  {
  }

  // Whatever the file holds, the records read are exactly the runs of its physical records, in order.
  lemma RecordsAreRuns(crc: Checksum, checksum: bool, file: Bytes) returns (spans: seq<Span>)
    ensures Delivers(Pieces(crc, checksum, file, START), 0, spans, ReadAll(crc, checksum, file, START).records)
  {
    hide ReadPhysical, ReadLogical, ReadAll, Delivers;
    var ps := Pieces(crc, checksum, file, START);
    assert ps[0..] == ps;
    spans := RestDelivers(crc, checksum, file, START, [], false, ps, 0);
    AllIsRest(crc, checksum, file, START);
  }

  lemma AllIsRest(crc: Checksum, checksum: bool, file: Bytes, st: State)
    requires Within(file, st)
    ensures ReadAll(crc, checksum, file, st) == RestOf(crc, checksum, file, st, [], false)
  {
    hide ReadLogical;
  }

  /** No byte is lost silently */

  function Reported(drops: seq<Drop>): nat {
    if drops == [] then 0 else Reported(drops[..|drops| - 1]) + drops[|drops| - 1].bytes
  }

  function Total(records: seq<Bytes>): nat {
    if records == [] then 0 else |records[0]| + Total(records[1..])
  }

  // Payload of the physical records from i on, and what was reported for damaged ones. The reader has
  // no way to tell a record of type 6 from a damaged one.
  function Found(ps: seq<PhysicalResult>, i: nat): nat
    requires i <= |ps|
    decreases |ps| - i
  {
    if i == |ps| then 0
    else (if ps[i].kind == 6 then 0 else |ps[i].fragment|) + Reported(ps[i].state.drops) + Found(ps, i + 1)
  }

  lemma {:induction false} ReportedAdds(a: seq<Drop>, b: seq<Drop>)
    ensures Reported(a + b) == Reported(a) + Reported(b)
  {
    if b == [] {
      assert a + b == a;
    } else {
      var n := |b| - 1;
      assert (a + b)[..|a + b| - 1] == a + b[..n];
      ReportedAdds(a, b[..n]);
    }
  }

  lemma TurnAccounts(p: PhysicalResult, scratch: Bytes, fragmented: bool)
    requires p.kind != 5 && (fragmented || scratch == [])
    ensures var size := if p.kind == 6 then 0 else |p.fragment|;
      match TurnOf(p, scratch, fragmented)
      case Again(next, more, going) => Reported(next.drops) + |more| == Reported(p.state.drops) + size + |scratch|
      case End(one) =>
        one.record.Some? && Reported(one.state.drops) + |one.record.value| == Reported(p.state.drops) + size + |scratch|
  {
    hide Reported;
    OneMoreReported(p.state.drops);
  }

  lemma OneMoreReported(drops: seq<Drop>)
    ensures forall n, why :: Reported(drops + [Drop(n, why)]) == Reported(drops) + n
  {
    forall n, why
      ensures Reported(drops + [Drop(n, why)]) == Reported(drops) + n
    {
      assert (drops + [Drop(n, why)])[..|drops|] == drops;
    }
  }

  lemma {:induction false} RestAccounts(crc: Checksum, checksum: bool, file: Bytes, st: State, scratch: Bytes, fragmented: bool,
                                        ps: seq<PhysicalResult>, i: nat) returns (unfinished: nat)
    requires Within(file, st) && i <= |ps| && Reading(ps, i, scratch, fragmented) && Pieces(crc, checksum, file, st) == ps[i..]
    ensures var r := RestOf(crc, checksum, file, st, scratch, fragmented);
      Found(ps, i) + |scratch| + Reported(st.drops) == Total(r.records) + Reported(r.state.drops) + unfinished
    ensures forall a: nat :: Open(ps, a, |ps|) ==> unfinished == |Gathered(ps, a, |ps|)|
    ensures (forall a: nat :: !Open(ps, a, |ps|)) ==> unfinished == 0
    decreases |ps| - i
  {
    hide ReadPhysical, RestOf, Reading, Open, Gathered, Pieces, Reported;
    RestTurn(crc, checksum, file, st, scratch, fragmented);
    NextPiece(crc, checksum, file, st, ps, i);
    NotFragmented(ps, i, scratch, fragmented);
    var p := ReadPhysical(crc, checksum, file, st);
    if i == |ps| {
      unfinished := |scratch|;
      Unfinished(ps, scratch, fragmented);
    } else {
      ReadsOn(ps, i, scratch, fragmented);
      TurnAccounts(p, scratch, fragmented);
      ReportedAdds(st.drops, ps[i].state.drops);
      match TurnOf(p, scratch, fragmented) {
        case Again(next, more, going) =>
          unfinished := RestAccounts(crc, checksum, file, next, more, going, ps, i + 1);
        case End(one) =>
          unfinished := RestAccounts(crc, checksum, file, one.state, [], false, ps, i + 1);
      }
    }
  }

  lemma Unfinished(ps: seq<PhysicalResult>, scratch: Bytes, fragmented: bool)
    requires Reading(ps, |ps|, scratch, fragmented)
    ensures forall a: nat :: Open(ps, a, |ps|) ==> scratch == Gathered(ps, a, |ps|)
    ensures (forall a: nat :: !Open(ps, a, |ps|)) ==> scratch == []
  {
    if fragmented {
      var a: nat :| Open(ps, a, |ps|) && scratch == Gathered(ps, a, |ps|);
      forall b: nat | Open(ps, b, |ps|)
        ensures b == a
      {
        OpenOnce(ps, a, b, |ps|);
      }
    }
  }

  // Every byte of payload is in a record or reported, except those of a record that the file ends in.
  lemma BytesAreAccounted(crc: Checksum, checksum: bool, file: Bytes) returns (unfinished: nat)
    ensures var ps, all := Pieces(crc, checksum, file, START), ReadAll(crc, checksum, file, START);
      && Found(ps, 0) == Total(all.records) + Reported(all.state.drops) + unfinished
      && (forall a: nat :: Open(ps, a, |ps|) ==> unfinished == |Gathered(ps, a, |ps|)|)
      && ((forall a: nat :: !Open(ps, a, |ps|)) ==> unfinished == 0)
  {
    hide ReadPhysical, ReadLogical, ReadAll, Gathered;
    var ps := Pieces(crc, checksum, file, START);
    assert ps[0..] == ps;
    unfinished := RestAccounts(crc, checksum, file, START, [], false, ps, 0);
    AllIsRest(crc, checksum, file, START);
  }
}
