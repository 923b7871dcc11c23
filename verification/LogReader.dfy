/** The log reader, reading from the start of the file. */
module LogReader {
  import opened Keys
  import opened Wrappers
  import opened Coding
  import opened LogFormat

  // Special results beside the record types; they share their numbers' space, as in the source.
  const EOF_RESULT: nat := 5
  const BAD_RECORD: nat := 6

  // A corruption reported to the caller.
  datatype Drop = Drop(bytes: nat, reason: string)

  // What determines the rest of a run: the buffer holds file[start..end].
  datatype State = State(start: nat, end: nat, eof: bool, drops: seq<Drop>)

  datatype PhysicalResult = PhysicalResult(kind: nat, fragment: Bytes, state: State)
  datatype LogicalResult = LogicalResult(record: Option<Bytes>, state: State)
  datatype AllResult = AllResult(records: seq<Bytes>, state: State)

  predicate Within(file: Bytes, st: State) {
    && st.start <= st.end <= |file|
    && (if st.eof then st.end == |file| else st.end % BLOCK_SIZE == 0)
  }

  function Min(a: nat, b: nat): nat {
    if a < b then a else b
  }

  function Load(file: Bytes, st: State): State
    requires Within(file, st)
  {
    State(st.end, Min(|file|, st.end + BLOCK_SIZE), |file| < st.end + BLOCK_SIZE, st.drops)
  }

  function Discard(st: State): State {
    st.(start := st.end)
  }

  function Report(st: State, bytes: nat, reason: string): State {
    st.(drops := st.drops + [Drop(bytes, reason)])
  }

  function LengthOf(a: nat, b: nat): nat {
    a + 256 * b
  }

  function LengthAt(file: Bytes, p: nat): nat
    requires p + HEADER_SIZE <= |file|
  {
    LengthOf(file[p + 4], file[p + 5])
  }

  predicate ChecksumMatches(crc: Checksum, file: Bytes, p: nat)
    requires p + HEADER_SIZE <= |file| && p + HEADER_SIZE + LengthAt(file, p) <= |file|
  {
    DecodesToWord(file, p);
    Unmask(DecodeFixed(file[p..p + 4])) == crc(file[p + 6..p + HEADER_SIZE + LengthAt(file, p)])
  }

  lemma DecodesToWord(file: Bytes, p: nat)
    requires p + 4 <= |file|
    ensures DecodeFixed(file[p..p + 4]) < TWO32
  {
    FixedBound(file[p..p + 4]);
  }

  // The physical record at the start of the buffer.
  function Parse(crc: Checksum, checksum: bool, file: Bytes, st: State): (r: PhysicalResult)
    requires Within(file, st) && st.start + HEADER_SIZE <= st.end
    ensures Within(file, r.state) && r.state.start > st.start
  {
    var length := LengthAt(file, st.start);
    var t := file[st.start + 6];
    var size := st.end - st.start;
    if HEADER_SIZE + length > size then
      if !st.eof then PhysicalResult(BAD_RECORD, [], Report(Discard(st), size, "bad record length"))
      else PhysicalResult(EOF_RESULT, [], Discard(st))
    else if t == ZERO_TYPE && length == 0 then
      PhysicalResult(BAD_RECORD, [], Discard(st))
    else if checksum && !ChecksumMatches(crc, file, st.start) then
      PhysicalResult(BAD_RECORD, [], Report(Discard(st), size, "checksum mismatch"))
    else
      var c := Consume(file, st, length);
      PhysicalResult(t, c.0, c.1)
  }

  function ReadPhysical(crc: Checksum, checksum: bool, file: Bytes, st: State): (r: PhysicalResult)
    requires Within(file, st)
    ensures Within(file, r.state)
    ensures r.kind != EOF_RESULT ==> r.state.start > st.start
  {
    var loaded := if st.end - st.start < HEADER_SIZE && !st.eof then Load(file, st) else st;
    if loaded.end - loaded.start < HEADER_SIZE then PhysicalResult(EOF_RESULT, [], Discard(loaded))
    else Parse(crc, checksum, file, loaded)
  }

  // What a physical record does to the fragments gathered so far.
  datatype Turn = End(result: LogicalResult) | Again(state: State, scratch: Bytes, fragmented: bool)

  function TurnOf(p: PhysicalResult, scratch: Bytes, fragmented: bool): (r: Turn)
    ensures r.Again? ==> p.kind != EOF_RESULT && r.state == p.state.(drops := r.state.drops) && p.state.drops <= r.state.drops
    ensures r.End? ==> r.result.state == p.state.(drops := r.result.state.drops) && p.state.drops <= r.result.state.drops
    ensures r.End? && r.result.record.Some? ==> p.kind != EOF_RESULT
  {
    var st := p.state;
    if p.kind == FULL_TYPE then
      var st := if fragmented && scratch != [] then Report(st, |scratch|, "partial record without end(1)") else st;
      End(LogicalResult(Some(p.fragment), st))
    else if p.kind == FIRST_TYPE then
      var st := if fragmented && scratch != [] then Report(st, |scratch|, "partial record without end(2)") else st;
      Again(st, p.fragment, true)
    else if p.kind == MIDDLE_TYPE then
      if !fragmented then Again(Report(st, |p.fragment|, "missing start of fragmented record(1)"), scratch, false)
      else Again(st, scratch + p.fragment, true)
    else if p.kind == LAST_TYPE then
      if !fragmented then Again(Report(st, |p.fragment|, "missing start of fragmented record(2)"), scratch, false)
      else End(LogicalResult(Some(scratch + p.fragment), st))
    else if p.kind == EOF_RESULT then
      End(LogicalResult(None, st))
    else if p.kind == BAD_RECORD then
      if fragmented then Again(Report(st, |scratch|, "error in middle of record"), [], false)
      else Again(st, scratch, false)
    else
      var lost := |p.fragment| + if fragmented then |scratch| else 0;
      Again(Report(st, lost, "unknown record type"), [], false)
  }

  function ReadLogical(crc: Checksum, checksum: bool, file: Bytes, st: State, scratch: Bytes, fragmented: bool): (r: LogicalResult)
    requires Within(file, st)
    ensures Within(file, r.state)
    ensures r.record.Some? ==> r.state.start > st.start
    decreases |file| - st.start
  {
    match TurnOf(ReadPhysical(crc, checksum, file, st), scratch, fragmented)
    case End(r) => r
    case Again(next, more, going) => ReadLogical(crc, checksum, file, next, more, going)
  }

  function ReadAll(crc: Checksum, checksum: bool, file: Bytes, st: State): (r: AllResult)
    requires Within(file, st)
    decreases |file| - st.start
  {
    var one := ReadLogical(crc, checksum, file, st, [], false);
    if one.record.None? then AllResult([], one.state)
    else
      var more := ReadAll(crc, checksum, file, one.state);
      AllResult([one.record.value] + more.records, more.state)
  }

  const START := State(0, 0, false, [])

  lemma SliceOfSlice(file: Bytes, a: nat, b: nat, i: nat, j: nat)
    requires a <= b <= |file| && i <= j <= b - a
    ensures file[a..b][i..j] == file[a + i..a + j]
  {
    var x, y := file[a..b][i..j], file[a + i..a + j];
    forall k | 0 <= k < j - i
      ensures x[k] == y[k]
    {
      assert x[k] == file[a..b][i + k] && y[k] == file[a + i + k];
    }
    assert x == y;
  }

  // Dropping a physical record of the given payload length from the buffer.
  function Consume(file: Bytes, st: State, length: nat): (Bytes, State)
    requires Within(file, st) && st.start + HEADER_SIZE + length <= st.end
  {
    var p := st.start + HEADER_SIZE;
    (file[p..p + length], st.(start := p + length))
  }

  class Reader {
    const crc: Checksum
    const checksum: bool
    const file: Bytes
    var filePosition: nat
    var buffer: Bytes
    var eof: bool
    var drops: seq<Drop>

    ghost predicate Valid()
      reads this
    {
      && |buffer| <= filePosition <= |file|
      && buffer == file[filePosition - |buffer|..filePosition]
      && (if eof then filePosition == |file| else filePosition % BLOCK_SIZE == 0)
    }

    ghost function Abs(): (st: State)
      reads this
      requires Valid()
      ensures Within(file, st)
    {
      State(filePosition - |buffer|, filePosition, eof, drops)
    }

    constructor (crc: Checksum, checksum: bool, file: Bytes)
      ensures Valid() && this.crc == crc && this.checksum == checksum && this.file == file && Abs() == START
    {
      this.crc, this.checksum, this.file := crc, checksum, file;
      filePosition, buffer, eof, drops := 0, [], false, [];
      new;
      assert buffer == this.file[0..0];
    }

    method ReportCorruption(bytes: nat, reason: string)
      requires Valid()
      modifies this
      ensures Valid() && Abs() == Report(old(Abs()), bytes, reason)
    {
      drops := drops + [Drop(bytes, reason)];
    }

    method ClearBuffer()
      requires Valid()
      modifies this
      ensures Valid() && buffer == [] && Abs() == Discard(old(Abs()))
    {
      buffer := [];
    }

    method LoadBlock()
      requires Valid() && !eof
      modifies this
      ensures Valid() && Abs() == Load(file, old(Abs())) && (!eof ==> |buffer| == BLOCK_SIZE)
    {
      var n := if |file| - filePosition < BLOCK_SIZE then |file| - filePosition else BLOCK_SIZE;
      buffer := file[filePosition..filePosition + n];
      filePosition := filePosition + n;
      if |buffer| < BLOCK_SIZE {
        eof := true;
      }
    }

    method ReadPhysicalRecord() returns (kind: nat, result: Bytes)
      requires Valid()
      modifies this
      ensures Valid() && PhysicalResult(kind, result, Abs()) == ReadPhysical(crc, checksum, file, old(Abs()))
    {
      hide Parse, ChecksumMatches;
      result := [];
      ghost var st0 := Abs();
      while |buffer| < HEADER_SIZE
        invariant Valid()
        invariant Abs() == st0 || (st0.end - st0.start < HEADER_SIZE && !st0.eof && Abs() == Load(file, st0) && (eof || |buffer| == BLOCK_SIZE))
        decreases !eof, HEADER_SIZE - |buffer|
      {
        if eof {
          ClearBuffer();
          return EOF_RESULT, result;
        }
        LoadBlock();
      }
      kind, result := ParseBuffer();
    }

    lemma HeaderInBuffer()
      requires Valid() && |buffer| >= HEADER_SIZE
      ensures var st := Abs();
        && st.start == filePosition - |buffer| && st.end == filePosition && st.eof == eof
        && LengthOf(buffer[4], buffer[5]) == LengthAt(file, st.start) && buffer[6] == file[st.start + 6]
    {
    }

    method ParseBuffer() returns (kind: nat, result: Bytes)
      requires Valid() && |buffer| >= HEADER_SIZE
      modifies this
      ensures Valid() && PhysicalResult(kind, result, Abs()) == Parse(crc, checksum, file, old(Abs()))
    {
      HeaderInBuffer();
      hide ChecksumMatches, DecodeFixed, Consume, Reader.Valid, Reader.Abs, LengthAt, LengthOf;
      result := [];
      var length := LengthOf(buffer[4], buffer[5]);
      var t := buffer[6];
      if HEADER_SIZE + length > |buffer| {
        var size := |buffer|;
        ClearBuffer();
        if !eof {
          ReportCorruption(size, "bad record length");
          return BAD_RECORD, result;
        }
        return EOF_RESULT, result;
      }
      if t == ZERO_TYPE && length == 0 {
        ClearBuffer();
        return BAD_RECORD, result;
      }
      if checksum {
        var same := CheckCrc(length);
        if !same {
          var size := |buffer|;
          ClearBuffer();
          ReportCorruption(size, "checksum mismatch");
          return BAD_RECORD, result;
        }
      }
      result := RemovePrefix(length);
      kind := t;
    }

    method RemovePrefix(length: nat) returns (result: Bytes)
      requires Valid() && HEADER_SIZE + length <= |buffer|
      modifies this
      ensures Valid() && (result, Abs()) == Consume(file, old(Abs()), length)
    {
      ghost var p := filePosition - |buffer|;
      result := buffer[HEADER_SIZE..HEADER_SIZE + length];
      SliceOfSlice(file, p, filePosition, HEADER_SIZE, HEADER_SIZE + length);
      SliceOfSlice(file, p, filePosition, HEADER_SIZE + length, |buffer|);
      buffer := buffer[HEADER_SIZE + length..];
    }

    method CheckCrc(length: nat) returns (same: bool)
      requires Valid() && HEADER_SIZE + length <= |buffer| && length == LengthOf(buffer[4], buffer[5])
      ensures same == ChecksumMatches(crc, file, filePosition - |buffer|)
    {
      ghost var p := filePosition - |buffer|;
      DecodesToWord(buffer, 0);
      var expected := Unmask(DecodeFixed(buffer[0..4]));
      var actual := crc(buffer[6..HEADER_SIZE + length]);
      SliceOfSlice(file, p, filePosition, 0, 4);
      SliceOfSlice(file, p, filePosition, 6, HEADER_SIZE + length);
      same := actual == expected;
    }

    method ReadRecord() returns (ok: bool, record: Bytes)
      requires Valid()
      modifies this
      ensures Valid()
      ensures LogicalResult(if ok then Some(record) else None, Abs()) == ReadLogical(crc, checksum, file, old(Abs()), [], false)
    {
      hide ReadPhysical, Within;
      var scratch: Bytes := [];
      var fragmented := false;
      record := [];
      ghost var goal := ReadLogical(crc, checksum, file, Abs(), [], false);
      while true
        invariant Valid() && ReadLogical(crc, checksum, file, Abs(), scratch, fragmented) == goal
        decreases |file| - Abs().start
      {
        var kind, fragment := ReadPhysicalRecord();
        if kind == FULL_TYPE {
          if fragmented && scratch != [] {
            ReportCorruption(|scratch|, "partial record without end(1)");
          }
          return true, fragment;
        } else if kind == FIRST_TYPE {
          if fragmented && scratch != [] {
            ReportCorruption(|scratch|, "partial record without end(2)");
          }
          scratch := fragment;
          fragmented := true;
        } else if kind == MIDDLE_TYPE {
          if !fragmented {
            ReportCorruption(|fragment|, "missing start of fragmented record(1)");
          } else {
            scratch := scratch + fragment;
          }
        } else if kind == LAST_TYPE {
          if !fragmented {
            ReportCorruption(|fragment|, "missing start of fragmented record(2)");
          } else {
            scratch := scratch + fragment;
            return true, scratch;
          }
        } else if kind == EOF_RESULT {
          return false, record;
        } else if kind == BAD_RECORD {
          if fragmented {
            ReportCorruption(|scratch|, "error in middle of record");
            fragmented := false;
            scratch := [];
          }
        } else {
          ReportCorruption(|fragment| + if fragmented then |scratch| else 0, "unknown record type");
          fragmented := false;
          scratch := [];
        }
      }
    }
  }
}
