/** Write batches in their packed form: an 8-byte sequence number, a 4-byte count, the records. */
module WriteBatches {
  import opened Keys
  import opened Wrappers
  import opened Coding

  const HEADER: nat := 12

  datatype Record = Put(key: Bytes, value: Bytes) | Delete(key: Bytes)

  datatype Status = Ok | Corruption(message: string)

  // The handler calls that Iterate makes, and how it ends.
  datatype Iterated = Iterated(records: seq<Record>, status: Status)

  function EncodeRecord(r: Record): (b: Bytes)
    ensures |b| > 0
  {
    match r
    case Put(key, value) => [TypeCode(Value)] + LengthPrefixed(key) + LengthPrefixed(value)
    case Delete(key) => [TypeCode(Deletion)] + LengthPrefixed(key)
  }

  function EncodeRecords(rs: seq<Record>): Bytes {
    if rs == [] then [] else EncodeRecord(rs[0]) + EncodeRecords(rs[1..])
  }

  function Encode(sequence: nat, rs: seq<Record>): (b: Bytes)
    ensures |b| >= HEADER
  {
    Fixed64(sequence) + Fixed32(|rs|) + EncodeRecords(rs)
  }

  predicate Fits(r: Record) {
    |r.key| < TWO32 && (r.Put? ==> |r.value| < TWO32)
  }

  // Reading one record off the front.
  datatype Step = Got(record: Record, rest: Bytes) | Bad(message: string)

  function ReadRecord(b: Bytes): (r: Step)
    requires b != []
    ensures r.Got? ==> |r.rest| < |b|
  {
    if b[0] == TypeCode(Value) then
      match GetLengthPrefixed(b[1..])
      case None => Bad("bad WriteBatch Put")
      case Some(k) =>
        match GetLengthPrefixed(k.1)
        case None => Bad("bad WriteBatch Put")
        case Some(v) => Got(Put(k.0, v.0), v.1)
    else if b[0] == TypeCode(Deletion) then
      match GetLengthPrefixed(b[1..])
      case None => Bad("bad WriteBatch Delete")
      case Some(k) => Got(Delete(k.0), k.1)
    else Bad("unknown WriteBatch tag")
  }

  function IterateRecords(b: Bytes): Iterated
    decreases |b|
  {
    if b == [] then Iterated([], Ok)
    else
      match ReadRecord(b)
      case Bad(message) => Iterated([], Corruption(message))
      case Got(r, rest) =>
        var more := IterateRecords(rest);
        Iterated([r] + more.records, more.status)
  }

  function Iterate(rep: Bytes): Iterated {
    if |rep| < HEADER then Iterated([], Corruption("malformed WriteBatch (too small)"))
    else
      var it := IterateRecords(rep[HEADER..]);
      if it.status == Ok && |it.records| != DecodeFixed(rep[8..HEADER])
      then Iterated(it.records, Corruption("WriteBatch has wrong count"))
      else it
  }

  // What is not a batch: too short, a count that is wrong, or a record that is neither a Put nor a Delete.
  lemma IterateStatus(rep: Bytes)
    ensures |rep| < 12 ==> Iterate(rep) == Iterated([], Corruption("malformed WriteBatch (too small)"))
    ensures |rep| >= 12 && Iterate(rep).status == Ok ==> |Iterate(rep).records| == DecodeFixed(rep[8..12])
    ensures |rep| == 12 ==> Iterate(rep) == Iterated([], if DecodeFixed(rep[8..12]) == 0 then Ok else Corruption("WriteBatch has wrong count"))
    ensures |rep| > 12 && rep[12] > 1 ==> Iterate(rep) == Iterated([], Corruption("unknown WriteBatch tag"))
  {
    hide GetLengthPrefixed, DecodeFixed;
    if |rep| >= 12 {
      assert rep[12..] == [] || rep[12..][0] == rep[12];
    }
  }

  lemma ReadsBack(r: Record, rest: Bytes)
    requires Fits(r)
    ensures ReadRecord(EncodeRecord(r) + rest) == Got(r, rest)
  {
    hide GetLengthPrefixed, LengthPrefixed;
    var b := EncodeRecord(r) + rest;
    match r {
      case Put(key, value) =>
        assert b[1..] == LengthPrefixed(key) + (LengthPrefixed(value) + rest);
        LengthPrefixedRoundTrip(key, LengthPrefixed(value) + rest);
        LengthPrefixedRoundTrip(value, rest);
      case Delete(key) =>
        assert b[1..] == LengthPrefixed(key) + rest;
        LengthPrefixedRoundTrip(key, rest);
    }
  }

  lemma {:induction false} IteratesBack(rs: seq<Record>)
    requires forall r :: r in rs ==> Fits(r)
    ensures IterateRecords(EncodeRecords(rs)) == Iterated(rs, Ok)
  {
    hide ReadRecord, EncodeRecord;
    if rs != [] {
      ReadsBack(rs[0], EncodeRecords(rs[1..]));
      IteratesBack(rs[1..]);
      assert rs == [rs[0]] + rs[1..];
    }
  }

  // Iterating a batch calls the handler with exactly the records that were put into it.
  lemma RoundTrip(sequence: nat, rs: seq<Record>)
    requires sequence < TWO64 && |rs| < TWO32 && forall r :: r in rs ==> Fits(r)
    ensures Iterate(Encode(sequence, rs)) == Iterated(rs, Ok)
    ensures DecodeFixed(Encode(sequence, rs)[..8]) == sequence
  {
    var b := Encode(sequence, rs);
    hide Fixed32, Fixed64, DecodeFixed, EncodeRecords, IterateRecords;
    assert b[..8] == Fixed64(sequence) && b[8..HEADER] == Fixed32(|rs|) && b[HEADER..] == EncodeRecords(rs);
    Fixed64RoundTrip(sequence);
    Fixed32RoundTrip(|rs|);
    IteratesBack(rs);
  }

  lemma {:induction false} EncodeAppends(a: seq<Record>, b: seq<Record>)
    ensures EncodeRecords(a + b) == EncodeRecords(a) + EncodeRecords(b)
  {
    if a == [] {
      assert a + b == b;
    } else {
      assert (a + b)[0] == a[0] && (a + b)[1..] == a[1..] + b;
      EncodeAppends(a[1..], b);
    }
  }

  lemma EncodeOne(r: Record)
    ensures EncodeRecords([r]) == EncodeRecord(r)
  {
  }

  // Fixed-width fields hold their value modulo their width.
  lemma {:induction false} FixedModulo(v: nat, w: nat, width: nat)
    requires v % Pow256(width) == w % Pow256(width)
    ensures Fixed(v, width) == Fixed(w, width)
  {
    if width > 0 {
      var m := Pow256(width - 1);
      ModSplit(v, m);
      ModSplit(w, m);
      assert v % 256 == w % 256 && (v / 256) % m == (w / 256) % m;
      FixedModulo(v / 256, w / 256, width - 1);
    }
  }

  lemma CountAdds(a: nat, b: nat)
    ensures Fixed32((DecodeFixed(Fixed32(a)) + b) % TWO32) == Fixed32(a + b)
    ensures Fixed32((DecodeFixed(Fixed32(a)) + DecodeFixed(Fixed32(b))) % TWO32) == Fixed32(a + b)
  {
    FixedRoundTrip(a, 4);
    FixedRoundTrip(b, 4);
    assert Pow256(4) == TWO32;
    hide Pow256, Fixed, DecodeFixed;
    ModAdds(a, b);
    FixedModulo((a % TWO32 + b) % TWO32, a + b, 4);
    FixedModulo((a % TWO32 + b % TWO32) % TWO32, a + b, 4);
  }

  lemma ModAdds(a: nat, b: nat)
    ensures (a % TWO32 + b) % TWO32 % TWO32 == (a + b) % TWO32
    ensures (a % TWO32 + b % TWO32) % TWO32 % TWO32 == (a + b) % TWO32
  {
    ModAdd(a, b);
    ModAdd(b, a % TWO32);
  }

  lemma ModAdd(a: nat, b: nat)
    ensures (a % TWO32 + b) % TWO32 == (a + b) % TWO32
  {
  }

  class WriteBatch {
    var rep: Bytes
    ghost var sequence: nat
    ghost var records: seq<Record>

    ghost predicate Valid()
      reads this
    {
      rep == Encode(sequence, records)
    }

    constructor ()
      ensures Valid() && sequence == 0 && records == []
    {
      rep, sequence, records := seq(HEADER, _ => 0), 0, [];
      new;
      ZeroHeader();
    }

    method Clear()
      modifies this
      ensures Valid() && sequence == 0 && records == []
    {
      rep, sequence, records := seq(HEADER, _ => 0), 0, [];
      ZeroHeader();
    }

    function Count(): nat
      reads this
      requires |rep| >= HEADER
    {
      DecodeFixed(rep[8..HEADER])
    }

    method SetCount(n: nat)
      requires |rep| >= HEADER
      modifies this`rep
      ensures rep == old(rep[..8]) + Fixed32(n % TWO32) + old(rep[HEADER..])
    {
      rep := rep[..8] + Fixed32(n % TWO32) + rep[HEADER..];
    }

    method SetSequence(n: nat)
      requires Valid()
      modifies this
      ensures Valid() && sequence == n && records == old(records)
    {
      HeaderParts(sequence, records);
      HeaderParts(n, records);
      rep := Fixed64(n) + rep[8..];
      sequence := n;
    }

    method Put(key: Bytes, value: Bytes)
      requires Valid()
      modifies this
      ensures Valid() && sequence == old(sequence) && records == old(records) + [Record.Put(key, value)]
    {
      hide Encode, DecodeFixed, Fixed32, LengthPrefixed;
      AppendedOne(sequence, records, Record.Put(key, value));
      SetCount(Count() + 1);
      ghost var x := rep;
      rep := rep + [TypeCode(Value)];
      rep := rep + LengthPrefixed(key);
      rep := rep + LengthPrefixed(value);
      assert rep == x + EncodeRecord(Record.Put(key, value));
      records := records + [Record.Put(key, value)];
    }

    method Delete(key: Bytes)
      requires Valid()
      modifies this
      ensures Valid() && sequence == old(sequence) && records == old(records) + [Record.Delete(key)]
    {
      hide Encode, DecodeFixed, Fixed32, LengthPrefixed;
      AppendedOne(sequence, records, Record.Delete(key));
      SetCount(Count() + 1);
      ghost var x := rep;
      rep := rep + [TypeCode(Deletion)];
      rep := rep + LengthPrefixed(key);
      assert rep == x + EncodeRecord(Record.Delete(key));
      records := records + [Record.Delete(key)];
    }

    // Takes the count and the records of the source, whose sequence number is of no interest.
    method Append(source: WriteBatch)
      requires Valid() && source.Valid() && source != this
      modifies this
      ensures Valid() && sequence == old(sequence) && records == old(records) + source.records
    {
      hide Encode, DecodeFixed, Fixed32;
      Appended(sequence, records, source.sequence, source.records);
      SetCount(Count() + source.Count());
      rep := rep + source.rep[HEADER..];
      records := records + source.records;
    }
  }

  lemma HeaderParts(sequence: nat, rs: seq<Record>)
    ensures var b := Encode(sequence, rs);
      b[..8] == Fixed64(sequence) && b[8..HEADER] == Fixed32(|rs|) && b[HEADER..] == EncodeRecords(rs)
      && b[8..] == Fixed32(|rs|) + EncodeRecords(rs) && b == b[..8] + b[8..HEADER] + b[HEADER..]
  {
    hide EncodeRecords, Fixed32, Fixed64;
  }

  lemma ZeroHeader()
    ensures Encode(0, []) == seq(HEADER, _ => 0)
  {
  }

  lemma Appended(sequence: nat, a: seq<Record>, other: nat, b: seq<Record>)
    ensures var x, y := Encode(sequence, a), Encode(other, b);
      Encode(sequence, a + b)
        == x[..8] + Fixed32((DecodeFixed(x[8..HEADER]) + DecodeFixed(y[8..HEADER])) % TWO32) + x[HEADER..] + y[HEADER..]
  {
    hide Encode, EncodeRecords, DecodeFixed, Fixed32, Fixed64;
    HeaderParts(sequence, a);
    HeaderParts(other, b);
    HeaderParts(sequence, a + b);
    CountAdds(|a|, |b|);
    EncodeAppends(a, b);
    var x, y, z := Encode(sequence, a), Encode(other, b), Encode(sequence, a + b);
    assert z[..8] == x[..8] && z[HEADER..] == x[HEADER..] + y[HEADER..];
    assert z[8..HEADER] == Fixed32((DecodeFixed(x[8..HEADER]) + DecodeFixed(y[8..HEADER])) % TWO32);
  }

  lemma AppendedOne(sequence: nat, a: seq<Record>, r: Record)
    ensures var x := Encode(sequence, a);
      Encode(sequence, a + [r]) == x[..8] + Fixed32((DecodeFixed(x[8..HEADER]) + 1) % TWO32) + x[HEADER..] + EncodeRecord(r)
  {
    hide Encode, EncodeRecords, DecodeFixed, Fixed32, Fixed64;
    HeaderParts(sequence, a);
    HeaderParts(sequence, a + [r]);
    CountAdds(|a|, 1);
    EncodeAppends(a, [r]);
    EncodeOne(r);
  }

  // Iterating a batch to which another was appended gives the records of the one, then of the other.
  lemma AppendIteratesInOrder(sequence: nat, a: seq<Record>, b: seq<Record>)
    requires sequence < TWO64 && |a| + |b| < TWO32 && forall r :: r in a + b ==> Fits(r)
    ensures Iterate(Encode(sequence, a + b)).status == Ok
    ensures Iterate(Encode(sequence, a + b)).records
         == Iterate(Encode(sequence, a)).records + Iterate(Encode(sequence, b)).records
  {
    RoundTrip(sequence, a);
    RoundTrip(sequence, b);
    RoundTrip(sequence, a + b);
  }

  /** Iteration as the source does it, with the memtable inserter as the handler */

  // What the inserter hands to the memtable: consecutive sequence numbers from the batch's own.
  function Numbered(first: nat, rs: seq<Record>): (r: seq<(nat, Record)>)
    ensures |r| == |rs| && forall i :: 0 <= i < |rs| ==> r[i] == (first + i, rs[i])
  {
    seq(|rs|, i requires 0 <= i < |rs| => (first + i, rs[i]))
  }

  method InsertInto(batch: WriteBatch) returns (inserted: seq<(nat, Record)>, status: Status)
    requires |batch.rep| >= 8
    ensures var it := Iterate(batch.rep);
      inserted == Numbered(DecodeFixed(batch.rep[..8]), it.records) && status == it.status
  {
    hide IterateRecords, DecodeFixed, ReadRecord;
    var next := DecodeFixed(batch.rep[..8]);
    ghost var first := next;
    inserted := [];
    if |batch.rep| < HEADER {
      return inserted, Corruption("malformed WriteBatch (too small)");
    }
    var input := batch.rep[HEADER..];
    ghost var done: seq<Record> := [];
    ghost var all := IterateRecords(input);
    var found := 0;
    while input != []
      invariant inserted == Numbered(first, done) && found == |done| && next == first + found
      invariant all == Iterated(done + IterateRecords(input).records, IterateRecords(input).status)
      decreases |input|
    {
      found := found + 1;
      IterateStep(input);
      match ReadRecord(input) {
        case Bad(message) =>
          status := Corruption(message);
          assert all.records == done;
          return;
        case Got(r, rest) =>
          inserted := inserted + [(next, r)];
          next := next + 1;
          done := done + [r];
          input := rest;
          assert inserted == Numbered(first, done);
      }
    }
    IterateNone();
    assert all.records == done;
    if found != DecodeFixed(batch.rep[8..HEADER]) {
      status := Corruption("WriteBatch has wrong count");
    } else {
      status := Ok;
    }
  }

  lemma IterateNone()
    ensures IterateRecords([]) == Iterated([], Ok)
  {
  }

  lemma IterateStep(b: Bytes)
    requires b != []
    ensures match ReadRecord(b)
      case Bad(message) => IterateRecords(b) == Iterated([], Corruption(message))
      case Got(r, rest) => IterateRecords(b) == Iterated([r] + IterateRecords(rest).records, IterateRecords(rest).status)
  {
  }
}
