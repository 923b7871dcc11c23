/** The decoder: input streams, the cyclic field iterator, and the loops over fields and entries. */
module PbDecoder {
  import opened Keys
  import opened Wrappers
  import opened Coding
  import opened PbFormat
  import opened PbRequired

  // A window of a buffer.
  class IStream {
    const data: Bytes
    var state: nat
    var bytesLeft: nat

    ghost predicate Valid()
      reads this
    {
      state + bytesLeft <= |data|
    }

    ghost function End(): nat
      reads this
    {
      state + bytesLeft
    }

    ghost function Rest(): (r: Bytes)
      reads this
      requires Valid()
      ensures |r| == bytesLeft
    {
      data[state..state + bytesLeft]
    }

    constructor (data: Bytes, state: nat, bytesLeft: nat)
      requires state + bytesLeft <= |data|
      ensures Valid() && this.data == data && this.state == state && this.bytesLeft == bytesLeft
    {
      this.data, this.state, this.bytesLeft := data, state, bytesLeft;
    }

    method Read(count: nat) returns (ok: bool, bytes: Bytes)
      requires Valid()
      modifies this
      ensures Valid() && (ok <==> count <= old(bytesLeft))
      ensures if ok then bytes == old(Rest())[..count] && Rest() == old(Rest())[count..]
              else bytesLeft == old(bytesLeft) && state == old(state)
      ensures End() == old(End())
    {
      if bytesLeft < count {
        return false, [];
      }
      bytes := data[state..state + count];
      state := state + count;
      bytesLeft := bytesLeft - count;
      ok := true;
    }

    method ReadByte() returns (ok: bool, next: byte)
      requires Valid()
      modifies this
      ensures Valid() && (ok <==> old(bytesLeft) > 0)
      ensures ok ==> next == old(Rest())[0] && Rest() == old(Rest())[1..]
      ensures End() == old(End())
    {
      if bytesLeft == 0 {
        return false, 0;
      }
      next := data[state];
      state := state + 1;
      bytesLeft := bytesLeft - 1;
      ok := true;
    }
  }

  /** Varints */

  method DecodeVarint32(stream: IStream) returns (ok: bool, value: nat)
    requires stream.Valid()
    modifies stream
    ensures stream.End() == old(stream.End())
    ensures stream.Valid() && GetPbVarint32(old(stream.Rest())) == if ok then Some((value, stream.Rest())) else None
  {
    hide OrShifted;
    value := 0;
    var next;
    ok, next := stream.ReadByte();
    if !ok {
      return;
    }
    if next < 128 {
      value := next;
      return;
    }
    var bitpos, result := 7, next % 128;
    ghost var goal := Varint32Rest(stream.Rest(), result, bitpos);
    while next >= 128
      invariant stream.Valid() && stream.End() == old(stream.End()) && 0 <= bitpos < 256 && 0 <= result < TWO32
      invariant next >= 128 ==> Varint32Rest(stream.Rest(), result, bitpos) == goal
      invariant next < 128 ==> goal == if bitpos == 35 && next / 16 % 8 != 0 then None else Some((result, stream.Rest()))
      decreases stream.bytesLeft
    {
      ok, next := stream.ReadByte();
      if !ok {
        return;
      }
      if bitpos >= 32 {
        var extension := if bitpos < 63 then 0xff else 0x01;
        if next % 128 != 0 && (result < 0x8000_0000 || next != extension) {
          return false, 0;
        }
      } else {
        result := OrShifted(result, next % 128, bitpos);
      }
      bitpos := (bitpos + 7) % 256;
    }
    if bitpos == 35 && next / 16 % 8 != 0 {
      return false, 0;
    }
    value := result;
  }

  // The loop that DecodeVarint models, on a stream.
  method DecodeVarint64(stream: IStream) returns (ok: bool, value: nat)
    requires stream.Valid()
    modifies stream
    ensures stream.End() == old(stream.End())
    ensures stream.Valid() && GetVarint64(old(stream.Rest())) == if ok then Some((value, stream.Rest())) else None
  {
    var rest;
    value, rest, ok := DecodeVarint(stream.data[stream.state..stream.state + stream.bytesLeft], 10, TWO64);
    if ok {
      ghost var before := stream.Rest();
      RestIsSuffix(before);
      stream.state := stream.state + (stream.bytesLeft - |rest|);
      stream.bytesLeft := |rest|;
    }
  }

  lemma RestIsSuffix(b: Bytes)
    ensures GetVarint64(b).Some? ==> GetVarint64(b).value.1 == b[|b| - |GetVarint64(b).value.1|..]
  {
  }

  /** Strings and substreams */

  // Splits off a window of the length that comes first.
  method MakeStringSubstream(stream: IStream) returns (ok: bool, substream: IStream)
    requires stream.Valid()
    modifies stream
    ensures stream.Valid() && fresh(substream) && substream.Valid()
    ensures ok <==> GetString(old(stream.Rest())).Some?
    ensures ok ==> GetString(old(stream.Rest())).value.0 == substream.Rest() && substream.data == stream.data
    ensures ok ==> stream.state == substream.state
    ensures if ok then substream.End() + stream.bytesLeft == old(stream.End()) else stream.End() == old(stream.End())
    ensures ok ==>
      var end := substream.End();
      end + stream.bytesLeft <= |stream.data| && GetString(old(stream.Rest())).value.1 == stream.data[end..end + stream.bytesLeft]
  {
    var size;
    ok, size := DecodeVarint32(stream);
    substream := new IStream(stream.data, stream.state, stream.bytesLeft);
    if !ok {
      return;
    }
    if substream.bytesLeft < size {
      return false, substream;
    }
    ghost var all := stream.Rest();
    substream.bytesLeft := size;
    stream.bytesLeft := stream.bytesLeft - size;
    assert all[..size] == substream.Rest();
    assert all[size..] == stream.data[stream.state + size..stream.state + size + stream.bytesLeft];
  }

  // Whatever is left in the window is skipped.
  method CloseStringSubstream(stream: IStream, substream: IStream)
    requires stream != substream && substream.Valid() && substream.data == stream.data
    requires substream.End() + stream.bytesLeft <= |stream.data|
    modifies stream, substream
    ensures stream.Valid()
    ensures var end := old(substream.End());
      stream.Rest() == stream.data[end..end + old(stream.bytesLeft)] && stream.bytesLeft == old(stream.bytesLeft) && stream.state == end
  {
    if substream.bytesLeft > 0 {
      var _, _ := substream.Read(substream.bytesLeft);
    }
    stream.state := substream.state;
  }

  method ReadString(stream: IStream) returns (ok: bool, s: Bytes)
    requires stream.Valid()
    modifies stream
    ensures stream.End() == old(stream.End())
    ensures stream.Valid()
    ensures GetString(old(stream.Rest())) == if ok then Some((s, stream.Rest())) else None
  {
    var size;
    s := [];
    ok, size := DecodeVarint32(stream);
    if ok {
      ok, s := stream.Read(size);
    }
  }

  method SkipFieldOf(stream: IStream, wireType: nat) returns (ok: bool)
    requires stream.Valid()
    modifies stream
    ensures stream.End() == old(stream.End())
    ensures stream.Valid() && SkipField(old(stream.Rest()), wireType) == if ok then Some(stream.Rest()) else None
  {
    var skipped: Bytes := [];
    if wireType == WT_VARINT {
      ok := SkipVarintOf(stream);
    } else if wireType == WT_64BIT {
      ok, skipped := stream.Read(8);
    } else if wireType == WT_STRING {
      var size;
      ok, size := DecodeVarint32(stream);
      if ok {
        ok, skipped := stream.Read(size);
      }
    } else if wireType == WT_32BIT {
      ok, skipped := stream.Read(4);
    } else {
      ok := false;
    }
  }

  method SkipVarintOf(stream: IStream) returns (ok: bool)
    requires stream.Valid()
    modifies stream
    ensures stream.End() == old(stream.End())
    ensures stream.Valid() && SkipVarint(old(stream.Rest())) == if ok then Some(stream.Rest()) else None
  {
    var more, next := true, 0;
    while more
      invariant stream.Valid() && stream.End() == old(stream.End())
      invariant SkipVarint(old(stream.Rest())) == if more then SkipVarint(stream.Rest()) else Some(stream.Rest())
      decreases stream.bytesLeft, more
    {
      ok, next := stream.ReadByte();
      if !ok {
        return;
      }
      more := next >= 128;
    }
    ok := true;
  }

  /** Numbers and other values */

  // What DecodeNumber makes of a decoded varint.
  function Clamped(t: Type, v: nat): Option<Value> {
    match t
    case Int(size) =>
      if size !in {1, 2, 4, 8} then None
      else
        var n := if size == 8 then Signed(v, 8) else Signed(v, 4);
        if Signed(n, size) == n then Some(Num(n)) else None
    case Uint(size) => if size in {1, 2, 4, 8} && v < UnsignedLimit(size) then Some(Num(v)) else None
    case Sint(size) =>
      var n := UnZigZag(v);
      if size in {1, 2, 4, 8} && Signed(n, size) == n then Some(Num(n)) else None
    case _ => None
  }

  lemma NumberIsClamped(t: Type, b: Bytes)
    requires t.Int? || t.Uint? || t.Sint?
    ensures DecodeNumber(t, b) ==
      match GetVarint64(b)
      case None => None
      case Some(p) => (match Clamped(t, p.0) case None => None case Some(v) => Some((v, p.1)))
  {
  }

  method DecodeNumberOf(stream: IStream, t: Type) returns (ok: bool, v: Value)
    requires stream.Valid()
    modifies stream
    ensures stream.End() == old(stream.End())
    ensures stream.Valid() && DecodeNumber(t, old(stream.Rest())) == if ok then Some((v, stream.Rest())) else None
  {
    hide GetPbVarint32, GetVarint64, Signed, UnZigZag;
    v := Num(0);
    if t.Int? || t.Uint? || t.Sint? {
      NumberIsClamped(t, stream.Rest());
      hide DecodeNumber;
      var n;
      ok, n := DecodeVarint64(stream);
      if ok {
        var c := Clamped(t, n);
        ok := c.Some?;
        v := if ok then c.value else v;
      }
    } else if t.Bool? {
      var n;
      ok, n := DecodeVarint32(stream);
      v := Num(if n != 0 then 1 else 0);
    } else if t.Fix32? {
      var bytes;
      ok, bytes := stream.Read(4);
      v := if ok then Num(DecodeFixed(bytes)) else v;
    } else if t.Fix64? {
      var bytes;
      ok, bytes := stream.Read(8);
      v := if ok then Num(DecodeFixed(bytes)) else v;
    } else {
      ok := false;
    }
  }

  method DecodeBlob(stream: IStream, t: Type) returns (ok: bool, v: Value)
    requires stream.Valid() && (t.Blob? || t.Text? || t.FixedBlob?)
    modifies stream
    ensures stream.End() == old(stream.End())
    ensures stream.Valid()
    ensures forall held :: DecodeValue(t, held, old(stream.Rest())) == if ok then Some((v, stream.Rest())) else None
  {
    hide GetString;
    v := Str([]);
    var s;
    ok, s := ReadString(stream);
    if !ok {
      return;
    }
    match t {
      case Blob(max) =>
        ok := |s| <= max;
        v := Str(s);
      case Text(max) =>
        ok := |s| + 1 <= max;
        v := Str(UpToNul(s));
      case FixedBlob(n) =>
        ok := s == [] || |s| == n;
        v := Str(if s == [] then Zeros(n) else s);
    }
  }

  // held is what the field holds already; messages are merged into it.
  method DecodeValueOf(stream: IStream, t: Type, held: Value) returns (ok: bool, v: Value)
    requires stream.Valid() && DistinctTags(t)
    modifies stream
    ensures stream.End() <= old(stream.End()) && (ok ==> stream.End() == old(stream.End()))
    ensures stream.Valid() && DecodeValue(t, held, old(stream.Rest())) == if ok then Some((v, stream.Rest())) else None
    decreases stream.bytesLeft, 0
  {
    if t.Blob? || t.Text? || t.FixedBlob? {
      ok, v := DecodeBlob(stream, t);
    } else if t.Message? {
      ok, v := DecodeSubmessage(stream, t.fields, held);
    } else {
      ok, v := DecodeNumberOf(stream, t);
    }
  }

  method DecodeSubmessage(stream: IStream, fs: seq<Field>, held: Value) returns (ok: bool, v: Value)
    requires stream.Valid() && DistinctTags(Message(fs))
    modifies stream
    ensures stream.End() <= old(stream.End()) && (ok ==> stream.End() == old(stream.End()))
    ensures stream.Valid()
    ensures DecodeValue(Message(fs), held, old(stream.Rest())) == if ok then Some((v, stream.Rest())) else None
    decreases stream.bytesLeft, 0, 1
  {
    hide GetString, DecodeMsg, Defaults;
    v := held;
    ghost var before := stream.bytesLeft;
    var substream;
    ok, substream := MakeStringSubstream(stream);
    if !ok {
      return;
    }
    assert substream.bytesLeft < before;
    var m := if held.Msg? && |held.m| == |fs| then held.m else Defaults(fs);
    ok, m := DecodeNoInit(substream, fs, m);
    CloseStringSubstream(stream, substream);
    v := Msg(m);
  }

  // Tags of a descriptor differ, and none is zero, all the way down.
  ghost predicate DistinctTags(t: Type) {
    t.Message? ==> DistinctFields(t.fields)
  }

  ghost predicate DistinctField(f: Field) {
    f.tag > 0 && DistinctTags(f.typ)
  }

  ghost predicate DistinctFields(fs: seq<Field>)
    decreases fs
  {
    && (forall i, j :: 0 <= i < j < |fs| ==> fs[i].tag != fs[j].tag)
    && (forall i :: 0 <= i < |fs| ==> DistinctField(fs[i]))
  }

  // Entries until the window is empty or the array is full, in which case nothing may be left.
  method DecodePackedOf(stream: IStream, f: Field, vs0: seq<Value>) returns (ok: bool, vs: seq<Value>)
    requires stream.Valid() && f.rule.Repeated?
    modifies stream
    ensures stream.Valid()
    ensures ok <==> DecodePacked(f.typ, vs0, f.rule.max, old(stream.Rest())).Some?
    ensures ok ==> vs == DecodePacked(f.typ, vs0, f.rule.max, old(stream.Rest())).value && stream.bytesLeft == 0
    ensures stream.End() == old(stream.End())
  {
    hide DecodeNumber;
    vs := vs0;
    ok := true;
    ghost var goal := DecodePacked(f.typ, vs0, f.rule.max, stream.Rest());
    while stream.bytesLeft > 0 && |vs| < f.rule.max
      invariant stream.Valid() && DecodePacked(f.typ, vs, f.rule.max, stream.Rest()) == goal
      invariant stream.End() == old(stream.End())
      decreases stream.bytesLeft
    {
      var v;
      ok, v := DecodeNumberOf(stream, f.typ);
      if !ok {
        return;
      }
      vs := vs + [v];
    }
    if stream.bytesLeft != 0 {
      ok := false;
    }
  }

  /** The cyclic iterator over the fields of a descriptor */

  class FieldIter {
    const fields: seq<Field>
    var pos: nat
    var requiredFieldIndex: nat

    // An empty descriptor has only its terminator to stand on.
    ghost predicate Valid()
      reads this
    {
      (if fields == [] then pos == 0 else pos < |fields|) && requiredFieldIndex == RequiredIn(fields[..pos])
    }

    constructor (fields: seq<Field>)
      ensures Valid() && this.fields == fields && pos == 0
    {
      this.fields, pos, requiredFieldIndex := fields, 0, 0;
    }

    // Moves on; past the last field it wraps around and says so.
    method Next() returns (more: bool)
      requires Valid()
      modifies this
      ensures Valid() && more == (old(pos) + 1 < |fields|) && pos == if more then old(pos) + 1 else 0
    {
      if fields == [] {
        return false;
      }
      if pos + 1 == |fields| {
        pos, requiredFieldIndex := 0, 0;
        return false;
      }
      assert fields[..pos + 1][..pos] == fields[..pos];
      if fields[pos].rule.Required? {
        requiredFieldIndex := requiredFieldIndex + 1;
      }
      pos := pos + 1;
      more := true;
    }

    // Searches from where it stands, all the way around if need be.
    method Find(tag: nat) returns (found: bool)
      requires Valid() && forall i, j :: 0 <= i < j < |fields| ==> fields[i].tag != fields[j].tag
      modifies this
      ensures Valid() && IndexOf(fields, tag) == if found then Some(pos) else None
    {
      if fields == [] {
        return false;
      }
      var start := pos;
      var turns: nat := 0;
      while turns == 0 || pos != start
        invariant Valid() && start < |fields| && turns <= |fields|
        invariant pos == if start + turns < |fields| then start + turns else start + turns - |fields|
        invariant forall i :: 0 <= i < |fields| && Passed(start, turns, |fields|, i) ==> fields[i].tag != tag
        decreases |fields| - turns
      {
        if fields[pos].tag == tag {
          OnlyIndex(fields, pos);
          return true;
        }
        var _ := Next();
        turns := turns + 1;
      }
      NotThere(fields, tag);
      found := false;
    }

    // How many fields are required: the index at the last field, plus one if that is required, too.
    method CountRequired() returns (n: nat)
      requires Valid()
      modifies this
      ensures Valid() && n == RequiredIn(fields)
    {
      n := requiredFieldIndex;
      if fields == [] {
        return;
      }
      var last := fields[pos];
      var more := true;
      while more
        invariant Valid() && (more ==> n == requiredFieldIndex && last == fields[pos])
        invariant !more ==> n == RequiredIn(fields[..|fields| - 1]) && last == fields[|fields| - 1]
        decreases more, |fields| - pos
      {
        n, last := requiredFieldIndex, fields[pos];
        more := Next();
        if more {
          n, last := requiredFieldIndex, fields[pos];
        }
      }
      if last.rule.Required? {
        n := n + 1;
      }
    }
  }

  // The positions visited in so many turns from start.
  ghost predicate Passed(start: nat, turns: nat, n: nat, i: int) {
    start <= i < start + turns || i < start + turns - n
  }

  lemma NotThere(fs: seq<Field>, tag: nat)
    requires forall i :: 0 <= i < |fs| ==> fs[i].tag != tag
    ensures IndexOf(fs, tag) == None
  {
  }

  /** Fields and messages */

  method DecodeFieldOf(stream: IStream, f: Field, wireType: nat, s: Slot) returns (ok: bool, r: Slot)
    requires stream.Valid() && DistinctField(f)
    modifies stream
    ensures stream.Valid() && stream.End() <= old(stream.End()) && (ok ==> stream.End() == old(stream.End()))
    ensures DecodeField(f, wireType, s, old(stream.Rest())) == if ok then Some((r, stream.Rest())) else None
    decreases stream.bytesLeft, 1
  {
    hide DecodeValue, GetString, DecodePacked;
    r := s;
    if !f.rule.Repeated? {
      var v;
      ok, v := DecodeValueOf(stream, f.typ, Held(f, s));
      r := One(Some(v));
    } else if wireType == WT_STRING && Packable(f.typ) {
      var substream, vs;
      ok, substream := MakeStringSubstream(stream);
      if !ok {
        return;
      }
      ok, vs := DecodePackedOf(substream, f, Entries(s));
      if !ok {
        return;
      }
      CloseStringSubstream(stream, substream);
      r := Many(vs);
    } else if |Entries(s)| >= f.rule.max {
      ok := false;
    } else {
      var v;
      ok, v := DecodeValueOf(stream, f.typ, Default(f.typ));
      r := Many(Entries(s) + [v]);
    }
  }

  // pb_decode_noinit: into a message that has its defaults, or anything, already.
  method DecodeNoInit(stream: IStream, fs: seq<Field>, m0: seq<Slot>) returns (ok: bool, m: seq<Slot>)
    requires stream.Valid() && |m0| == |fs| && DistinctFields(fs)
    modifies stream
    ensures stream.Valid() && stream.End() <= old(stream.End()) && (ok ==> stream.End() == old(stream.End()))
    ensures ok <==> DecodeMsg(fs, old(stream.Rest()), m0, {}).Some?
    ensures ok ==> DecodeMsg(fs, old(stream.Rest()), m0, {}) == Some((m, stream.Rest()))
    // it fails exactly when a field does or a required one does not occur
    ensures ok <==> Parse(fs, old(stream.Rest()), m0).Some? && RequiredFound(fs, TopTags(fs, old(stream.Rest())))
    decreases stream.bytesLeft, 2
  {
    hide GetPbVarint32, DecodeField, SkipField, SetSlot, RequiredFound, Parse, TopTags;
    DecodesIff(fs, stream.Rest(), m0);
    m := m0;
    ok := false;
    var seen: set<nat> := {};
    var iter := new FieldIter(fs);
    var reading := stream.bytesLeft > 0;
    ghost var b0 := stream.Rest();
    while reading
      invariant stream.Valid() && stream.End() == old(stream.End()) && stream.bytesLeft <= old(stream.bytesLeft)
      invariant iter.Valid() && fresh(iter) && iter.fields == fs && |m| == |fs|
      invariant reading ==> stream.bytesLeft > 0 && DecodeMsg(fs, stream.Rest(), m, seen) == DecodeMsg(fs, b0, m0, {})
      invariant !reading ==> DecodeMsg(fs, b0, m0, {}) == if AllSeen(fs, seen) then Some((m, stream.Rest())) else None
      decreases stream.bytesLeft, reading
    {
      MsgStep(fs, stream.Rest(), m, seen);
      var tag;
      ok, tag := DecodeVarint32(stream);
      if !ok {
        return;
      }
      if tag == 0 {
        reading := false;
      } else {
        var found := iter.Find(tag / 8);
        if !found {
          ok := SkipFieldOf(stream, tag % 8);
          if !ok {
            return;
          }
        } else {
          var f, i := fs[iter.pos], iter.pos;
          if f.rule.Required? && iter.requiredFieldIndex < MAX_REQUIRED {
            seen := seen + {iter.requiredFieldIndex};
          }
          var s;
          ok, s := DecodeFieldOf(stream, f, tag % 8, m[i]);
          if !ok {
            return;
          }
          m := SetSlot(fs, m, i, s);
        }
        if stream.bytesLeft == 0 {
          MsgEnds(fs, m, seen, stream.Rest());
        }
        reading := stream.bytesLeft > 0;
      }
    }
    var required := iter.CountRequired();
    ok := forall k | 0 <= k < required :: k < MAX_REQUIRED ==> k in seen;
  }

  // One turn of the loop.
  lemma MsgStep(fs: seq<Field>, b: Bytes, m: seq<Slot>, seen: set<nat>)
    requires |m| == |fs| && b != []
    ensures DecodeMsg(fs, b, m, seen) ==
      match GetPbVarint32(b)
      case None => None
      case Some(tag) =>
        if tag.0 == 0 then (if AllSeen(fs, seen) then Some((m, tag.1)) else None)
        else
          match IndexOf(fs, tag.0 / 8)
          case None => (match SkipField(tag.1, tag.0 % 8) case None => None case Some(rest) => DecodeMsg(fs, rest, m, seen))
          case Some(i) =>
            match DecodeField(fs[i], tag.0 % 8, m[i], tag.1)
            case None => None
            case Some(p) => DecodeMsg(fs, p.1, SetSlot(fs, m, i, p.0), See(fs, i, seen))
  {
  }

  lemma MsgEnds(fs: seq<Field>, m: seq<Slot>, seen: set<nat>, b: Bytes)
    requires |m| == |fs| && b == []
    ensures DecodeMsg(fs, b, m, seen) == if AllSeen(fs, seen) then Some((m, b)) else None
  {
  }

  // pb_decode from a buffer.
  method Decode(data: Bytes, fs: seq<Field>) returns (ok: bool, m: seq<Slot>)
    requires DistinctFields(fs)
    ensures ok <==> DecodeMsg(fs, data, Defaults(fs), {}).Some?
    ensures ok ==> DecodeMsg(fs, data, Defaults(fs), {}).value.0 == m
    ensures ok <==> Parse(fs, data, Defaults(fs)).Some? && RequiredFound(fs, TopTags(fs, data))
  {
    var stream := new IStream(data, 0, |data|);
    assert stream.Rest() == data;
    ok, m := DecodeNoInit(stream, fs, Defaults(fs));
  }
}
