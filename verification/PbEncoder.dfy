/** The encoder: output streams that write or only count, and the two passes over a submessage. */
module PbEncoder {
  import opened Keys
  import opened Wrappers
  import opened Coding
  import opened PbFormat

  // Without a callback a stream only counts. Sizes do not wrap here.
  class OStream {
    const writing: bool
    const maxSize: nat
    var out: Bytes
    var bytesWritten: nat

    constructor (writing: bool, maxSize: nat, out: Bytes)
      ensures this.writing == writing && this.maxSize == maxSize && this.out == out && bytesWritten == 0
    {
      this.writing, this.maxSize, this.out, this.bytesWritten := writing, maxSize, out, 0;
    }

    ghost function Now(): Progress
      reads this
    {
      Progress(writing, maxSize, out, bytesWritten)
    }

    // Data is null in a sizing pass, when only the count matters.
    method Write(data: Bytes, count: nat) returns (ok: bool)
      requires Now().Sane() && (writing ==> count == |data|)
      modifies this
      ensures Now().Sane() && Effect(Some(count), if writing then data else [], old(Now()), ok, Now())
    {
      if count > 0 && writing {
        if bytesWritten + count > maxSize {
          return false;
        }
        out := out + data;
      }
      bytesWritten := bytesWritten + count;
      ok := true;
    }
  }

  datatype Progress = Progress(writing: bool, maxSize: nat, out: Bytes, bytesWritten: nat) {
    predicate Sane() {
      writing ==> bytesWritten <= maxSize
    }
  }

  // The outcome of encoding something of this size, None if it cannot be encoded: it succeeds if
  // and only if there is something and it fits; then it is counted, and written unless the stream
  // only counts.
  ghost predicate Effect(size: Option<nat>, data: Bytes, p: Progress, ok: bool, q: Progress) {
    && q.writing == p.writing && q.maxSize == p.maxSize
    && (ok <==> size.Some? && (p.writing ==> p.bytesWritten + size.value <= p.maxSize))
    && (ok ==> q.bytesWritten == p.bytesWritten + size.value && q.out == p.out + if p.writing then data else [])
    && (!p.writing ==> q.out == p.out)
  }

  function Size(e: Option<Bytes>): Option<nat> {
    match e case None => None case Some(b) => Some(|b|)
  }

  ghost predicate Encodes(e: Option<Bytes>, p: Progress, ok: bool, q: Progress) {
    Effect(Size(e), if e.Some? then e.value else [], p, ok, q)
  }

  // One thing after another; a failure of either is a failure of both.
  function Both(a: Option<Bytes>, b: Option<Bytes>): Option<Bytes> {
    if a.None? || b.None? then None else Some(a.value + b.value)
  }

  lemma BothAssoc(a: Option<Bytes>, b: Option<Bytes>, c: Option<Bytes>)
    ensures Both(a, Both(b, c)) == Both(Both(a, b), c)
  {
    if a.Some? && b.Some? && c.Some? {
      assert a.value + (b.value + c.value) == (a.value + b.value) + c.value;
    }
  }

  lemma BothNothing(a: Option<Bytes>)
    ensures Both(Some([]), a) == a && Both(a, Some([])) == a
  {
    if a.Some? {
      assert [] + a.value == a.value && a.value + [] == a.value;
    }
  }

  lemma Then(a: Option<Bytes>, b: Option<Bytes>, p: Progress, q: Progress, ok: bool, r: Progress)
    requires p.Sane() && Encodes(a, p, true, q) && Encodes(b, q, ok, r)
    ensures Encodes(Both(a, b), p, ok, r)
  {
  }

  lemma Fails(a: Option<Bytes>, b: Option<Bytes>, p: Progress, q: Progress)
    requires Encodes(a, p, false, q)
    ensures Encodes(Both(a, b), p, false, q)
  {
  }

  // What the C structures guarantee about a message in memory; counts and lengths may be anything.
  ghost predicate Shaped(t: Type, v: Value)
    decreases v
  {
    match t
    case Message(fs) => v.Msg? && ShapedMsg(fs, v.m)
    case Blob(_) => v.Str?
    case Text(_) => v.Str?
    case FixedBlob(_) => v.Str?
    case _ => v.Num?
  }

  ghost predicate ShapedSlot(f: Field, s: Slot)
    decreases s
  {
    match s
    case Many(vs) => f.rule.Repeated? && forall i :: 0 <= i < |vs| ==> Shaped(f.typ, vs[i])
    case One(v) => !f.rule.Repeated? && (v.Some? ==> Shaped(f.typ, v.value))
  }

  ghost predicate ShapedMsg(fs: seq<Field>, m: seq<Slot>)
    decreases m
  {
    |fs| == |m| && forall i :: 0 <= i < |m| ==> ShapedSlot(fs[i], m[i])
  }

  /** Varints */

  method EncodeVarint(stream: OStream, value: nat) returns (ok: bool)
    requires stream.Now().Sane()
    modifies stream
    ensures stream.Now().Sane() && Encodes(Some(Varint(value)), old(stream.Now()), ok, stream.Now())
  {
    if value <= 0x7f {
      ok := stream.Write([value], 1);
      return;
    }
    var buffer := VarintBuffer(value);
    ok := stream.Write(buffer, |buffer|);
  }

  // All bytes get the continuation bit, and the last one loses it again.
  method VarintBuffer(value: nat) returns (buffer: Bytes)
    requires value > 0x7f
    ensures buffer == Varint(value)
  {
    buffer := [];
    var v := value;
    ghost var last := 0;
    while v != 0
      invariant v == 0 ==> buffer != [] && buffer[|buffer| - 1] == last + 128 && 0 < last < 128
      invariant v == 0 ==> buffer[..|buffer| - 1] + [last] == Varint(value)
      invariant v != 0 ==> buffer + Varint(v) == Varint(value)
    {
      last := v % 128;
      VarintSplits(v);
      assert v / 128 != 0 ==> buffer + ([v % 128 + 128] + Varint(v / 128)) == Varint(value);
      buffer := buffer + [v % 128 + 128];
      v := v / 128;
    }
    buffer := buffer[|buffer| - 1 := buffer[|buffer| - 1] - 128];
  }

  method EncodeSvarint(stream: OStream, value: int) returns (ok: bool)
    requires stream.Now().Sane()
    modifies stream
    ensures stream.Now().Sane() && Encodes(Some(Varint(ZigZag(value) % TWO64)), old(stream.Now()), ok, stream.Now())
  {
    var doubled := (2 * value) % TWO64;
    ZigZagBits(value);
    ok := EncodeVarint(stream, if value < 0 then TWO64 - 1 - doubled else doubled);
  }

  // Inverting all 64 bits of the doubled number.
  lemma ZigZagBits(n: int)
    ensures ZigZag(n) % TWO64 == var doubled := (2 * n) % TWO64; if n < 0 then TWO64 - 1 - doubled else doubled
  {
  }

  /** Fields */

  method EncodeTag(stream: OStream, wireType: nat, tag: nat) returns (ok: bool)
    requires stream.Now().Sane()
    modifies stream
    ensures stream.Now().Sane() && Encodes(Some(FieldTag(tag, wireType)), old(stream.Now()), ok, stream.Now())
  {
    ok := EncodeVarint(stream, tag * 8 + wireType);
  }

  method EncodeString(stream: OStream, s: Bytes) returns (ok: bool)
    requires stream.Now().Sane()
    modifies stream
    ensures stream.Now().Sane() && Encodes(Some(Prefixed(s)), old(stream.Now()), ok, stream.Now())
  {
    hide Varint, Effect;
    ghost var p := stream.Now();
    ok := EncodeVarint(stream, |s|);
    assert Both(Some(Varint(|s|)), Some(s)) == Some(Prefixed(s));
    if !ok {
      Fails(Some(Varint(|s|)), Some(s), p, stream.Now());
      return;
    }
    ghost var q := stream.Now();
    ok := stream.Write(s, |s|);
    WroteBytes(s, q, ok, stream.Now());
    Then(Some(Varint(|s|)), Some(s), p, q, ok, stream.Now());
  }

  lemma WroteBytes(s: Bytes, p: Progress, ok: bool, q: Progress)
    requires Effect(Some(|s|), if p.writing then s else [], p, ok, q)
    ensures Encodes(Some(s), p, ok, q)
  {
  }

  method EncodeValueTo(stream: OStream, t: Type, v: Value) returns (ok: bool)
    requires stream.Now().Sane() && Shaped(t, v)
    modifies stream
    ensures stream.Now().Sane() && Encodes(EncodeValue(t, v), old(stream.Now()), ok, stream.Now())
    decreases v, 0
  {
    hide Effect;
    match v {
      case Num(n) => ok := EncodeNumber(stream, t, n);
      case Str(b) =>
        if t.Blob? && |b| > t.max {
          NothingEncodes(stream.Now());
          ok := false;
        } else {
          ok := EncodeString(stream, b);
        }
      case Msg(m) =>
        ok := EncodeSubmessage(stream, t.fields, m);
    }
  }

  method EncodeNumber(stream: OStream, t: Type, n: int) returns (ok: bool)
    requires stream.Now().Sane()
    modifies stream
    ensures stream.Now().Sane() && Encodes(EncodeValue(t, Num(n)), old(stream.Now()), ok, stream.Now())
  {
    hide Varint, Effect, ZigZag;
    match t {
      case Bool => ok := EncodeVarint(stream, if n != 0 then 1 else 0);
      case Int(_) => ok := EncodeVarint(stream, n % TWO64);
      case Uint(_) => ok := EncodeVarint(stream, n % TWO64);
      case Sint(_) => ok := EncodeSvarint(stream, n);
      case Fix32 => ok := EncodeFixed(stream, Fixed32(n % TWO32));
      case Fix64 => ok := EncodeFixed(stream, Fixed64(n % TWO64));
      case _ =>
        ok := false;
        NothingEncodes(stream.Now());
    }
  }

  lemma NothingEncodes(p: Progress)
    ensures Encodes(None, p, false, p)
  {
  }

  method EncodeFixed(stream: OStream, b: Bytes) returns (ok: bool)
    requires stream.Now().Sane()
    modifies stream
    ensures stream.Now().Sane() && Encodes(Some(b), old(stream.Now()), ok, stream.Now())
  {
    ok := stream.Write(b, |b|);
  }

  // The size comes from a pass that only counts; the second pass gets exactly that much room.
  method EncodeSubmessage(stream: OStream, fs: seq<Field>, m: seq<Slot>) returns (ok: bool)
    requires stream.Now().Sane() && ShapedMsg(fs, m)
    modifies stream
    ensures stream.Now().Sane() && Encodes(EncodeValue(Message(fs), Msg(m)), old(stream.Now()), ok, stream.Now())
    decreases m, 1
  {
    hide Varint;
    ghost var p := stream.Now();
    var sizing := new OStream(false, 0, []);
    ok := Encode(sizing, fs, m);
    if !ok {
      return;
    }
    var size := sizing.bytesWritten;
    ghost var e := EncodeMsg(fs, m).value;
    assert EncodeValue(Message(fs), Msg(m)) == Both(Some(Varint(size)), Some(e)) && size == |e|;
    ok := EncodeVarint(stream, size);
    if !ok {
      Fails(Some(Varint(size)), Some(e), p, stream.Now());
      return;
    }
    ghost var q := stream.Now();
    ok := WriteSized(stream, fs, m, size, e);
    Then(Some(Varint(size)), Some(e), p, q, ok, stream.Now());
  }

  method WriteSized(stream: OStream, fs: seq<Field>, m: seq<Slot>, size: nat, ghost e: Bytes) returns (ok: bool)
    requires stream.Now().Sane() && ShapedMsg(fs, m) && EncodeMsg(fs, m) == Some(e) && size == |e|
    modifies stream
    ensures stream.Now().Sane() && Encodes(Some(e), old(stream.Now()), ok, stream.Now())
    decreases m, 0, 1
  {
    if !stream.writing {
      ok := stream.Write([], size);
      return;
    }
    if stream.bytesWritten + size > stream.maxSize {
      return false;
    }
    var substream := new OStream(true, size, stream.out);
    ok := Encode(substream, fs, m);
    stream.bytesWritten := stream.bytesWritten + substream.bytesWritten;
    stream.out := substream.out;
    if substream.bytesWritten != size {
      ok := false;
    }
  }

  /** Arrays */

  function OneEntry(f: Field, tagged: bool, v: Value): Option<Bytes> {
    if tagged then Both(Some(FieldTag(f.tag, WireType(f.typ))), EncodeValue(f.typ, v)) else EncodeValue(f.typ, v)
  }

  lemma {:induction false} EntriesAppend(f: Field, tagged: bool, a: seq<Value>, b: seq<Value>)
    ensures EncodeEntries(f, tagged, a + b) == Both(EncodeEntries(f, tagged, a), EncodeEntries(f, tagged, b))
    decreases |a|
  {
    hide EncodeValue, FieldTag;
    if a == [] {
      assert a + b == b;
      BothNothing(EncodeEntries(f, tagged, b));
    } else {
      assert (a + b)[0] == a[0] && (a + b)[1..] == a[1..] + b;
      EntriesAppend(f, tagged, a[1..], b);
      EntriesFirst(f, tagged, a);
      EntriesFirst(f, tagged, a + b);
      BothAssoc(OneEntry(f, tagged, a[0]), EncodeEntries(f, tagged, a[1..]), EncodeEntries(f, tagged, b));
    }
  }

  lemma EntriesFirst(f: Field, tagged: bool, vs: seq<Value>)
    requires vs != []
    ensures EncodeEntries(f, tagged, vs) == Both(OneEntry(f, tagged, vs[0]), EncodeEntries(f, tagged, vs[1..]))
  {
  }

  lemma EntriesOne(f: Field, tagged: bool, v: Value)
    ensures EncodeEntries(f, tagged, [v]) == OneEntry(f, tagged, v)
  {
    hide OneEntry;
    EntriesFirst(f, tagged, [v]);
    assert [v][1..] == [];
    BothNothing(OneEntry(f, tagged, v));
  }

  method EncodeEntry(stream: OStream, f: Field, tagged: bool, v: Value) returns (ok: bool)
    requires stream.Now().Sane() && Shaped(f.typ, v)
    modifies stream
    ensures stream.Now().Sane() && Encodes(OneEntry(f, tagged, v), old(stream.Now()), ok, stream.Now())
    decreases v, 2
  {
    hide Effect;
    ghost var p := stream.Now();
    if tagged {
      ok := EncodeTag(stream, WireType(f.typ), f.tag);
      if !ok {
        Fails(Some(FieldTag(f.tag, WireType(f.typ))), EncodeValue(f.typ, v), p, stream.Now());
        return;
      }
    }
    ghost var q := stream.Now();
    ok := EncodeValueTo(stream, f.typ, v);
    if tagged {
      Then(Some(FieldTag(f.tag, WireType(f.typ))), EncodeValue(f.typ, v), p, q, ok, stream.Now());
    }
  }

  // Entries one after another, each with a tag or not.
  method EncodeEntriesTo(stream: OStream, f: Field, tagged: bool, vs: seq<Value>) returns (ok: bool)
    requires stream.Now().Sane() && forall i :: 0 <= i < |vs| ==> Shaped(f.typ, vs[i])
    modifies stream
    ensures stream.Now().Sane() && Encodes(EncodeEntries(f, tagged, vs), old(stream.Now()), ok, stream.Now())
    decreases vs, 1
  {
    hide Effect, Shaped;
    ghost var p := stream.Now();
    NothingWritten(p);
    assert vs[..0] == [] && EncodeEntries(f, tagged, []) == Some([]);
    for i := 0 to |vs|
      invariant stream.Now().Sane() && Encodes(EncodeEntries(f, tagged, vs[..i]), p, true, stream.Now())
    {
      ghost var q := stream.Now();
      assert vs[..i + 1] == vs[..i] + [vs[i]] && vs == vs[..i + 1] + vs[i + 1..];
      EntriesAppend(f, tagged, vs[..i], [vs[i]]);
      EntriesOne(f, tagged, vs[i]);
      ok := EncodeEntry(stream, f, tagged, vs[i]);
      Then(EncodeEntries(f, tagged, vs[..i]), OneEntry(f, tagged, vs[i]), p, q, ok, stream.Now());
      if !ok {
        EntriesAppend(f, tagged, vs[..i + 1], vs[i + 1..]);
        Fails(EncodeEntries(f, tagged, vs[..i + 1]), EncodeEntries(f, tagged, vs[i + 1..]), p, stream.Now());
        return;
      }
    }
    assert vs[..|vs|] == vs;
    ok := true;
  }

  lemma NothingWritten(p: Progress)
    requires p.Sane()
    ensures Encodes(Some([]), p, true, p)
  {
  }

  // Numbers are packed after their total size, which is known for the fixed ones and otherwise
  // found by a pass that only counts; other entries get a tag each.
  method EncodeArrayTo(stream: OStream, f: Field, vs: seq<Value>) returns (ok: bool)
    requires stream.Now().Sane() && f.rule.Repeated? && forall i :: 0 <= i < |vs| ==> Shaped(f.typ, vs[i])
    modifies stream
    ensures stream.Now().Sane() && Encodes(EncodeArray(f, vs), old(stream.Now()), ok, stream.Now())
    decreases vs, 3
  {
    hide Effect, Shaped;
    ghost var p := stream.Now();
    if vs == [] {
      NothingWritten(p);
      return true;
    }
    if |vs| > f.rule.max {
      NothingEncodes(p);
      return false;
    }
    if Packable(f.typ) {
      ok := EncodePackedTo(stream, f, vs);
    } else {
      ok := EncodeEntriesTo(stream, f, true, vs);
    }
  }

  method EncodePackedTo(stream: OStream, f: Field, vs: seq<Value>) returns (ok: bool)
    requires stream.Now().Sane() && Packable(f.typ) && forall i :: 0 <= i < |vs| ==> Shaped(f.typ, vs[i])
    modifies stream
    ensures EncodeEntries(f, false, vs).Some?
    ensures stream.Now().Sane()
    ensures Encodes(Some(FieldTag(f.tag, WT_STRING) + Prefixed(EncodeEntries(f, false, vs).value)), old(stream.Now()), ok, stream.Now())
    decreases vs, 2
  {
    hide Effect, Shaped, Varint, EncodeEntries;
    PackedSize(f, vs);
    ghost var p, tag, e := stream.Now(), FieldTag(f.tag, WT_STRING), EncodeEntries(f, false, vs).value;
    var size := 4 * |vs|;
    if f.typ.Fix64? {
      size := 8 * |vs|;
    } else if !f.typ.Fix32? {
      var sizing := new OStream(false, 0, []);
      NothingWritten(sizing.Now());
      ok := EncodeEntriesTo(sizing, f, false, vs);
      Counted(e, ok, sizing.Now());
      size := sizing.bytesWritten;
    }
    assert size == |e|;
    assert Both(Some(tag), Both(Some(Varint(size)), Some(e))) == Some(tag + Prefixed(e));
    ok := EncodeTag(stream, WT_STRING, f.tag);
    if !ok {
      Fails(Some(tag), Both(Some(Varint(size)), Some(e)), p, stream.Now());
      return;
    }
    ghost var q := stream.Now();
    ok := EncodeVarint(stream, size);
    if !ok {
      Fails(Some(Varint(size)), Some(e), q, stream.Now());
      Then(Some(tag), Both(Some(Varint(size)), Some(e)), p, q, ok, stream.Now());
      return;
    }
    ghost var r := stream.Now();
    if !stream.writing {
      ok := stream.Write([], size);
      CountedOnly(e, r, ok, stream.Now());
    } else {
      ok := EncodeEntriesTo(stream, f, false, vs);
    }
    Then(Some(Varint(size)), Some(e), q, r, ok, stream.Now());
    Then(Some(tag), Both(Some(Varint(size)), Some(e)), p, q, ok, stream.Now());
  }

  // Numbers can always be encoded, the fixed ones in four or eight bytes.
  lemma {:induction false} PackedSize(f: Field, vs: seq<Value>)
    requires Packable(f.typ) && forall i :: 0 <= i < |vs| ==> Shaped(f.typ, vs[i])
    ensures EncodeEntries(f, false, vs).Some?
    ensures f.typ.Fix32? ==> |EncodeEntries(f, false, vs).value| == 4 * |vs|
    ensures f.typ.Fix64? ==> |EncodeEntries(f, false, vs).value| == 8 * |vs|
    decreases |vs|
  {
    if vs != [] {
      assert Shaped(f.typ, vs[0]);
      PackedSize(f, vs[1..]);
    }
  }

  // A pass that only counts cannot fail on something that can be encoded.
  lemma Counted(e: Bytes, ok: bool, q: Progress)
    requires Encodes(Some(e), Progress(false, 0, [], 0), ok, q)
    ensures ok && q.bytesWritten == |e|
  {
  }

  lemma CountedOnly(e: Bytes, p: Progress, ok: bool, q: Progress)
    requires !p.writing && Effect(Some(|e|), [], p, ok, q)
    ensures Encodes(Some(e), p, ok, q)
  {
  }

  /** Messages */

  method EncodeFieldTo(stream: OStream, f: Field, s: Slot) returns (ok: bool)
    requires stream.Now().Sane() && ShapedSlot(f, s)
    modifies stream
    ensures stream.Now().Sane() && Encodes(EncodeField(f, s), old(stream.Now()), ok, stream.Now())
    decreases s, 3
  {
    hide Effect, Shaped;
    match s {
      case Many(vs) =>
        ok := EncodeArrayTo(stream, f, vs);
      case One(None) =>
        NothingWritten(stream.Now());
        ok := true;
      case One(Some(v)) =>
        if f.rule == Optional(false) && IsDefaultValue(f.typ, v) {
          NothingWritten(stream.Now());
          ok := true;
        } else {
          TaggedIsEntry(f, v);
          ok := EncodeEntry(stream, f, true, v);
        }
    }
  }

  lemma TaggedIsEntry(f: Field, v: Value)
    ensures EncodeTagged(f, v) == OneEntry(f, true, v)
  {
  }

  lemma {:induction false} MsgAppend(fs: seq<Field>, m: seq<Slot>, i: nat)
    requires |fs| == |m| && i <= |m|
    ensures EncodeMsg(fs, m) == Both(EncodeMsg(fs[..i], m[..i]), EncodeMsg(fs[i..], m[i..]))
    decreases i
  {
    hide EncodeField;
    if i > 0 {
      MsgAppend(fs[1..], m[1..], i - 1);
      assert fs[..i][1..] == fs[1..][..i - 1] && m[..i][1..] == m[1..][..i - 1];
      assert fs[1..][i - 1..] == fs[i..] && m[1..][i - 1..] == m[i..];
      MsgFirst(fs, m);
      MsgFirst(fs[..i], m[..i]);
      BothAssoc(EncodeField(fs[0], m[0]), EncodeMsg(fs[1..][..i - 1], m[1..][..i - 1]), EncodeMsg(fs[i..], m[i..]));
    } else {
      assert EncodeMsg(fs[..0], m[..0]) == Some([]);
      assert fs[0..] == fs && m[0..] == m;
      BothNothing(EncodeMsg(fs, m));
    }
  }

  lemma MsgFirst(fs: seq<Field>, m: seq<Slot>)
    requires |fs| == |m| > 0
    ensures EncodeMsg(fs, m) == Both(EncodeField(fs[0], m[0]), EncodeMsg(fs[1..], m[1..]))
  {
  }

  lemma MsgStep(fs: seq<Field>, m: seq<Slot>, i: nat)
    requires |fs| == |m| && i < |m|
    ensures EncodeMsg(fs[..i + 1], m[..i + 1]) == Both(EncodeMsg(fs[..i], m[..i]), EncodeField(fs[i], m[i]))
  {
    hide EncodeField;
    MsgAppend(fs[..i + 1], m[..i + 1], i);
    assert fs[..i + 1][..i] == fs[..i] && m[..i + 1][..i] == m[..i];
    assert fs[..i + 1][i..] == [fs[i]] && m[..i + 1][i..] == [m[i]];
    MsgFirst([fs[i]], [m[i]]);
    assert [fs[i]][1..] == [] && [m[i]][1..] == [];
    BothNothing(EncodeField(fs[i], m[i]));
  }

  // The fields in the order of the descriptor, which an empty message has none of.
  method Encode(stream: OStream, fs: seq<Field>, m: seq<Slot>) returns (ok: bool)
    requires stream.Now().Sane() && ShapedMsg(fs, m)
    modifies stream
    ensures stream.Now().Sane() && Encodes(EncodeMsg(fs, m), old(stream.Now()), ok, stream.Now())
    decreases m, 0, 0
  {
    hide Effect;
    ghost var p := stream.Now();
    NothingWritten(p);
    assert EncodeMsg(fs[..0], m[..0]) == Some([]);
    for i := 0 to |fs|
      invariant stream.Now().Sane() && Encodes(EncodeMsg(fs[..i], m[..i]), p, true, stream.Now())
    {
      ghost var q := stream.Now();
      MsgStep(fs, m, i);
      ok := EncodeFieldTo(stream, fs[i], m[i]);
      Then(EncodeMsg(fs[..i], m[..i]), EncodeField(fs[i], m[i]), p, q, ok, stream.Now());
      if !ok {
        MsgAppend(fs, m, i + 1);
        Fails(EncodeMsg(fs[..i + 1], m[..i + 1]), EncodeMsg(fs[i + 1..], m[i + 1..]), p, stream.Now());
        return;
      }
    }
    assert fs[..|fs|] == fs && m[..|fs|] == m;
    ok := true;
  }

  // The size predicts exactly what will be written.
  method GetEncodedSize(fs: seq<Field>, m: seq<Slot>) returns (ok: bool, size: nat)
    requires ShapedMsg(fs, m)
    ensures ok <==> EncodeMsg(fs, m).Some?
    ensures ok ==> size == |EncodeMsg(fs, m).value|
  {
    var stream := new OStream(false, 0, []);
    ok := Encode(stream, fs, m);
    size := stream.bytesWritten;
  }

  // Encoding into a buffer succeeds if and only if the message can be encoded and the buffer is at
  // least as large as the predicted size.
  method EncodeToBuffer(fs: seq<Field>, m: seq<Slot>, bufferSize: nat) returns (ok: bool, data: Bytes)
    requires ShapedMsg(fs, m)
    ensures ok <==> EncodeMsg(fs, m).Some? && |EncodeMsg(fs, m).value| <= bufferSize
    ensures ok ==> data == EncodeMsg(fs, m).value
  {
    var stream := new OStream(true, bufferSize, []);
    ok := Encode(stream, fs, m);
    data := stream.out;
  }
}
