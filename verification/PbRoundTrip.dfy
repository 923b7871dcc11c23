/** Decoding what was encoded gives the message back. */
module PbRoundTrip {
  import opened Keys
  import opened Wrappers
  import opened Coding
  import opened PbFormat

  /** Numbers */

  lemma SignedBounds(n: int, size: nat)
    requires size in {1, 2, 4, 8} && Signed(n, size) == n
    ensures -0x8000_0000_0000_0000 <= n < 0x8000_0000_0000_0000
    ensures size != 8 ==> -0x8000_0000 <= n < 0x8000_0000
  {
  }

  lemma SignedWide(n: int)
    requires -0x8000_0000_0000_0000 <= n < 0x8000_0000_0000_0000
    ensures Signed(n % TWO64, 8) == n
  {
  }

  lemma SignedNarrow(n: int)
    requires -0x8000_0000 <= n < 0x8000_0000
    ensures Signed(n % TWO64, 4) == n
  {
  }

  lemma ZigZagBack(n: int)
    requires -0x8000_0000_0000_0000 <= n < 0x8000_0000_0000_0000
    ensures ZigZag(n) < TWO64 && UnZigZag(ZigZag(n)) == n
  {
  }

  lemma SignedFits(n: int, size: nat)
    requires size in {1, 2, 4, 8} && Signed(n, size) == n
    ensures Signed(n % TWO64, 8) == n
    ensures size != 8 ==> Signed(n % TWO64, 4) == n
    ensures ZigZag(n) < TWO64 && UnZigZag(ZigZag(n)) == n
  {
    SignedBounds(n, size);
    hide Signed, ZigZag, UnZigZag;
    SignedWide(n);
    ZigZagBack(n);
    if size != 8 {
      SignedNarrow(n);
    }
  }

  lemma IntReadsBack(size: nat, n: int, rest: Bytes)
    requires size in {1, 2, 4, 8} && Signed(n, size) == n
    ensures DecodeNumber(Int(size), Varint(n % TWO64) + rest) == Some((Num(n), rest))
  {
    SignedFits(n, size);
    hide Varint, GetVarint64, Signed, ZigZag, UnZigZag;
    GetVarint64RoundTrip(n % TWO64, rest);
  }

  lemma UintReadsBack(size: nat, n: nat, rest: Bytes)
    requires size in {1, 2, 4, 8} && n < UnsignedLimit(size)
    ensures n % TWO64 == n && DecodeNumber(Uint(size), Varint(n) + rest) == Some((Num(n), rest))
  {
    hide Varint, GetVarint64;
    GetVarint64RoundTrip(n, rest);
  }

  lemma SintReadsBack(size: nat, n: int, rest: Bytes)
    requires size in {1, 2, 4, 8} && Signed(n, size) == n
    ensures ZigZag(n) < TWO64 && DecodeNumber(Sint(size), Varint(ZigZag(n)) + rest) == Some((Num(n), rest))
  {
    SignedFits(n, size);
    hide Varint, GetVarint64, Signed, ZigZag, UnZigZag;
    GetVarint64RoundTrip(ZigZag(n), rest);
  }

  lemma Fix32ReadsBack(n: nat, rest: Bytes)
    requires n < TWO32
    ensures DecodeNumber(Fix32, Fixed32(n) + rest) == Some((Num(n), rest))
  {
    FixedReadsBack(n, 4, rest);
    Fixed32RoundTrip(n);
    hide Fixed32, DecodeFixed;
  }

  lemma Fix64ReadsBack(n: nat, rest: Bytes)
    requires n < TWO64
    ensures DecodeNumber(Fix64, Fixed64(n) + rest) == Some((Num(n), rest))
  {
    FixedReadsBack(n, 8, rest);
    Fixed64RoundTrip(n);
    hide Fixed64, DecodeFixed;
  }

  // Each kind of number at the front of an input.
  lemma NumberReadsBack(t: Type, v: Value, b: Bytes, rest: Bytes)
    requires Packable(t) && Typed(t, v) && EncodeValue(t, v) == Some(b)
    ensures DecodeNumber(t, b + rest) == Some((v, rest))
  {
    hide Varint, GetVarint64, GetPbVarint32, Signed, ZigZag, Fixed32, Fixed64;
    match t {
      case Bool => Varint32RoundTrip(v.n, rest);
      case Int(size) => hide DecodeNumber; IntReadsBack(size, v.n, rest);
      case Uint(size) => hide DecodeNumber; UintReadsBack(size, v.n, rest);
      case Sint(size) => hide DecodeNumber; SintReadsBack(size, v.n, rest);
      case Fix32 => hide DecodeNumber; Fix32ReadsBack(v.n, rest);
      case Fix64 => hide DecodeNumber; Fix64ReadsBack(v.n, rest);
    }
  }

  lemma FixedReadsBack(n: nat, width: nat, rest: Bytes)
    ensures var b := Fixed(n, width) + rest;
      |b| >= width && b[..width] == Fixed(n, width) && b[width..] == rest
  {
  }

  lemma StringReadsBack(s: Bytes, rest: Bytes)
    requires |s| < TWO32
    ensures GetString(Prefixed(s) + rest) == Some((s, rest))
  {
    hide Varint, GetPbVarint32;
    assert Prefixed(s) + rest == Varint(|s|) + (s + rest);
    Varint32RoundTrip(|s|, s + rest);
  }

  lemma {:induction false} NoNul(b: Bytes)
    requires 0 !in b
    ensures UpToNul(b) == b
  {
    if b != [] {
      NoNul(b[1..]);
      assert b == [b[0]] + b[1..];
    }
  }

  /** Fields whose default is left out */

  lemma {:induction false} DefaultValueIs(t: Type, v: Value)
    requires Typed(t, v) && IsDefaultValue(t, v)
    ensures v == Default(t)
    decreases v
  {
    match v {
      case Num(n) =>
      case Str(b) =>
        assert t.FixedBlob? ==> b == Zeros(t.length);
      case Msg(m) => DefaultMsgIs(t.fields, m);
    }
  }

  lemma DefaultSlotIs(f: Field, s: Slot)
    requires TypedSlot(f, s) && IsDefaultSlot(f, s)
    ensures s == DefaultSlot(f)
    decreases s
  {
    if f.rule == Optional(false) {
      DefaultValueIs(f.typ, s.v.value);
    }
  }

  lemma {:induction false} DefaultMsgIs(fs: seq<Field>, m: seq<Slot>)
    requires |m| == |fs| && (forall i :: 0 <= i < |m| ==> TypedSlot(fs[i], m[i])) && AllDefault(fs, m)
    ensures m == Defaults(fs)
    decreases m
  {
    if m != [] {
      assert TypedSlot(fs[0], m[0]);
      DefaultSlotIs(fs[0], m[0]);
      DefaultMsgIs(fs[1..], m[1..]);
      assert m == [m[0]] + m[1..];
    }
  }

  lemma {:induction false} DefaultAt(fs: seq<Field>, i: nat)
    requires i < |fs|
    ensures Defaults(fs)[i] == DefaultSlot(fs[i])
  {
    if i > 0 {
      DefaultAt(fs[1..], i - 1);
    }
  }

  /** One field of a message */

  lemma ReadsTag(f: Field, wireType: nat, rest: Bytes)
    requires 0 < f.tag < 0x2000_0000 && wireType < 8
    ensures GetPbVarint32(FieldTag(f.tag, wireType) + rest) == Some((f.tag * 8 + wireType, rest))
    ensures (f.tag * 8 + wireType) / 8 == f.tag && (f.tag * 8 + wireType) % 8 == wireType
  {
    Varint32RoundTrip(f.tag * 8 + wireType, rest);
  }

  // A tag and what belongs to it take the message one step on.
  lemma FieldStep(fs: seq<Field>, m: seq<Slot>, seen: set<nat>, i: nat, wireType: nat, body: Bytes, tail: Bytes, s: Slot)
    requires GoodFields(fs) && i < |fs| == |m| && wireType < 8
    requires DecodeField(fs[i], wireType, m[i], body + tail) == Some((s, tail))
    ensures DecodeMsg(fs, FieldTag(fs[i].tag, wireType) + body + tail, m, seen)
         == DecodeMsg(fs, tail, SetSlot(fs, m, i, s), See(fs, i, seen))
  {
    var b := FieldTag(fs[i].tag, wireType) + body + tail;
    assert GoodField(fs[i]);
    assert b == FieldTag(fs[i].tag, wireType) + (body + tail);
    OnlyIndex(fs, i);
    hide FieldTag, DecodeField, GoodFields, See;
    ReadsTag(fs[i], wireType, body + tail);
    assert b != [];
  }

  /** The message while its fields come in */

  // The first i fields as they were encoded, the others still at their defaults.
  function Upto(fs: seq<Field>, m: seq<Slot>, i: nat): (r: seq<Slot>)
    requires i <= |m| == |fs|
    ensures |r| == |fs|
  {
    m[..i] + Defaults(fs)[i..]
  }

  function SeenUpto(fs: seq<Field>, i: nat): set<nat>
    requires i <= |fs|
  {
    Below(if RequiredIn(fs[..i]) < MAX_REQUIRED then RequiredIn(fs[..i]) else MAX_REQUIRED)
  }

  function Below(n: nat): (r: set<nat>)
    ensures forall k :: k in r <==> 0 <= k < n
  {
    if n == 0 then {} else Below(n - 1) + {n - 1}
  }

  lemma RequiredStep(fs: seq<Field>, i: nat)
    requires i < |fs|
    ensures RequiredIn(fs[..i + 1]) == RequiredIn(fs[..i]) + if fs[i].rule.Required? then 1 else 0
    ensures See(fs, i, SeenUpto(fs, i)) == SeenUpto(fs, i + 1)
  {
    assert fs[..i + 1][..i] == fs[..i];
  }

  lemma OtherMembersUnset(fs: seq<Field>, m: seq<Slot>, i: nat)
    requires TypedMsg(fs, m) && i < |fs| && (m[i] == One(None) ==> !fs[i].rule.Oneof?)
    ensures |m| == |fs|
    ensures fs[i].rule.Oneof? ==> forall j :: 0 <= j < i && fs[j].rule == fs[i].rule ==> m[j] == One(None)
  {
  }

  lemma UptoAt(fs: seq<Field>, m: seq<Slot>, i: nat, j: nat)
    requires i <= |m| == |fs| && j < |fs|
    ensures Upto(fs, m, i)[j] == if j < i then m[j] else DefaultSlot(fs[j])
  {
    hide Defaults;
    DefaultAt(fs, j);
  }

  lemma SetSlotAt(fs: seq<Field>, m: seq<Slot>, i: nat, s: Slot, j: nat)
    requires i < |m| == |fs| && j < |fs|
    ensures SetSlot(fs, m, i, s)[j] == if j == i then s else if fs[i].rule.Oneof? && fs[j].rule == fs[i].rule then One(None) else m[j]
  {
  }

  lemma SetIsNext(fs: seq<Field>, m: seq<Slot>, i: nat)
    requires TypedMsg(fs, m) && i < |fs| && (m[i] == One(None) ==> !fs[i].rule.Oneof?)
    ensures SetSlot(fs, Upto(fs, m, i), i, m[i]) == Upto(fs, m, i + 1)
  {
    OtherMembersUnset(fs, m, i);
    hide TypedMsg, Upto, SetSlot;
    forall j | 0 <= j < |fs|
      ensures SetSlot(fs, Upto(fs, m, i), i, m[i])[j] == Upto(fs, m, i + 1)[j]
    {
      SetSlotAt(fs, Upto(fs, m, i), i, m[i], j);
      UptoAt(fs, m, i, j);
      UptoAt(fs, m, i + 1, j);
    }
  }

  lemma LeftOutIsNext(fs: seq<Field>, m: seq<Slot>, i: nat)
    requires |m| == |fs| && i < |fs| && m[i] == DefaultSlot(fs[i])
    ensures Upto(fs, m, i) == Upto(fs, m, i + 1)
  {
    hide Upto;
    forall j | 0 <= j < |fs|
      ensures Upto(fs, m, i)[j] == Upto(fs, m, i + 1)[j]
    {
      UptoAt(fs, m, i, j);
      UptoAt(fs, m, i + 1, j);
    }
  }

  /** Values, arrays, fields, messages */

  lemma {:induction false} PackedReadsBack(f: Field, vs: seq<Value>, k: nat, max: nat, b: Bytes)
    requires Packable(f.typ) && k <= |vs| <= max && (forall i :: 0 <= i < |vs| ==> Typed(f.typ, vs[i]))
    requires EncodeEntries(f, false, vs[k..]) == Some(b)
    ensures DecodePacked(f.typ, vs[..k], max, b) == Some(vs)
    decreases |vs| - k
  {
    if k < |vs| {
      var first, more := EncodeValue(f.typ, vs[k]).value, EncodeEntries(f, false, vs[k + 1..]).value;
      assert vs[k..][0] == vs[k] && vs[k..][1..] == vs[k + 1..];
      NumberReadsBack(f.typ, vs[k], first, more);
      assert vs[..k] + [vs[k]] == vs[..k + 1];
      PackedReadsBack(f, vs, k + 1, max, more);
    } else {
      assert vs[..k] == vs;
    }
  }

  lemma {:induction false} ValueReadsBack(t: Type, v: Value, b: Bytes, rest: Bytes)
    requires GoodType(t) && Typed(t, v) && EncodeValue(t, v) == Some(b) && |b| < TWO32
    ensures DecodeValue(t, Default(t), b + rest) == Some((v, rest))
    decreases v, 0
  {
    hide GetString, Prefixed;
    match v {
      case Num(n) => NumberReadsBack(t, v, b, rest);
      case Str(s) =>
        PrefixedLength(s);
        StringReadsBack(s, rest);
        if t.Text? {
          NoNul(s);
        } else if t.FixedBlob? {
          assert s == [] ==> s == Zeros(t.length);
        }
      case Msg(m) =>
        var e := EncodeMsg(t.fields, m).value;
        PrefixedLength(e);
        StringReadsBack(e, rest);
        MsgReadsBack(t.fields, m, e);
    }
  }

  lemma SingleReadsBack(f: Field, s: Slot, b: Bytes, rest: Bytes)
    requires s.One? && s.v.Some? && GoodType(f.typ) && Typed(f.typ, s.v.value)
    requires EncodeValue(f.typ, s.v.value) == Some(b) && |b| < TWO32
    ensures DecodeValue(f.typ, Default(f.typ), b + rest) == Some((s.v.value, rest))
    decreases s, 0
  {
    ValueReadsBack(f.typ, s.v.value, b, rest);
  }

  lemma PrefixedLength(s: Bytes)
    ensures |s| < |Prefixed(s)|
  {
  }

  lemma {:induction false} MsgReadsBack(fs: seq<Field>, m: seq<Slot>, b: Bytes)
    requires GoodFields(fs) && TypedMsg(fs, m) && EncodeMsg(fs, m) == Some(b) && |b| < TWO32
    ensures DecodeMsg(fs, b, Defaults(fs), {}) == Some((m, []))
    decreases m, |m| + 1
  {
    assert fs[0..] == fs && m[0..] == m;
    assert Upto(fs, m, 0) == Defaults(fs);
    assert fs[..0] == [] && SeenUpto(fs, 0) == {};
    FieldsReadBack(fs, m, 0, b);
  }

  lemma {:induction false} FieldsReadBack(fs: seq<Field>, m: seq<Slot>, i: nat, b: Bytes)
    requires GoodFields(fs) && TypedMsg(fs, m) && i <= |fs| && EncodeMsg(fs[i..], m[i..]) == Some(b) && |b| < TWO32
    ensures DecodeMsg(fs, b, Upto(fs, m, i), SeenUpto(fs, i)) == Some((m, []))
    decreases m, |m| - i
  {
    if i == |fs| {
      assert Upto(fs, m, i) == m && fs[..i] == fs;
    } else {
      var first, more := EncodeField(fs[i], m[i]).value, EncodeMsg(fs[i + 1..], m[i + 1..]).value;
      assert fs[i..][0] == fs[i] && m[i..][0] == m[i] && fs[i..][1..] == fs[i + 1..] && m[i..][1..] == m[i + 1..];
      FieldReadsBack(fs, m, i, first, more);
      FieldsReadBack(fs, m, i + 1, more);
    }
  }

  lemma {:induction false} FieldReadsBack(fs: seq<Field>, m: seq<Slot>, i: nat, b: Bytes, tail: Bytes)
    requires GoodFields(fs) && TypedMsg(fs, m) && i < |fs| && EncodeField(fs[i], m[i]) == Some(b) && |b| < TWO32
    ensures DecodeMsg(fs, b + tail, Upto(fs, m, i), SeenUpto(fs, i)) == DecodeMsg(fs, tail, Upto(fs, m, i + 1), SeenUpto(fs, i + 1))
    decreases m, 0
  {
    var f, s := fs[i], m[i];
    assert TypedSlot(f, s) && GoodField(f);
    DefaultAt(fs, i);
    RequiredStep(fs, i);
    hide TypedMsg, GoodFields;
    assert [] + tail == tail;
    if s == One(None) {
      LeftOutIsNext(fs, m, i);
    } else if s.Many? {
      ArrayReadsBack(fs, m, i, b, tail);
    } else if f.rule == Optional(false) && IsDefaultValue(f.typ, s.v.value) {
      DefaultValueIs(f.typ, s.v.value);
      LeftOutIsNext(fs, m, i);
    } else {
      var body := EncodeValue(f.typ, s.v.value).value;
      SingleReadsBack(f, s, body, tail);
      FieldStep(fs, Upto(fs, m, i), SeenUpto(fs, i), i, WireType(f.typ), body, tail, s);
      SetIsNext(fs, m, i);
    }
  }

  lemma {:induction false} ArrayReadsBack(fs: seq<Field>, m: seq<Slot>, i: nat, b: Bytes, tail: Bytes)
    requires GoodFields(fs) && TypedMsg(fs, m) && i < |fs| && m[i].Many? && fs[i].rule.Repeated?
    requires EncodeArray(fs[i], m[i].vs) == Some(b) && |b| < TWO32
    ensures DecodeMsg(fs, b + tail, Upto(fs, m, i), SeenUpto(fs, i)) == DecodeMsg(fs, tail, Upto(fs, m, i + 1), SeenUpto(fs, i))
    decreases m[i], 1
  {
    var f, vs := fs[i], m[i].vs;
    assert TypedSlot(f, m[i]);
    DefaultAt(fs, i);
    SetIsNext(fs, m, i);
    assert [] + tail == tail;
    if vs == [] {
      LeftOutIsNext(fs, m, i);
    } else if Packable(f.typ) {
      var e := EncodeEntries(f, false, vs).value;
      PrefixedLength(e);
      StringReadsBack(e, tail);
      assert vs[0..] == vs && vs[..0] == [];
      PackedReadsBack(f, vs, 0, f.rule.max, e);
      FieldStep(fs, Upto(fs, m, i), SeenUpto(fs, i), i, WT_STRING, Prefixed(e), tail, m[i]);
    } else {
      assert vs[0..] == vs && vs[..0] == [] && vs[..|vs|] == vs;
      assert Upto(fs, m, i)[i := Many([])] == Upto(fs, m, i);
      EntriesReadBack(fs, m, i, 0, b, tail);
      SameSlot(fs, m, i);
    }
  }

  lemma SameSlot(fs: seq<Field>, m: seq<Slot>, i: nat)
    requires |m| == |fs| && i < |fs|
    ensures Upto(fs, m, i)[i := m[i]] == Upto(fs, m, i + 1)
  {
  }

  lemma SetEntry(fs: seq<Field>, m: seq<Slot>, i: nat, a: Slot, b: Slot)
    requires |m| == |fs| && i < |fs| && fs[i].rule.Repeated?
    ensures SetSlot(fs, m[i := a], i, b) == m[i := b]
  {
  }

  lemma {:induction false} EntriesReadBack(fs: seq<Field>, m: seq<Slot>, i: nat, k: nat, b: Bytes, tail: Bytes)
    requires GoodFields(fs) && TypedMsg(fs, m) && i < |fs| && m[i].Many? && fs[i].rule.Repeated? && !Packable(fs[i].typ)
    requires k <= |m[i].vs| <= fs[i].rule.max && EncodeEntries(fs[i], true, m[i].vs[k..]) == Some(b) && |b| < TWO32
    ensures DecodeMsg(fs, b + tail, Upto(fs, m, i)[i := Many(m[i].vs[..k])], SeenUpto(fs, i))
         == DecodeMsg(fs, tail, Upto(fs, m, i)[i := m[i]], SeenUpto(fs, i))
    decreases m[i], 0, |m[i].vs| - k
  {
    var f, vs := fs[i], m[i].vs;
    var now := Upto(fs, m, i)[i := Many(vs[..k])];
    assert TypedSlot(f, m[i]) && GoodField(f);
    hide TypedMsg, GoodFields;
    if k == |vs| {
      assert vs[..k] == vs && [] + tail == tail;
    } else {
      var body, more := EncodeValue(f.typ, vs[k]).value, EncodeEntries(f, true, vs[k + 1..]).value;
      assert vs[k..][0] == vs[k] && vs[k..][1..] == vs[k + 1..];
      assert b + tail == FieldTag(f.tag, WireType(f.typ)) + body + (more + tail);
      ValueReadsBack(f.typ, vs[k], body, more + tail);
      assert vs[..k] + [vs[k]] == vs[..k + 1];
      var s := Many(vs[..k + 1]);
      FieldStep(fs, now, SeenUpto(fs, i), i, WireType(f.typ), body, more + tail, s);
      SetEntry(fs, Upto(fs, m, i), i, Many(vs[..k]), s);
      EntriesReadBack(fs, m, i, k + 1, more, tail);
    }
  }

  /** Every message in range can be encoded in the first place. */

  lemma {:induction false} TypedValueEncodes(t: Type, v: Value)
    requires Typed(t, v)
    ensures EncodeValue(t, v).Some?
    decreases v
  {
    if v.Msg? {
      TypedMsgEncodes(t.fields, v.m);
    }
  }

  lemma {:induction false} TypedEntriesEncode(f: Field, tagged: bool, vs: seq<Value>)
    requires forall i :: 0 <= i < |vs| ==> Typed(f.typ, vs[i])
    ensures EncodeEntries(f, tagged, vs).Some?
    decreases vs
  {
    if vs != [] {
      TypedValueEncodes(f.typ, vs[0]);
      TypedEntriesEncode(f, tagged, vs[1..]);
    }
  }

  lemma TypedSlotEncodes(f: Field, s: Slot)
    requires TypedSlot(f, s)
    ensures EncodeField(f, s).Some?
    decreases s
  {
    match s {
      case Many(vs) => TypedEntriesEncode(f, !Packable(f.typ), vs);
      case One(None) =>
      case One(Some(v)) => TypedValueEncodes(f.typ, v);
    }
  }

  lemma {:induction false} TypedMsgEncodes(fs: seq<Field>, m: seq<Slot>)
    requires |fs| == |m| && forall i :: 0 <= i < |m| ==> TypedSlot(fs[i], m[i])
    ensures EncodeMsg(fs, m).Some?
    decreases m
  {
    if m != [] {
      TypedSlotEncodes(fs[0], m[0]);
      TypedMsgEncodes(fs[1..], m[1..]);
    }
  }

  // What an encoder writes for a message in range, a decoder reads back as the same message.
  lemma RoundTrip(fs: seq<Field>, m: seq<Slot>)
    requires GoodFields(fs) && TypedMsg(fs, m)
    ensures EncodeMsg(fs, m).Some?
    ensures var b := EncodeMsg(fs, m).value; |b| < TWO32 ==> DecodeMsg(fs, b, Defaults(fs), {}) == Some((m, []))
  {
    TypedMsgEncodes(fs, m);
    var b := EncodeMsg(fs, m).value;
    if |b| < TWO32 {
      MsgReadsBack(fs, m, b);
    }
  }

  /** Fields a descriptor does not know */

  lemma {:induction false} SkipsVarint(n: nat, rest: Bytes)
    ensures SkipVarint(Varint(n) + rest) == Some(rest)
  {
    VarintSplits(n);
    if n >= 128 {
      assert (Varint(n) + rest)[1..] == Varint(n / 128) + rest;
      SkipsVarint(n / 128, rest);
    } else {
      assert (Varint(n) + rest)[1..] == rest;
    }
  }

  // Any value can be skipped by its wire type alone.
  lemma SkipsValue(t: Type, v: Value, b: Bytes, rest: Bytes)
    requires EncodeValue(t, v) == Some(b) && |b| < TWO32
    ensures SkipField(b + rest, WireType(t)) == Some(rest)
  {
    hide GetPbVarint32, SkipVarint, Varint;
    match v {
      case Num(n) =>
        SkipsVarint(if n != 0 then 1 else 0, rest);
        SkipsVarint(n % TWO64, rest);
        SkipsVarint(ZigZag(n) % TWO64, rest);
        assert (b + rest)[|b|..] == rest;
      case Str(s) => SkipsString(s, rest);
      case Msg(m) => SkipsString(EncodeMsg(t.fields, m).value, rest);
    }
  }

  lemma SkipsString(s: Bytes, rest: Bytes)
    requires |Prefixed(s)| < TWO32
    ensures SkipField(Prefixed(s) + rest, WT_STRING) == Some(rest)
  {
    hide GetPbVarint32, Varint;
    assert Prefixed(s) + rest == Varint(|s|) + (s + rest);
    Varint32RoundTrip(|s|, s + rest);
  }

  // A decoder passes over a field of a newer descriptor, whatever its type, and goes on.
  lemma UnknownFieldIsSkipped(fs: seq<Field>, g: Field, v: Value, b: Bytes, tail: Bytes, m: seq<Slot>, seen: set<nat>)
    requires 0 < g.tag < 0x2000_0000 && IndexOf(fs, g.tag).None? && |m| == |fs|
    requires EncodeTagged(g, v) == Some(b) && |b| < TWO32
    ensures DecodeMsg(fs, b + tail, m, seen) == DecodeMsg(fs, tail, m, seen)
  {
    hide *;
    TaggedParts(g, v, b);
    var wt, body := WireType(g.typ), EncodeValue(g.typ, v).value;
    SkipsValue(g.typ, v, body, tail);
    ReadsTag(g, wt, body + tail);
    assert b + tail == FieldTag(g.tag, wt) + (body + tail);
    DecodeUnknown(fs, b + tail, m, seen, g.tag * 8 + wt, body + tail, tail);
  }

  lemma TaggedParts(g: Field, v: Value, b: Bytes)
    requires EncodeTagged(g, v) == Some(b)
    ensures EncodeValue(g.typ, v).Some? && b == FieldTag(g.tag, WireType(g.typ)) + EncodeValue(g.typ, v).value && WireType(g.typ) < 8 && b != []
    ensures |EncodeValue(g.typ, v).value| <= |b|
  {
  }

  lemma DecodeUnknown(fs: seq<Field>, b: Bytes, m: seq<Slot>, seen: set<nat>, tag: nat, rest: Bytes, after: Bytes)
    requires |m| == |fs| && b != [] && GetPbVarint32(b) == Some((tag, rest)) && tag != 0
    requires IndexOf(fs, tag / 8).None? && SkipField(rest, tag % 8) == Some(after)
    ensures DecodeMsg(fs, b, m, seen) == DecodeMsg(fs, after, m, seen)
  {
    hide SkipField, GetPbVarint32, IndexOf, DecodeField;
  }
}
