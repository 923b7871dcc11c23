/** Messages of a Protocol Buffers codec driven by field descriptors, as values: descriptors with
    static fields, the bytes an encoder writes and what a decoder makes of any bytes. */
module PbFormat {
  import opened Keys
  import opened Wrappers
  import opened Coding

  /** Descriptors */

  // Integers carry their width in bytes; blobs and strings the size of their buffers (for a blob
  // the bytes after its length field); messages the descriptor of their fields.
  datatype Type =
    | Bool | Int(size: nat) | Uint(size: nat) | Sint(size: nat) | Fix32 | Fix64
    | Blob(max: nat) | Text(max: nat) | Message(fields: seq<Field>) | FixedBlob(length: nat)

  // An optional field without a flag of its own is left out when its value is zero. The members of
  // a union share its number.
  datatype Rule = Required | Optional(flag: bool) | Repeated(max: nat) | Oneof(group: nat)

  datatype Field = Field(tag: nat, rule: Rule, typ: Type)

  predicate Packable(t: Type) {
    t.Bool? || t.Int? || t.Uint? || t.Sint? || t.Fix32? || t.Fix64?
  }

  /** Messages */

  datatype Value = Num(n: int) | Str(b: Bytes) | Msg(m: seq<Slot>)

  // A single field that may be unset, or the entries of an array.
  datatype Slot = One(v: Option<Value>) | Many(vs: seq<Value>)

  function Zeros(n: nat): (r: Bytes)
    ensures |r| == n
  {
    seq(n, _ => 0)
  }

  function Default(t: Type): Value {
    match t
    case Message(fs) => Msg(Defaults(fs))
    case FixedBlob(n) => Str(Zeros(n))
    case Blob(_) => Str([])
    case Text(_) => Str([])
    case _ => Num(0)
  }

  function DefaultSlot(f: Field): Slot {
    match f.rule
    case Required => One(Some(Default(f.typ)))
    case Optional(flag) => if flag then One(None) else One(Some(Default(f.typ)))
    case Repeated(_) => Many([])
    case Oneof(_) => One(None)
  }

  function Defaults(fs: seq<Field>): (m: seq<Slot>)
    ensures |m| == |fs|
    decreases fs
  {
    if fs == [] then [] else [DefaultSlot(fs[0])] + Defaults(fs[1..])
  }

  /** What the wire looks like */

  const WT_VARINT: nat := 0
  const WT_64BIT: nat := 1
  const WT_STRING: nat := 2
  const WT_32BIT: nat := 5

  function WireType(t: Type): nat {
    match t
    case Fix32 => WT_32BIT
    case Fix64 => WT_64BIT
    case Blob(_) => WT_STRING
    case Text(_) => WT_STRING
    case Message(_) => WT_STRING
    case FixedBlob(_) => WT_STRING
    case _ => WT_VARINT
  }

  function FieldTag(tag: nat, wireType: nat): Bytes {
    Varint(tag * 8 + wireType)
  }

  function ZigZag(n: int): nat {
    if n < 0 then -2 * n - 1 else 2 * n
  }

  function UnZigZag(v: nat): int {
    if v % 2 == 1 then -(v / 2) - 1 else v / 2
  }

  // The lowest bytes of a number, read as a two's complement integer.
  function Signed(v: int, bytes: nat): int
    requires bytes in {1, 2, 4, 8}
  {
    var m := if bytes == 1 then 0x100 else if bytes == 2 then 0x1_0000 else if bytes == 4 then TWO32 else TWO64;
    var r := v % m;
    if r >= m / 2 then r - m else r
  }

  function UnsignedLimit(bytes: nat): nat
    requires bytes in {1, 2, 4, 8}
  {
    if bytes == 1 then 0x100 else if bytes == 2 then 0x1_0000 else if bytes == 4 then TWO32 else TWO64
  }

  // A type that the generator can produce, all the way down.
  ghost predicate GoodType(t: Type) {
    match t
    case Int(size) => size in {1, 2, 4, 8}
    case Uint(size) => size in {1, 2, 4, 8}
    case Sint(size) => size in {1, 2, 4, 8}
    case Message(fs) => GoodFields(fs)
    case _ => true
  }

  ghost predicate GoodField(f: Field) {
    0 < f.tag < 0x2000_0000 && GoodType(f.typ)
  }

  ghost predicate GoodFields(fs: seq<Field>)
    decreases fs
  {
    && (forall i :: 0 <= i < |fs| ==> GoodField(fs[i]))
    && (forall i, j :: 0 <= i < j < |fs| ==> fs[i].tag != fs[j].tag)
  }

  // A value of the C type: numbers in range, strings terminated in their buffers.
  ghost predicate Typed(t: Type, v: Value)
    decreases v
  {
    match t
    case Bool => v == Num(0) || v == Num(1)
    case Int(size) => v.Num? && size in {1, 2, 4, 8} && Signed(v.n, size) == v.n
    case Sint(size) => v.Num? && size in {1, 2, 4, 8} && Signed(v.n, size) == v.n
    case Uint(size) => v.Num? && size in {1, 2, 4, 8} && 0 <= v.n < UnsignedLimit(size)
    case Fix32 => v.Num? && 0 <= v.n < TWO32
    case Fix64 => v.Num? && 0 <= v.n < TWO64
    case Blob(max) => v.Str? && |v.b| <= max
    case Text(max) => v.Str? && |v.b| < max && 0 !in v.b
    case FixedBlob(n) => v.Str? && |v.b| == n
    case Message(fs) => v.Msg? && TypedMsg(fs, v.m)
  }

  ghost predicate TypedSlot(f: Field, s: Slot)
    decreases s
  {
    match f.rule
    case Repeated(max) => s.Many? && |s.vs| <= max && forall i :: 0 <= i < |s.vs| ==> Typed(f.typ, s.vs[i])
    case Required => s.One? && s.v.Some? && Typed(f.typ, s.v.value)
    case Optional(flag) => s.One? && (!flag ==> s.v.Some?) && (s.v.Some? ==> Typed(f.typ, s.v.value))
    case Oneof(_) => s.One? && (s.v.Some? ==> Typed(f.typ, s.v.value))
  }

  ghost predicate TypedMsg(fs: seq<Field>, m: seq<Slot>)
    decreases m
  {
    && |m| == |fs| && (forall i :: 0 <= i < |m| ==> TypedSlot(fs[i], m[i]))
    // at most one member of a union is set
    && (forall i, j :: 0 <= i < j < |m| && fs[i].rule.Oneof? && fs[i].rule == fs[j].rule ==> m[i] == One(None) || m[j] == One(None))
  }

  /** Encoding */

  function Prefixed(b: Bytes): Bytes {
    Varint(|b|) + b
  }

  // None when a length field exceeds its buffer.
  function EncodeValue(t: Type, v: Value): Option<Bytes>
    decreases v, 0
  {
    match v
    case Num(n) =>
      (match t
       case Bool => Some(Varint(if n != 0 then 1 else 0))
       case Int(_) => Some(Varint(n % TWO64))
       case Uint(_) => Some(Varint(n % TWO64))
       case Sint(_) => Some(Varint(ZigZag(n) % TWO64))
       case Fix32 => Some(Fixed32(n % TWO32))
       case Fix64 => Some(Fixed64(n % TWO64))
       case _ => None)
    case Str(b) =>
      (match t
       case Blob(max) => if |b| <= max then Some(Prefixed(b)) else None
       case Text(_) => Some(Prefixed(b))
       case FixedBlob(_) => Some(Prefixed(b))
       case _ => None)
    case Msg(m) =>
      (match t
       case Message(fs) => (match EncodeMsg(fs, m) case None => None case Some(b) => Some(Prefixed(b)))
       case _ => None)
  }

  function EncodeTagged(f: Field, v: Value): Option<Bytes>
    decreases v, 1
  {
    match EncodeValue(f.typ, v) case None => None case Some(b) => Some(FieldTag(f.tag, WireType(f.typ)) + b)
  }

  // The entries one after another, each with a tag or not.
  function EncodeEntries(f: Field, tagged: bool, vs: seq<Value>): Option<Bytes>
    decreases vs, 0
  {
    if vs == [] then Some([])
    else
      var first := if tagged then EncodeTagged(f, vs[0]) else EncodeValue(f.typ, vs[0]);
      var more := EncodeEntries(f, tagged, vs[1..]);
      if first.None? || more.None? then None else Some(first.value + more.value)
  }

  function EncodeArray(f: Field, vs: seq<Value>): Option<Bytes>
    decreases vs, 1
  {
    if vs == [] then Some([])
    else if f.rule.Repeated? && |vs| > f.rule.max then None
    else if Packable(f.typ) then
      match EncodeEntries(f, false, vs) case None => None case Some(b) => Some(FieldTag(f.tag, WT_STRING) + Prefixed(b))
    else EncodeEntries(f, true, vs)
  }

  // Whether a field without a flag counts as unset, as pb_check_proto3_default_value decides it.
  predicate IsDefaultSlot(f: Field, s: Slot)
    decreases s, 1
  {
    match f.rule
    case Required => false
    case Repeated(_) => s.Many? && s.vs == []
    case Oneof(_) => s == One(None)
    case Optional(flag) => if flag then s == One(None) else s.One? && s.v.Some? && IsDefaultValue(f.typ, s.v.value)
  }

  predicate IsDefaultValue(t: Type, v: Value)
    decreases v
  {
    match v
    case Num(n) => n == 0
    case Str(b) => if t.FixedBlob? then t.length == 0 else b == []
    case Msg(m) => t.Message? && AllDefault(t.fields, m)
  }

  predicate AllDefault(fs: seq<Field>, m: seq<Slot>)
    decreases m
  {
    |fs| == |m| && (m == [] || (IsDefaultSlot(fs[0], m[0]) && AllDefault(fs[1..], m[1..])))
  }

  function EncodeField(f: Field, s: Slot): Option<Bytes>
    decreases s, 1
  {
    match s
    case Many(vs) => EncodeArray(f, vs)
    case One(None) => Some([])
    case One(Some(v)) => if f.rule == Optional(false) && IsDefaultValue(f.typ, v) then Some([]) else EncodeTagged(f, v)
  }

  function EncodeMsg(fs: seq<Field>, m: seq<Slot>): Option<Bytes>
    decreases m
  {
    if m == [] || fs == [] then Some([])
    else
      var first := EncodeField(fs[0], m[0]);
      var more := EncodeMsg(fs[1..], m[1..]);
      if first.None? || more.None? then None else Some(first.value + more.value)
  }

  /** Decoding */

  // A value and the bytes after it.
  type Got<T> = Option<(T, Bytes)>

  // The 32-bit varint decoder: longer encodings are accepted when the bytes past bit 32 are empty or
  // extend the sign. The position of the next bit is kept in eight bits.
  function Varint32Rest(b: Bytes, result: nat, bitpos: nat): (r: Got<nat>)
    requires bitpos < 256 && result < TWO32
    ensures r.Some? ==> |r.value.1| < |b| && r.value.0 < TWO32
  {
    if b == [] then None
    else
      var low := b[0] % 128;
      var extension := if bitpos < 63 then 0xff else 0x01;
      if bitpos >= 32 && low != 0 && (result < 0x8000_0000 || b[0] != extension) then None
      else
        var next := if bitpos >= 32 then result else OrShifted(result, low, bitpos);
        var after := (bitpos + 7) % 256;
        if b[0] >= 128 then Varint32Rest(b[1..], next, after)
        else if after == 35 && b[0] / 16 % 8 != 0 then None
        else Some((next, b[1..]))
  }

  function BitOr(a: nat, b: nat, n: nat): (r: nat)
    requires a < Pow2(n) && b < Pow2(n)
    ensures r < Pow2(n)
  {
    if n == 0 then 0
    else (if a % 2 == 1 || b % 2 == 1 then 1 else 0) + 2 * BitOr(a / 2, b / 2, n - 1)
  }

  lemma ThirtyTwoBits()
    ensures Pow2(32) == TWO32
  {
    assert Pow2(8) == 0x100;
    assert Pow2(16) == 0x100 * Pow2(8);
    assert Pow2(24) == 0x100 * Pow2(16);
    assert Pow2(32) == 0x100 * Pow2(24);
  }

  // result | (low << bitpos) in 32 bits: a sum, unless the bits overlap because the position wrapped.
  function OrShifted(result: nat, low: nat, bitpos: nat): (r: nat)
    requires result < TWO32 && low < 128 && bitpos < 32
    ensures r < TWO32
  {
    ThirtyTwoBits();
    OrBits(result, Low32(low * Pow2(bitpos)), Pow2(bitpos))
  }

  function Low32(v: nat): (r: nat)
    ensures r < TWO32
  {
    v % TWO32
  }

  function OrBits(a: nat, b: nat, unit: nat): (r: nat)
    requires a < TWO32 && b < TWO32 && Pow2(32) == TWO32
    ensures r < TWO32
  {
    if a < unit then Low32(a + b) else BitOr(a, b, 32)
  }

  lemma Low32Is(v: nat)
    requires v < TWO32
    ensures Low32(v) == v
  {
  }

  lemma OrIsSum(result: nat, low: nat, bitpos: nat)
    requires low < 128 && bitpos < 32 && result < Pow2(bitpos) && result + low * Pow2(bitpos) < TWO32
    ensures OrShifted(result, low, bitpos) == result + low * Pow2(bitpos)
  {
    MulAtMost(0, low, Pow2(bitpos));
    hide Pow2, Low32, BitOr;
    Low32Is(low * Pow2(bitpos));
    Low32Is(result + low * Pow2(bitpos));
  }

  lemma Powers()
    ensures Pow2(7) == 0x80 && Pow2(14) == 0x4000 && Pow2(21) == 0x20_0000 && Pow2(28) == 0x1000_0000
  {
    assert Pow2(14) == 0x80 * Pow2(7);
    assert Pow2(21) == 0x80 * Pow2(14);
    assert Pow2(28) == 0x80 * Pow2(21);
  }

  // The decoder after i bytes of a canonical encoding.
  lemma {:induction false} RestOfVarint(w: nat, rest: Bytes, result: nat, bitpos: nat)
    requires bitpos in {7, 14, 21, 28} && result < Pow2(bitpos) && result + w * Pow2(bitpos) < TWO32
    ensures Varint32Rest(Varint(w) + rest, result, bitpos) == Some((result + w * Pow2(bitpos), rest))
  {
    Powers();
    hide Pow2, Varint32Rest, OrShifted;
    var b := Varint(w) + rest;
    FrontOfVarint(w, rest);
    if w < 128 {
      assert bitpos == 28 ==> w < 16;
      OrIsSum(result, w, bitpos);
      RestEnds(b, result, bitpos);
    } else {
      Shares(result, w, bitpos);
      OrIsSum(result, w % 128, bitpos);
      RestContinues(b, result, bitpos);
      RestOfVarint(w / 128, rest, result + (w % 128) * Pow2(bitpos), bitpos + 7);
    }
  }

  lemma FrontOfVarint(w: nat, rest: Bytes)
    ensures var b := Varint(w) + rest;
      if w < 128 then b[0] == w && b[1..] == rest
      else b[0] >= 128 && b[0] % 128 == w % 128 && b[1..] == Varint(w / 128) + rest
  {
    VarintSplits(w);
    hide Varint;
    if w >= 128 {
      assert Varint(w) + rest == [w % 128 + 128] + (Varint(w / 128) + rest);
    }
  }

  // The lowest seven bits of w and the rest of it, shifted into place.
  lemma Shares(result: nat, w: nat, bitpos: nat)
    requires bitpos in {7, 14, 21, 28} && result < Pow2(bitpos) && result + w * Pow2(bitpos) < TWO32 && w >= 128
    ensures bitpos != 28 && result + (w % 128) * Pow2(bitpos) < Pow2(bitpos + 7) && result + (w % 128) * Pow2(bitpos) < TWO32
    ensures result + (w % 128) * Pow2(bitpos) + (w / 128) * Pow2(bitpos + 7) == result + w * Pow2(bitpos)
  {
    Powers();
    hide Pow2;
    assert w == 128 * (w / 128) + w % 128;
  }

  lemma RestEnds(b: Bytes, result: nat, bitpos: nat)
    requires bitpos in {7, 14, 21, 28} && result < TWO32 && b != [] && b[0] < 128 && (bitpos == 28 ==> b[0] < 16)
    ensures Varint32Rest(b, result, bitpos) == Some((OrShifted(result, b[0], bitpos), b[1..]))
  {
    hide OrShifted;
  }

  lemma RestContinues(b: Bytes, result: nat, bitpos: nat)
    requires bitpos in {7, 14, 21} && result < TWO32 && b != [] && b[0] >= 128
    ensures Varint32Rest(b, result, bitpos) == Varint32Rest(b[1..], OrShifted(result, b[0] % 128, bitpos), bitpos + 7)
  {
    hide OrShifted;
  }

  lemma Varint32RoundTrip(v: nat, rest: Bytes)
    requires v < TWO32
    ensures GetPbVarint32(Varint(v) + rest) == Some((v, rest))
  {
    Powers();
    hide Pow2, Varint32Rest, Varint;
    FrontOfVarint(v, rest);
    if v >= 128 {
      RestOfVarint(v / 128, rest, v % 128, 7);
    }
  }

  function GetPbVarint32(b: Bytes): (r: Got<nat>)
    ensures r.Some? ==> |r.value.1| < |b| && r.value.0 < TWO32
  {
    if b == [] then None
    else if b[0] < 128 then Some((b[0], b[1..]))
    else Varint32Rest(b[1..], b[0] % 128, 7)
  }

  function SkipVarint(b: Bytes): (r: Option<Bytes>)
    ensures r.Some? ==> |r.value| < |b|
  {
    if b == [] then None else if b[0] < 128 then Some(b[1..]) else SkipVarint(b[1..])
  }

  function Drop(b: Bytes, n: nat): (r: Option<Bytes>)
    ensures r.Some? ==> |r.value| + n == |b|
  {
    if n <= |b| then Some(b[n..]) else None
  }

  // An unknown field.
  function SkipField(b: Bytes, wireType: nat): (r: Option<Bytes>)
    ensures r.Some? ==> |r.value| <= |b|
  {
    if wireType == WT_VARINT then SkipVarint(b)
    else if wireType == WT_64BIT then Drop(b, 8)
    else if wireType == WT_STRING then (match GetPbVarint32(b) case None => None case Some(n) => Drop(n.1, n.0))
    else if wireType == WT_32BIT then Drop(b, 4)
    else None
  }

  // A length and that many bytes.
  function GetString(b: Bytes): (r: Option<(Bytes, Bytes)>)
    ensures r.Some? ==> |r.value.0| + |r.value.1| < |b|
  {
    match GetPbVarint32(b)
    case None => None
    case Some(n) => if n.0 <= |n.1| then Some((n.1[..n.0], n.1[n.0..])) else None
  }

  // What a C string holds.
  function UpToNul(b: Bytes): (r: Bytes)
    ensures |r| <= |b|
  {
    if b == [] || b[0] == 0 then [] else [b[0]] + UpToNul(b[1..])
  }

  // A number of the given field type: the conversions check that it fits, except that integers of
  // up to 32 bits first drop their upper half.
  function DecodeNumber(t: Type, b: Bytes): (r: Got<Value>)
    ensures r.Some? ==> |r.value.1| < |b|
  {
    match t
    case Bool => (match GetPbVarint32(b) case None => None case Some(p) => Some((Num(if p.0 != 0 then 1 else 0), p.1)))
    case Int(size) =>
      (match GetVarint64(b)
       case None => None
       case Some(p) =>
         if size !in {1, 2, 4, 8} then None
         else
           var n := if size == 8 then Signed(p.0, 8) else Signed(p.0, 4);
           if Signed(n, size) == n then Some((Num(n), p.1)) else None)
    case Uint(size) =>
      (match GetVarint64(b)
       case None => None
       case Some(p) => if size in {1, 2, 4, 8} && p.0 < UnsignedLimit(size) then Some((Num(p.0), p.1)) else None)
    case Sint(size) =>
      (match GetVarint64(b)
       case None => None
       case Some(p) =>
         var n := UnZigZag(p.0);
         if size in {1, 2, 4, 8} && Signed(n, size) == n then Some((Num(n), p.1)) else None)
    case Fix32 => if |b| >= 4 then Some((Num(DecodeFixed(b[..4])), b[4..])) else None
    case Fix64 => if |b| >= 8 then Some((Num(DecodeFixed(b[..8])), b[8..])) else None
    case _ => None
  }

  // held is what the field holds before; a message is merged into it.
  function DecodeValue(t: Type, held: Value, b: Bytes): (r: Got<Value>)
    ensures r.Some? ==> |r.value.1| < |b|
    decreases |b|, 0
  {
    match t
    case Blob(max) =>
      (match GetString(b) case None => None case Some(s) => if |s.0| <= max then Some((Str(s.0), s.1)) else None)
    case Text(max) =>
      (match GetString(b) case None => None case Some(s) => if |s.0| + 1 <= max then Some((Str(UpToNul(s.0)), s.1)) else None)
    case FixedBlob(n) =>
      (match GetString(b)
       case None => None
       case Some(s) => if s.0 == [] then Some((Str(Zeros(n)), s.1)) else if |s.0| == n then Some((Str(s.0), s.1)) else None)
    case Message(fs) =>
      (match GetString(b)
       case None => None
       case Some(s) =>
         var m := if held.Msg? && |held.m| == |fs| then held.m else Defaults(fs);
         match DecodeMsg(fs, s.0, m, {}) case None => None case Some(p) => Some((Msg(p.0), s.1)))
    case _ => DecodeNumber(t, b)
  }

  // The rest of a packed array.
  function DecodePacked(t: Type, vs: seq<Value>, max: nat, b: Bytes): (r: Option<seq<Value>>)
    decreases |b|
  {
    if b == [] then Some(vs)
    else if |vs| >= max then None
    else
      match DecodeNumber(t, b)
      case None => None
      case Some(p) => DecodePacked(t, vs + [p.0], max, p.1)
  }

  function Held(f: Field, s: Slot): Value {
    if s.One? && s.v.Some? then s.v.value else Default(f.typ)
  }

  function Entries(s: Slot): seq<Value> {
    if s.Many? then s.vs else []
  }

  function DecodeField(f: Field, wireType: nat, s: Slot, b: Bytes): (r: Got<Slot>)
    ensures r.Some? ==> |r.value.1| < |b|
    decreases |b|, 1
  {
    if f.rule.Repeated? then
      if wireType == WT_STRING && Packable(f.typ) then
        match GetString(b)
        case None => None
        case Some(p) =>
          match DecodePacked(f.typ, Entries(s), f.rule.max, p.0) case None => None case Some(vs) => Some((Many(vs), p.1))
      else if |Entries(s)| >= f.rule.max then None
      else
        match DecodeValue(f.typ, Default(f.typ), b)
        case None => None
        case Some(p) => Some((Many(Entries(s) + [p.0]), p.1))
    else
      match DecodeValue(f.typ, Held(f, s), b) case None => None case Some(p) => Some((One(Some(p.0)), p.1))
  }

  // Setting a member of a union unsets the others.
  function SetSlot(fs: seq<Field>, m: seq<Slot>, i: nat, s: Slot): (r: seq<Slot>)
    requires i < |m| == |fs|
    ensures |r| == |m|
  {
    seq(|m|, j requires 0 <= j < |m| =>
      if j == i then s else if fs[i].rule.Oneof? && fs[j].rule == fs[i].rule then One(None) else m[j])
  }

  function IndexOf(fs: seq<Field>, tag: nat): (r: Option<nat>)
    ensures r.Some? ==> r.value < |fs| && fs[r.value].tag == tag
    ensures r.None? ==> forall i :: 0 <= i < |fs| ==> fs[i].tag != tag
  {
    if fs == [] then None
    else if fs[|fs| - 1].tag == tag then Some(|fs| - 1)
    else IndexOf(fs[..|fs| - 1], tag)
  }

  lemma OnlyIndex(fs: seq<Field>, i: nat)
    requires i < |fs| && forall j, k :: 0 <= j < k < |fs| ==> fs[j].tag != fs[k].tag
    ensures IndexOf(fs, fs[i].tag) == Some(i)
  {
  }

  // Required fields are counted in order; only the first 64 are checked.
  const MAX_REQUIRED: nat := 64

  function RequiredIn(fs: seq<Field>): (r: nat)
    ensures r <= |fs|
  {
    if fs == [] then 0 else RequiredIn(fs[..|fs| - 1]) + if fs[|fs| - 1].rule.Required? then 1 else 0
  }

  function See(fs: seq<Field>, i: nat, seen: set<nat>): set<nat>
    requires i < |fs|
  {
    if fs[i].rule.Required? && RequiredIn(fs[..i]) < MAX_REQUIRED then seen + {RequiredIn(fs[..i])} else seen
  }

  predicate AllSeen(fs: seq<Field>, seen: set<nat>) {
    forall k :: 0 <= k < RequiredIn(fs) && k < MAX_REQUIRED ==> k in seen
  }

  // The fields found in b, up to its end or a zero tag.
  function DecodeMsg(fs: seq<Field>, b: Bytes, m: seq<Slot>, seen: set<nat>): (r: Option<(seq<Slot>, Bytes)>)
    requires |m| == |fs|
    ensures r.Some? ==> |r.value.0| == |fs| && |r.value.1| <= |b|
    decreases |b|, 2
  {
    if b == [] then (if AllSeen(fs, seen) then Some((m, b)) else None)
    else
      match GetPbVarint32(b)
      case None => None
      case Some(tag) =>
        if tag.0 == 0 then (if AllSeen(fs, seen) then Some((m, tag.1)) else None)
        else
          match IndexOf(fs, tag.0 / 8)
          case None => (match SkipField(tag.1, tag.0 % 8) case None => None case Some(rest) => DecodeMsg(fs, rest, m, seen))
          case Some(i) =>
            match DecodeField(fs[i], tag.0 % 8, m[i], tag.1)
            case None => None
            case Some(p) => DecodeMsg(fs, p.1, SetSlot(fs, m, i, p.0), See(fs, i, seen))
  }
}
