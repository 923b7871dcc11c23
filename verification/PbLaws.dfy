/** Laws of decoding that hold whatever wrote the bytes: what one message after another means, that a
    submessage may come in parts and an array entry by entry, and which numbers a field takes. */
module PbLaws {
  import opened Keys
  import opened Wrappers
  import opened Coding
  import opened PbFormat
  import opened PbRequired
  import opened PbRoundTrip

  /** Reading looks no further than it has to */

  lemma {:induction false} Varint32RestLocal(b: Bytes, c: Bytes, result: nat, bitpos: nat)
    requires bitpos < 256 && result < TWO32 && Varint32Rest(b, result, bitpos).Some?
    ensures var p := Varint32Rest(b, result, bitpos).value; Varint32Rest(b + c, result, bitpos) == Some((p.0, p.1 + c))
    decreases |b|
  {
    hide OrShifted;
    assert (b + c)[1..] == b[1..] + c;
    if b[0] >= 128 {
      var next := if bitpos >= 32 then result else OrShifted(result, b[0] % 128, bitpos);
      Varint32RestLocal(b[1..], c, next, (bitpos + 7) % 256);
    }
  }

  lemma Varint32Local(b: Bytes, c: Bytes)
    requires GetPbVarint32(b).Some?
    ensures var p := GetPbVarint32(b).value; GetPbVarint32(b + c) == Some((p.0, p.1 + c))
  {
    hide Varint32Rest;
    assert (b + c)[1..] == b[1..] + c;
    if b[0] >= 128 {
      Varint32RestLocal(b[1..], c, b[0] % 128, 7);
    }
  }

  lemma {:induction false} ParseVarintLocal(b: Bytes, c: Bytes, limit: nat)
    requires ParseVarint(b, limit).Some?
    ensures ParseVarint(b + c, limit) == ParseVarint(b, limit)
    decreases limit
  {
    assert (b + c)[1..] == b[1..] + c;
    if b[0] >= 128 {
      ParseVarintLocal(b[1..], c, limit - 1);
    }
  }

  lemma Varint64Local(b: Bytes, c: Bytes)
    requires GetVarint64(b).Some?
    ensures var p := GetVarint64(b).value; GetVarint64(b + c) == Some((p.0, p.1 + c))
  {
    hide ParseVarint;
    ParseVarintLocal(b, c, 10);
    var n := ParseVarint(b, 10).value.1;
    assert (b + c)[n..] == b[n..] + c;
  }

  lemma {:induction false} SkipVarintLocal(b: Bytes, c: Bytes)
    requires SkipVarint(b).Some?
    ensures SkipVarint(b + c) == Some(SkipVarint(b).value + c)
    decreases |b|
  {
    assert (b + c)[1..] == b[1..] + c;
    if b[0] >= 128 {
      SkipVarintLocal(b[1..], c);
    }
  }

  lemma DropLocal(b: Bytes, c: Bytes, n: nat)
    requires Drop(b, n).Some?
    ensures Drop(b + c, n) == Some(Drop(b, n).value + c)
  {
    assert (b + c)[n..] == b[n..] + c;
  }

  lemma SkipLocal(b: Bytes, c: Bytes, wireType: nat)
    requires SkipField(b, wireType).Some?
    ensures SkipField(b + c, wireType) == Some(SkipField(b, wireType).value + c)
  {
    hide GetPbVarint32, SkipVarint, Drop;
    if wireType == WT_VARINT {
      SkipVarintLocal(b, c);
    } else if wireType == WT_64BIT {
      DropLocal(b, c, 8);
    } else if wireType == WT_STRING {
      Varint32Local(b, c);
      var n := GetPbVarint32(b).value;
      DropLocal(n.1, c, n.0);
    } else {
      DropLocal(b, c, 4);
    }
  }

  lemma StringLocal(b: Bytes, c: Bytes)
    requires GetString(b).Some?
    ensures var p := GetString(b).value; GetString(b + c) == Some((p.0, p.1 + c))
  {
    hide GetPbVarint32;
    Varint32Local(b, c);
    var n := GetPbVarint32(b).value;
    assert (n.1 + c)[..n.0] == n.1[..n.0] && (n.1 + c)[n.0..] == n.1[n.0..] + c;
  }

  lemma NumberLocal(t: Type, b: Bytes, c: Bytes)
    requires DecodeNumber(t, b).Some?
    ensures var p := DecodeNumber(t, b).value; DecodeNumber(t, b + c) == Some((p.0, p.1 + c))
  {
    hide GetPbVarint32, GetVarint64, Signed, UnZigZag, UnsignedLimit, DecodeFixed;
    if t.Bool? {
      Varint32Local(b, c);
    } else if t.Fix32? {
      assert (b + c)[..4] == b[..4] && (b + c)[4..] == b[4..] + c;
    } else if t.Fix64? {
      assert (b + c)[..8] == b[..8] && (b + c)[8..] == b[8..] + c;
    } else {
      Varint64Local(b, c);
    }
  }

  lemma ValueLocal(t: Type, held: Value, b: Bytes, c: Bytes)
    requires DecodeValue(t, held, b).Some?
    ensures var p := DecodeValue(t, held, b).value; DecodeValue(t, held, b + c) == Some((p.0, p.1 + c))
  {
    hide GetString, DecodeNumber, DecodeMsg;
    if Packable(t) {
      NumberLocal(t, b, c);
    } else {
      StringLocal(b, c);
    }
  }

  lemma FieldLocal(f: Field, wireType: nat, s: Slot, b: Bytes, c: Bytes)
    requires DecodeField(f, wireType, s, b).Some?
    ensures var p := DecodeField(f, wireType, s, b).value; DecodeField(f, wireType, s, b + c) == Some((p.0, p.1 + c))
  {
    hide GetString, DecodeValue, DecodePacked;
    if f.rule.Repeated? && wireType == WT_STRING && Packable(f.typ) {
      StringLocal(b, c);
    } else {
      ValueLocal(f.typ, if f.rule.Repeated? then Default(f.typ) else Held(f, s), b, c);
    }
  }

  /** One message after another */

  // Tags and fields up to the end, without a zero tag.
  predicate WholeFields(fs: seq<Field>, b: Bytes)
    decreases |b|
  {
    b == [] ||
    match GetPbVarint32(b)
    case None => false
    case Some(tag) =>
      var known := IndexOf(fs, tag.0 / 8);
      var after := if known.Some? then AfterField(fs[known.value], tag.0 % 8, tag.1) else SkipField(tag.1, tag.0 % 8);
      tag.0 != 0 && after.Some? && WholeFields(fs, after.value)
  }

  // One turn of parsing.
  lemma ParseStep(fs: seq<Field>, b: Bytes, m: seq<Slot>)
    requires |m| == |fs| && b != [] && GetPbVarint32(b).Some? && GetPbVarint32(b).value.0 != 0
    ensures var (tag, body) := GetPbVarint32(b).value;
      Parse(fs, b, m) ==
        match IndexOf(fs, tag / 8)
        case None => (match SkipField(body, tag % 8) case None => None case Some(rest) => Parse(fs, rest, m))
        case Some(i) =>
          match DecodeField(fs[i], tag % 8, m[i], body)
          case None => None
          case Some(p) => Parse(fs, p.1, SetSlot(fs, m, i, p.0))
  {
  }

  // Two messages one after the other are decoded as the second one into what came of the first.
  lemma {:induction false} Concatenation(fs: seq<Field>, a: Bytes, b: Bytes, m: seq<Slot>)
    requires |m| == |fs| && WholeFields(fs, a) && Parse(fs, a, m).Some?
    ensures |Parse(fs, a, m).value.0| == |fs| && Parse(fs, a, m).value.1 == []
    ensures Parse(fs, a + b, m) == Parse(fs, b, Parse(fs, a, m).value.0)
    decreases |a|
  {
    hide GetPbVarint32, SkipField, DecodeField, SetSlot, AfterField, Parse;
    if a == [] {
      ParseNothing(fs, m);
      assert a + b == b;
    } else {
      Varint32Local(a, b);
      ParseStep(fs, a, m);
      ParseStep(fs, a + b, m);
      var (tag, body) := GetPbVarint32(a).value;
      var known := IndexOf(fs, tag / 8);
      if known.None? {
        SkipLocal(body, b, tag % 8);
        Concatenation(fs, SkipField(body, tag % 8).value, b, m);
      } else {
        var i := known.value;
        var (s, rest) := DecodeField(fs[i], tag % 8, m[i], body).value;
        FieldLocal(fs[i], tag % 8, m[i], body, b);
        FieldEnds(fs[i], tag % 8, m[i], body);
        Concatenation(fs, rest, b, SetSlot(fs, m, i, s));
      }
    }
  }

  lemma ParseNothing(fs: seq<Field>, m: seq<Slot>)
    requires |m| == |fs|
    ensures Parse(fs, [], m) == Some((m, []))
  {
  }

  // A zero tag ends a message; what follows is left alone.
  lemma NullTerminated(fs: seq<Field>, a: Bytes, b: Bytes, m: seq<Slot>)
    requires |m| == |fs| && WholeFields(fs, a) && Parse(fs, a, m).Some?
    ensures Parse(fs, a + [0] + b, m) == Some((Parse(fs, a, m).value.0, b))
  {
    Concatenation(fs, a, [0] + b, m);
    assert a + [0] + b == a + ([0] + b) && ([0] + b)[1..] == b;
    hide Parse;
    ParseZero(fs, b, Parse(fs, a, m).value.0);
  }

  lemma ParseZero(fs: seq<Field>, b: Bytes, m: seq<Slot>)
    requires |m| == |fs|
    ensures Parse(fs, [0] + b, m) == Some((m, b))
  {
    assert ([0] + b)[1..] == b;
  }

  lemma {:induction false} TagsAdd(fs: seq<Field>, a: Bytes, b: Bytes)
    requires WholeFields(fs, a)
    ensures TopTags(fs, a + b) == TopTags(fs, a) + TopTags(fs, b)
    decreases |a|
  {
    hide GetPbVarint32, SkipField, AfterField, SkipVarint;
    if a == [] {
      NoTags(fs, {});
      assert a + b == b;
    } else {
      Varint32Local(a, b);
      var (tag, body) := GetPbVarint32(a).value;
      var known := IndexOf(fs, tag / 8);
      if known.None? {
        SkipLocal(body, b, tag % 8);
        TagsAdd(fs, SkipField(body, tag % 8).value, b);
        TagFirst(fs, a, SkipField(body, tag % 8).value, {});
        TagFirst(fs, a + b, SkipField(body, tag % 8).value + b, {});
      } else {
        var after := AfterField(fs[known.value], tag % 8, body).value;
        AfterLocal(fs[known.value], tag % 8, body, b);
        TagsAdd(fs, after, b);
        TagFirst(fs, a, after, {});
        TagFirst(fs, a + b, after + b, {});
      }
    }
  }

  lemma AfterLocal(f: Field, wireType: nat, b: Bytes, c: Bytes)
    requires AfterField(f, wireType, b).Some?
    ensures AfterField(f, wireType, b + c) == Some(AfterField(f, wireType, b).value + c)
  {
    hide GetPbVarint32, SkipField, SkipVarint, Drop;
    if !Packable(f.typ) || (f.rule.Repeated? && wireType == 2) {
      SkipLocal(b, c, 2);
    } else if f.typ.Fix32? {
      DropLocal(b, c, 4);
    } else if f.typ.Fix64? {
      DropLocal(b, c, 8);
    } else {
      SkipVarintLocal(b, c);
    }
  }

  lemma PartsDecode(fs: seq<Field>, a: Bytes, b: Bytes, m: seq<Slot>)
    requires |m| == |fs| && WholeFields(fs, a) && forall j, k :: 0 <= j < k < |fs| ==> fs[j].tag != fs[k].tag
    requires DecodeMsg(fs, a, m, {}).Some? && DecodeMsg(fs, b, DecodeMsg(fs, a, m, {}).value.0, {}).Some?
    ensures DecodeMsg(fs, a + b, m, {}) == DecodeMsg(fs, b, DecodeMsg(fs, a, m, {}).value.0, {})
  {
    hide DecodeMsg, Parse, TopTags, WholeFields;
    DecodesIff(fs, a, m);
    DecodesIff(fs, b, DecodeMsg(fs, a, m, {}).value.0);
    DecodesIff(fs, a + b, m);
    Concatenation(fs, a, b, m);
    TagsAdd(fs, a, b);
  }

  // A submessage may come in parts: reading one part and then the other is reading them in one piece.
  lemma SubmessageInParts(f: Field, fs: seq<Field>, s: Slot, wireType: nat, a: Bytes, b: Bytes, rest: Bytes)
    requires f.typ == Message(fs) && !f.rule.Repeated? && |a + b| < TWO32 && WholeFields(fs, a)
    requires forall j, k :: 0 <= j < k < |fs| ==> fs[j].tag != fs[k].tag
    requires DecodeField(f, wireType, s, Prefixed(a) + rest).Some?
    requires DecodeField(f, wireType, DecodeField(f, wireType, s, Prefixed(a) + rest).value.0, Prefixed(b) + rest).Some?
    ensures DecodeField(f, wireType, s, Prefixed(a + b) + rest)
            == DecodeField(f, wireType, DecodeField(f, wireType, s, Prefixed(a) + rest).value.0, Prefixed(b) + rest)
  {
    hide GetString, Prefixed, DecodeMsg, WholeFields;
    StringReadsBack(a, rest);
    StringReadsBack(b, rest);
    StringReadsBack(a + b, rest);
    var held := Held(f, s);
    var m := if held.Msg? && |held.m| == |fs| then held.m else Defaults(fs);
    assert DecodeMsg(fs, a, m, {}).Some?;
    PartsDecode(fs, a, b, m);
  }

  // A field that is neither an array nor a message holds what its last occurrence says.
  lemma LastOneWins(f: Field, wireType: nat, s: Slot, t: Slot, b: Bytes)
    requires !f.rule.Repeated? && !f.typ.Message?
    ensures DecodeField(f, wireType, s, b) == DecodeField(f, wireType, t, b)
  {
    hide GetString, DecodeNumber;
  }

  // Every entry of an array that comes with a tag of its own is appended, also where the encoder would
  // pack them, until the array is full.
  lemma EntryAppends(f: Field, vs: seq<Value>, v: Value, b: Bytes, rest: Bytes)
    requires f.rule.Repeated? && GoodType(f.typ) && Typed(f.typ, v) && EncodeValue(f.typ, v) == Some(b) && |b| < TWO32
    ensures DecodeField(f, WireType(f.typ), Many(vs), b + rest) ==
      if |vs| < f.rule.max then Some((Many(vs + [v]), rest)) else None
  {
    ValueReadsBack(f.typ, v, b, rest);
    hide EncodeValue, DecodeValue, GoodType, Typed;
  }

  /** Numbers */

  predicate InBytes(n: int, size: nat) {
    match size
    case 1 => -0x80 <= n < 0x80
    case 2 => -0x8000 <= n < 0x8000
    case 4 => -0x8000_0000 <= n < 0x8000_0000
    case _ => -0x8000_0000_0000_0000 <= n < 0x8000_0000_0000_0000
  }

  lemma LowerHalf(v: int, n: int)
    ensures Signed(v, 4) == n <==> InBytes(n, 4) && (v - n) % 0x1_0000_0000 == 0
  {
    var x := Signed(v, 4);
    assert InBytes(x, 4) && (v - x) % 0x1_0000_0000 == 0;
    hide Signed;
    if InBytes(n, 4) && (v - n) % 0x1_0000_0000 == 0 {
      assert n - x == ((v - x) / 0x1_0000_0000 - (v - n) / 0x1_0000_0000) * 0x1_0000_0000;
    }
  }

  lemma AllOfIt(v: int, n: int)
    ensures Signed(v, 8) == n <==> InBytes(n, 8) && (v - n) % 0x1_0000_0000_0000_0000 == 0
  {
    var x := Signed(v, 8);
    assert InBytes(x, 8) && (v - x) % 0x1_0000_0000_0000_0000 == 0;
    hide Signed;
    if InBytes(n, 8) && (v - n) % 0x1_0000_0000_0000_0000 == 0 {
      assert n - x == ((v - x) / 0x1_0000_0000_0000_0000 - (v - n) / 0x1_0000_0000_0000_0000) * 0x1_0000_0000_0000_0000;
    }
  }

  lemma SignedSame(n: int, size: nat)
    requires size in {1, 2, 4, 8}
    ensures Signed(n, size) == n <==> InBytes(n, size)
  {
  }

  // The numbers a field takes. Integers of up to four bytes look at the lower half of the 64 bits only.
  lemma IntIff(size: nat, n: int, b: Bytes)
    requires size in {1, 2, 4, 8} && GetVarint64(b).Some?
    ensures var (v, rest) := GetVarint64(b).value;
      DecodeNumber(Int(size), b) == Some((Num(n), rest)) <==>
        InBytes(n, size) && (v - n) % (if size == 8 then 0x1_0000_0000_0000_0000 else 0x1_0000_0000) == 0
  {
    hide GetVarint64, Signed;
    var (v, rest) := GetVarint64(b).value;
    var x := if size == 8 then Signed(v, 8) else Signed(v, 4);
    LowerHalf(v, n);
    AllOfIt(v, n);
    SignedSame(x, size);
  }

  // Signed numbers alternate: 0, -1, 1, -2, 2 and so on.
  lemma SintIff(size: nat, n: int, b: Bytes)
    requires size in {1, 2, 4, 8} && GetVarint64(b).Some?
    ensures var (v, rest) := GetVarint64(b).value;
      DecodeNumber(Sint(size), b) == Some((Num(n), rest)) <==> InBytes(n, size) && v == if n < 0 then -2 * n - 1 else 2 * n
  {
    hide GetVarint64, Signed;
    var (v, rest) := GetVarint64(b).value;
    SignedSame(UnZigZag(v), size);
    assert UnZigZag(v) == n <==> v == if n < 0 then -2 * n - 1 else 2 * n;
    hide UnZigZag;
  }

  lemma UintIff(size: nat, n: nat, b: Bytes)
    requires size in {1, 2, 4, 8} && GetVarint64(b).Some?
    ensures var (v, rest) := GetVarint64(b).value;
      DecodeNumber(Uint(size), b) == Some((Num(n), rest)) <==>
        n == v && n < match size case 1 => 0x100 case 2 => 0x1_0000 case 4 => 0x1_0000_0000 case _ => 0x1_0000_0000_0000_0000
  {
    hide GetVarint64;
  }

  lemma BoolIs(b: Bytes)
    requires GetPbVarint32(b).Some?
    ensures var (v, rest) := GetPbVarint32(b).value; DecodeNumber(Bool, b) == Some((Num(if v == 0 then 0 else 1), rest))
  {
    hide GetPbVarint32;
  }

  /** What is refused, and what is left out */

  // Wire types other than the four that are in use cannot be passed over.
  lemma OtherWireTypes(b: Bytes, wireType: nat)
    requires wireType !in {0, 1, 2, 5}
    ensures SkipField(b, wireType) == None
  {
  }

  // A fixed-length blob takes its own length, or nothing at all, which stands for zeros.
  lemma FixedBlobIff(n: nat, held: Value, b: Bytes, rest: Bytes)
    requires |b| < TWO32
    ensures DecodeValue(FixedBlob(n), held, Prefixed(b) + rest) ==
      if |b| == n then Some((Str(b), rest)) else if b == [] then Some((Str(seq(n, _ => 0)), rest)) else None
  {
    StringReadsBack(b, rest);
    hide GetString, Prefixed;
    assert b == [] && n == 0 ==> Zeros(n) == b;
    assert Zeros(n) == seq(n, _ => 0);
  }

  // A packed array that is too long is refused as a whole.
  lemma {:induction false} PackedTooLong(f: Field, vs: seq<Value>, more: seq<Value>, max: nat, b: Bytes)
    requires Packable(f.typ) && |vs| <= max < |vs| + |more| && (forall v :: v in more ==> Typed(f.typ, v))
    requires EncodeEntries(f, false, more) == Some(b)
    ensures DecodePacked(f.typ, vs, max, b) == None
    decreases more
  {
    var first, others := EncodeValue(f.typ, more[0]).value, EncodeEntries(f, false, more[1..]).value;
    NumberReadsBack(f.typ, more[0], first, others);
    assert b == first + others && b != [];
    if |vs| < max {
      PackedTooLong(f, vs + [more[0]], more[1..], max, others);
    }
  }

  // Numbers in an array share one tag and one length.
  lemma NumbersArePacked(f: Field, vs: seq<Value>, b: Bytes)
    requires f.rule.Repeated? && Packable(f.typ) && vs != [] && EncodeEntries(f, false, vs) == Some(b)
    ensures EncodeField(f, Many(vs)) == if |vs| <= f.rule.max then Some(Varint(8 * f.tag + 2) + (Varint(|b|) + b)) else None
  {
    hide EncodeEntries, Varint;
  }

  // Fields are written in the order of the descriptor.
  lemma {:induction false} LastFieldLast(fs: seq<Field>, m: seq<Slot>, f: Field, s: Slot)
    requires |fs| == |m| && EncodeMsg(fs + [f], m + [s]).Some?
    ensures EncodeMsg(fs, m).Some? && EncodeField(f, s).Some?
    ensures EncodeMsg(fs + [f], m + [s]).value == EncodeMsg(fs, m).value + EncodeField(f, s).value
    decreases |fs|
  {
    hide EncodeField;
    if fs == [] {
      assert (fs + [f])[1..] == [] && (m + [s])[1..] == [];
    } else {
      assert (fs + [f])[1..] == fs[1..] + [f] && (m + [s])[1..] == m[1..] + [s];
      LastFieldLast(fs[1..], m[1..], f, s);
    }
  }

  // A number, string or blob without a flag of its own is left out if and only if it is zero or empty;
  // required ones and those with a flag that is set are always written.
  lemma LeftOutIff(f: Field, v: Value)
    requires !f.rule.Repeated? && (v.Num? || v.Str?) && !f.typ.FixedBlob? && EncodeField(f, One(Some(v))).Some?
    ensures EncodeField(f, One(Some(v))) == Some([]) <==> f.rule == Optional(false) && (v == Num(0) || v == Str([]))
  {
    hide Varint;
  }
}
