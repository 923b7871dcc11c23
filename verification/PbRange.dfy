/** What decoding makes of any bytes is a message the C struct can hold: numbers fit their fields,
    strings and blobs their buffers, arrays their bounds, and at most one member of a union is set. */
module PbRange {
  import opened Keys
  import opened Wrappers
  import opened Coding
  import opened PbFormat

  // Every string buffer has room for its terminator.
  ghost predicate RoomyType(t: Type) {
    match t
    case Text(max) => max > 0
    case Message(fs) => Roomy(fs)
    case _ => true
  }

  ghost predicate RoomyField(f: Field) {
    RoomyType(f.typ)
  }

  ghost predicate Roomy(fs: seq<Field>)
    decreases fs
  {
    forall i :: 0 <= i < |fs| ==> RoomyField(fs[i])
  }

  ghost predicate Sound(t: Type) {
    GoodType(t) && RoomyType(t)
  }

  ghost predicate SoundFields(fs: seq<Field>) {
    GoodFields(fs) && Roomy(fs)
  }

  lemma SoundAt(fs: seq<Field>, i: nat)
    requires SoundFields(fs) && i < |fs|
    ensures Sound(fs[i].typ)
  {
    assert GoodField(fs[i]) && RoomyField(fs[i]);
  }

  /** The defaults */

  lemma {:induction false} DefaultTyped(t: Type)
    requires Sound(t)
    ensures Typed(t, Default(t))
    decreases t
  {
    if t.Message? {
      DefaultsTyped(t.fields);
    }
  }

  lemma {:induction false} DefaultSlotTyped(f: Field)
    requires Sound(f.typ)
    ensures TypedSlot(f, DefaultSlot(f))
    decreases f
  {
    DefaultTyped(f.typ);
  }

  lemma {:induction false} DefaultsAt(fs: seq<Field>, i: nat)
    requires i < |fs|
    ensures Defaults(fs)[i] == DefaultSlot(fs[i])
  {
    if i > 0 {
      DefaultsAt(fs[1..], i - 1);
    }
  }

  lemma {:induction false} DefaultsTyped(fs: seq<Field>)
    requires SoundFields(fs)
    ensures TypedMsg(fs, Defaults(fs))
    decreases fs
  {
    forall i | 0 <= i < |fs|
      ensures TypedSlot(fs[i], Defaults(fs)[i]) && (fs[i].rule.Oneof? ==> Defaults(fs)[i] == One(None))
    {
      SoundAt(fs, i);
      DefaultsAt(fs, i);
      DefaultSlotTyped(fs[i]);
    }
  }

  /** Values */

  lemma DecodeNumberTyped(t: Type, b: Bytes)
    requires GoodType(t) && DecodeNumber(t, b).Some?
    ensures Typed(t, DecodeNumber(t, b).value.0)
  {
    hide GetPbVarint32, GetVarint64, DecodeFixed, UnZigZag;
    if t.Fix32? {
      FixedBound(b[..4]);
    } else if t.Fix64? {
      FixedBound(b[..8]);
    }
  }

  lemma {:induction false} UpToNulEnds(b: Bytes)
    ensures 0 !in UpToNul(b)
  {
    if b != [] && b[0] != 0 {
      UpToNulEnds(b[1..]);
    }
  }

  lemma {:induction false} DecodeValueTyped(t: Type, held: Value, b: Bytes)
    requires Sound(t) && Typed(t, held) && DecodeValue(t, held, b).Some?
    ensures Typed(t, DecodeValue(t, held, b).value.0)
    decreases |b|, 0
  {
    hide GetString, DecodeNumber, DecodeMsg, GoodFields, Roomy;
    match t {
      case Blob(_) =>
      case Text(_) => UpToNulEnds(GetString(b).value.0);
      case FixedBlob(_) =>
      case Message(fs) =>
        var s := GetString(b).value;
        DecodeMsgTyped(fs, s.0, held.m, {});
      case _ => DecodeNumberTyped(t, b);
    }
  }

  lemma {:induction false} DecodePackedTyped(t: Type, vs: seq<Value>, max: nat, b: Bytes)
    requires GoodType(t) && |vs| <= max && (forall i :: 0 <= i < |vs| ==> Typed(t, vs[i])) && DecodePacked(t, vs, max, b).Some?
    ensures var r := DecodePacked(t, vs, max, b).value; |r| <= max && forall i :: 0 <= i < |r| ==> Typed(t, r[i])
    decreases |b|
  {
    hide DecodeNumber, Typed;
    if b != [] {
      DecodeNumberTyped(t, b);
      var (v, rest) := DecodeNumber(t, b).value;
      DecodePackedTyped(t, vs + [v], max, rest);
    }
  }

  /** Fields and messages */

  lemma {:induction false} DecodeFieldTyped(f: Field, wireType: nat, s: Slot, b: Bytes)
    requires Sound(f.typ) && TypedSlot(f, s) && DecodeField(f, wireType, s, b).Some?
    ensures TypedSlot(f, DecodeField(f, wireType, s, b).value.0)
    ensures DecodeField(f, wireType, s, b).value.0 != One(None)
    decreases |b|, 1
  {
    hide GetString, DecodeValue, DecodePacked, Typed;
    DefaultTyped(f.typ);
    if f.rule.Repeated? && wireType == WT_STRING && Packable(f.typ) {
      DecodePackedTyped(f.typ, s.vs, f.rule.max, GetString(b).value.0);
    } else if f.rule.Repeated? {
      DecodeValueTyped(f.typ, Default(f.typ), b);
    } else {
      DecodeValueTyped(f.typ, Held(f, s), b);
    }
  }

  lemma SetSlotTyped(fs: seq<Field>, m: seq<Slot>, i: nat, s: Slot)
    requires TypedMsg(fs, m) && i < |fs| && TypedSlot(fs[i], s)
    ensures TypedMsg(fs, SetSlot(fs, m, i, s))
  {
    hide Typed;
    var r := SetSlot(fs, m, i, s);
    forall j | 0 <= j < |fs|
      ensures TypedSlot(fs[j], r[j])
    {
      assert TypedSlot(fs[j], m[j]);
    }
  }

  // Whatever the bytes are, a message in range stays in range.
  lemma {:induction false} DecodeMsgTyped(fs: seq<Field>, b: Bytes, m: seq<Slot>, seen: set<nat>)
    requires SoundFields(fs) && TypedMsg(fs, m) && DecodeMsg(fs, b, m, seen).Some?
    ensures TypedMsg(fs, DecodeMsg(fs, b, m, seen).value.0)
    decreases |b|, 2
  {
    hide GetPbVarint32, SkipField, DecodeField, SetSlot, See, AllSeen, GoodFields, Roomy;
    if b != [] && GetPbVarint32(b).value.0 != 0 {
      var (tag, body) := GetPbVarint32(b).value;
      var known := IndexOf(fs, tag / 8);
      if known.None? {
        DecodeMsgTyped(fs, SkipField(body, tag % 8).value, m, seen);
      } else {
        var i := known.value;
        var (s, rest) := DecodeField(fs[i], tag % 8, m[i], body).value;
        SoundAt(fs, i);
        DecodeFieldTyped(fs[i], tag % 8, m[i], body);
        SetSlotTyped(fs, m, i, s);
        DecodeMsgTyped(fs, rest, SetSlot(fs, m, i, s), See(fs, i, seen));
      }
    }
  }

  // In particular what comes of any buffer.
  lemma DecodedIsTyped(fs: seq<Field>, b: Bytes)
    requires SoundFields(fs) && DecodeMsg(fs, b, Defaults(fs), {}).Some?
    ensures TypedMsg(fs, DecodeMsg(fs, b, Defaults(fs), {}).value.0)
  {
    DefaultsTyped(fs);
    hide *;
    DecodeMsgTyped(fs, b, Defaults(fs), {});
  }
}
