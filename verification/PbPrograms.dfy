/** A message through the buffer and back, with the programs that do it. */
module PbPrograms {
  import opened Coding
  import opened PbFormat
  import PbEncoder
  import PbDecoder
  import PbRoundTrip

  lemma {:induction false} TypedIsShaped(t: Type, v: Value)
    requires Typed(t, v)
    ensures PbEncoder.Shaped(t, v)
    decreases v
  {
    if t.Message? {
      TypedMsgIsShaped(t.fields, v.m);
    }
  }

  lemma {:induction false} TypedSlotIsShaped(f: Field, s: Slot)
    requires TypedSlot(f, s)
    ensures PbEncoder.ShapedSlot(f, s)
    decreases s
  {
    if s.Many? {
      forall k | 0 <= k < |s.vs|
        ensures PbEncoder.Shaped(f.typ, s.vs[k])
      {
        TypedIsShaped(f.typ, s.vs[k]);
      }
    } else if s.v.Some? {
      TypedIsShaped(f.typ, s.v.value);
    }
  }

  lemma {:induction false} TypedMsgIsShaped(fs: seq<Field>, m: seq<Slot>)
    requires TypedMsg(fs, m)
    ensures PbEncoder.ShapedMsg(fs, m)
    decreases m
  {
    forall i | 0 <= i < |m|
      ensures PbEncoder.ShapedSlot(fs[i], m[i])
    {
      TypedSlotIsShaped(fs[i], m[i]);
    }
  }

  lemma {:induction false} GoodTypeIsDistinct(t: Type)
    requires GoodType(t)
    ensures PbDecoder.DistinctTags(t)
    decreases t
  {
    if t.Message? {
      GoodFieldsAreDistinct(t.fields);
    }
  }

  lemma {:induction false} GoodFieldIsDistinct(f: Field)
    requires GoodField(f)
    ensures PbDecoder.DistinctField(f)
    decreases f
  {
    GoodTypeIsDistinct(f.typ);
  }

  lemma {:induction false} GoodFieldsAreDistinct(fs: seq<Field>)
    requires GoodFields(fs)
    ensures PbDecoder.DistinctFields(fs)
    decreases fs
  {
    forall i | 0 <= i < |fs|
      ensures PbDecoder.DistinctField(fs[i])
    {
      GoodFieldIsDistinct(fs[i]);
    }
  }

  // Sizes the message, encodes it into a buffer and decodes what was written. The encoding succeeds
  // if and only if the buffer has the predicted size, and then the message comes back.
  method EncodeAndDecode(fs: seq<Field>, m: seq<Slot>, bufferSize: nat)
    returns (size: nat, written: bool, read: bool, back: seq<Slot>)
    requires GoodFields(fs) && TypedMsg(fs, m)
    ensures written <==> size <= bufferSize
    ensures written && size < TWO32 ==> read && back == m
  {
    hide *;
    TypedMsgIsShaped(fs, m);
    GoodFieldsAreDistinct(fs);
    PbRoundTrip.RoundTrip(fs, m);
    var sized;
    sized, size := PbEncoder.GetEncodedSize(fs, m);
    var data;
    written, data := PbEncoder.EncodeToBuffer(fs, m, bufferSize);
    read, back := false, [];
    if written {
      read, back := PbDecoder.Decode(data, fs);
    }
  }
}
