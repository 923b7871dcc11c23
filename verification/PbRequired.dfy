/** When a message decodes: its fields must parse, and the required ones must be among them. */
module PbRequired {
  import opened Keys
  import opened Wrappers
  import opened Coding
  import opened PbFormat

  /** The tags at the top of a message, by what the bytes say alone */

  // What is left after one occurrence of a known field: packed arrays, strings, blobs and messages
  // carry their length.
  function AfterField(f: Field, wireType: nat, b: Bytes): (r: Option<Bytes>)
    ensures r.Some? ==> |r.value| <= |b|
  {
    if !Packable(f.typ) || (f.rule.Repeated? && wireType == 2) then SkipField(b, 2)
    else if f.typ.Fix32? then Drop(b, 4)
    else if f.typ.Fix64? then Drop(b, 8)
    else SkipVarint(b)
  }

  // The tags read up to the end, a zero tag or a field cut off.
  function TopTags(fs: seq<Field>, b: Bytes): set<nat>
    decreases |b|
  {
    match GetPbVarint32(b)
    case None => {}
    case Some(tag) =>
      if tag.0 == 0 then {}
      else
        var known := IndexOf(fs, tag.0 / 8);
        var after := if known.Some? then AfterField(fs[known.value], tag.0 % 8, tag.1) else SkipField(tag.1, tag.0 % 8);
        {tag.0 / 8} + if after.Some? then TopTags(fs, after.value) else {}
  }

  lemma {:induction false} SkipsWhatIsRead(b: Bytes, result: nat, bitpos: nat)
    requires bitpos < 256 && result < TWO32 && Varint32Rest(b, result, bitpos).Some?
    ensures SkipVarint(b) == Some(Varint32Rest(b, result, bitpos).value.1)
    decreases |b|
  {
    hide OrShifted;
    if b[0] >= 128 {
      var next := if bitpos >= 32 then result else OrShifted(result, b[0] % 128, bitpos);
      SkipsWhatIsRead(b[1..], next, (bitpos + 7) % 256);
    }
  }

  lemma SkipsVarint32(b: Bytes)
    requires GetPbVarint32(b).Some?
    ensures SkipVarint(b) == Some(GetPbVarint32(b).value.1)
  {
    hide Varint32Rest;
    if b[0] >= 128 {
      SkipsWhatIsRead(b[1..], b[0] % 128, 7);
    }
  }

  lemma {:induction false} SkipsVarint64(b: Bytes, limit: nat)
    requires ParseVarint(b, limit).Some?
    ensures ParseVarint(b, limit).value.1 <= |b|
    ensures SkipVarint(b) == Some(b[ParseVarint(b, limit).value.1..])
    decreases limit
  {
    if b[0] >= 128 {
      SkipsVarint64(b[1..], limit - 1);
    }
  }

  lemma NumberEnds(t: Type, wireType: nat, b: Bytes)
    requires Packable(t) && DecodeNumber(t, b).Some?
    ensures AfterField(Field(0, Required, t), wireType, b) == Some(DecodeNumber(t, b).value.1)
  {
    hide GetPbVarint32, ParseVarint, SkipVarint, Signed, UnZigZag, UnsignedLimit, DecodeFixed;
    if t.Bool? {
      SkipsVarint32(b);
    } else if !t.Fix32? && !t.Fix64? {
      SkipsVarint64(b, 10);
    }
  }

  // The scan goes on where the decoder does.
  lemma FieldEnds(f: Field, wireType: nat, s: Slot, b: Bytes)
    requires DecodeField(f, wireType, s, b).Some?
    ensures AfterField(f, wireType, b) == Some(DecodeField(f, wireType, s, b).value.1)
  {
    hide GetPbVarint32, DecodeNumber, DecodePacked, SkipVarint, DecodeMsg;
    if Packable(f.typ) && !(f.rule.Repeated? && wireType == 2) {
      NumberEnds(f.typ, wireType, b);
    }
  }

  /** Decoding without looking for required fields */

  function Parse(fs: seq<Field>, b: Bytes, m: seq<Slot>): (r: Option<(seq<Slot>, Bytes)>)
    requires |m| == |fs|
    decreases |b|
  {
    if b == [] then Some((m, b))
    else
      match GetPbVarint32(b)
      case None => None
      case Some(tag) =>
        if tag.0 == 0 then Some((m, tag.1))
        else
          match IndexOf(fs, tag.0 / 8)
          case None => (match SkipField(tag.1, tag.0 % 8) case None => None case Some(rest) => Parse(fs, rest, m))
          case Some(i) =>
            match DecodeField(fs[i], tag.0 % 8, m[i], tag.1)
            case None => None
            case Some(p) => Parse(fs, p.1, SetSlot(fs, m, i, p.0))
  }

  /** Required fields */

  // The required fields before a field.
  function RequiredBefore(fs: seq<Field>, i: nat): set<nat> {
    set j: nat | j < i && j < |fs| && fs[j].rule.Required?
  }

  // Whether the tag of every required field occurs. Only the first 64 required fields are looked for.
  ghost predicate RequiredFound(fs: seq<Field>, tags: set<nat>) {
    forall i: nat :: i < |fs| && fs[i].rule.Required? && |RequiredBefore(fs, i)| < 64 ==> fs[i].tag in tags
  }

  // What the decoder has noted once these tags were read.
  ghost function Noted(fs: seq<Field>, tags: set<nat>): set<nat> {
    set i: nat | i < |fs| && fs[i].rule.Required? && RequiredIn(fs[..i]) < MAX_REQUIRED && fs[i].tag in tags :: RequiredIn(fs[..i])
  }

  lemma {:induction false} CountsRequired(fs: seq<Field>, i: nat)
    requires i <= |fs|
    ensures |RequiredBefore(fs, i)| == RequiredIn(fs[..i])
  {
    if i == 0 {
      assert RequiredBefore(fs, 0) == {};
    } else {
      CountsRequired(fs, i - 1);
      assert fs[..i][..i - 1] == fs[..i - 1];
      assert RequiredBefore(fs, i) == RequiredBefore(fs, i - 1) + if fs[i - 1].rule.Required? then {i - 1} else {};
    }
  }

  lemma {:induction false} RequiredGrows(fs: seq<Field>, i: nat, j: nat)
    requires i < j <= |fs|
    ensures RequiredIn(fs[..i]) + (if fs[i].rule.Required? then 1 else 0) <= RequiredIn(fs[..j])
    decreases j
  {
    assert fs[..j][..j - 1] == fs[..j - 1];
    if i < j - 1 {
      RequiredGrows(fs, i, j - 1);
    }
  }

  // The required field with a number.
  lemma {:induction false} RequiredNumbered(fs: seq<Field>, n: nat, k: nat) returns (i: nat)
    requires n <= |fs| && k < RequiredIn(fs[..n])
    ensures i < n && fs[i].rule.Required? && RequiredIn(fs[..i]) == k
    decreases n
  {
    assert fs[..n][..n - 1] == fs[..n - 1];
    if k < RequiredIn(fs[..n - 1]) {
      i := RequiredNumbered(fs, n - 1, k);
    } else {
      i := n - 1;
    }
  }

  lemma NumberedOnce(fs: seq<Field>, i: nat, j: nat)
    requires i < |fs| && j < |fs| && fs[i].rule.Required? && fs[j].rule.Required? && RequiredIn(fs[..i]) == RequiredIn(fs[..j])
    ensures i == j
  {
    if i < j {
      RequiredGrows(fs, i, j);
    } else if j < i {
      RequiredGrows(fs, j, i);
    }
  }

  lemma SeenMeans(fs: seq<Field>, tags: set<nat>)
    ensures AllSeen(fs, Noted(fs, tags)) <==> RequiredFound(fs, tags)
  {
    var seen := Noted(fs, tags);
    assert fs[..|fs|] == fs;
    if AllSeen(fs, seen) {
      forall i: nat | i < |fs| && fs[i].rule.Required? && |RequiredBefore(fs, i)| < 64
        ensures fs[i].tag in tags
      {
        CountsRequired(fs, i);
        RequiredGrows(fs, i, |fs|);
        assert RequiredIn(fs[..i]) in seen;
        var j: nat :| j < |fs| && fs[j].rule.Required? && fs[j].tag in tags && RequiredIn(fs[..j]) == RequiredIn(fs[..i]);
        NumberedOnce(fs, i, j);
      }
    }
    if RequiredFound(fs, tags) {
      forall k | 0 <= k < RequiredIn(fs) && k < MAX_REQUIRED
        ensures k in seen
      {
        var i := RequiredNumbered(fs, |fs|, k);
        CountsRequired(fs, i);
      }
    }
  }

  lemma SeeNotes(fs: seq<Field>, i: nat, tags: set<nat>)
    requires i < |fs| && forall j, k :: 0 <= j < k < |fs| ==> fs[j].tag != fs[k].tag
    ensures See(fs, i, Noted(fs, tags)) == Noted(fs, tags + {fs[i].tag})
  {
    assert forall j: nat :: j < |fs| && fs[j].tag == fs[i].tag ==> j == i;
  }

  // Tags the descriptor does not know change nothing.
  lemma UnknownNotNoted(fs: seq<Field>, tag: nat, tags: set<nat>)
    requires forall i :: 0 <= i < |fs| ==> fs[i].tag != tag
    ensures Noted(fs, tags + {tag}) == Noted(fs, tags)
  {
  }

  lemma {:induction false} DecodeMsgParses(fs: seq<Field>, b: Bytes, m: seq<Slot>, tags: set<nat>)
    requires |m| == |fs| && forall j, k :: 0 <= j < k < |fs| ==> fs[j].tag != fs[k].tag
    ensures DecodeMsg(fs, b, m, Noted(fs, tags)) ==
      if AllSeen(fs, Noted(fs, tags + TopTags(fs, b))) then Parse(fs, b, m) else None
    decreases |b|
  {
    hide GetPbVarint32, SkipField, DecodeField, SetSlot, See, Noted, AllSeen, AfterField;
    NoTags(fs, tags);
    if b != [] && GetPbVarint32(b).Some? && GetPbVarint32(b).value.0 != 0 {
      var (tag, body) := GetPbVarint32(b).value;
      var known := IndexOf(fs, tag / 8);
      if known.None? {
        UnknownNotNoted(fs, tag / 8, tags);
        if SkipField(body, tag % 8).Some? {
          TagFirst(fs, b, SkipField(body, tag % 8).value, tags);
          DecodeMsgParses(fs, SkipField(body, tag % 8).value, m, tags + {tag / 8});
        }
      } else if DecodeField(fs[known.value], tag % 8, m[known.value], body).Some? {
        var (s, rest) := DecodeField(fs[known.value], tag % 8, m[known.value], body).value;
        SeeNotes(fs, known.value, tags);
        FieldEnds(fs[known.value], tag % 8, m[known.value], body);
        TagFirst(fs, b, rest, tags);
        DecodeMsgParses(fs, rest, SetSlot(fs, m, known.value, s), tags + {tag / 8});
      }
    }
  }

  lemma NoTags(fs: seq<Field>, tags: set<nat>)
    ensures tags + TopTags(fs, []) == tags
  {
  }

  // The tag in front and those of the rest.
  lemma TagFirst(fs: seq<Field>, b: Bytes, after: Bytes, tags: set<nat>)
    requires GetPbVarint32(b).Some? && GetPbVarint32(b).value.0 != 0
    requires var (tag, body) := GetPbVarint32(b).value;
      var known := IndexOf(fs, tag / 8);
      (if known.Some? then AfterField(fs[known.value], tag % 8, body) else SkipField(body, tag % 8)) == Some(after)
    ensures var tag := GetPbVarint32(b).value.0 / 8;
      tags + TopTags(fs, b) == tags + {tag} + TopTags(fs, after)
  {
    hide GetPbVarint32, SkipField, AfterField;
  }

  // Decoding succeeds if and only if the fields parse and every required field occurs among the
  // tags of the message itself.
  lemma DecodesIff(fs: seq<Field>, b: Bytes, m: seq<Slot>)
    requires |m| == |fs| && forall j, k :: 0 <= j < k < |fs| ==> fs[j].tag != fs[k].tag
    ensures DecodeMsg(fs, b, m, {}) == if RequiredFound(fs, TopTags(fs, b)) then Parse(fs, b, m) else None
  {
    assert Noted(fs, {}) == {};
    assert {} + TopTags(fs, b) == TopTags(fs, b);
    hide *;
    DecodeMsgParses(fs, b, m, {});
    SeenMeans(fs, TopTags(fs, b));
  }
}
