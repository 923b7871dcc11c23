/** Version edits as they are written to the manifest: tagged fields, in any number and order. */
module EditCodec {
  import opened Keys
  import opened Wrappers
  import opened Coding
  import opened LogFormat
  import opened LogReader
  import LogTheorems

  const NUM_LEVELS: nat := 7

  // Internal keys stay in their encoded form here.
  datatype NewFile = NewFile(number: nat, size: nat, smallest: Bytes, largest: Bytes)

  datatype Edit = Edit(
    comparator: Option<Bytes>, logNumber: Option<nat>, prevLogNumber: Option<nat>, nextFile: Option<nat>,
    lastSequence: Option<nat>, compactPointers: seq<(nat, Bytes)>, deleted: set<(nat, nat)>, added: seq<(nat, NewFile)>)

  const EMPTY := Edit(None, None, None, None, None, [], {}, [])

  datatype Counter = LogNumber | PrevLogNumber | NextFileNumber | LastSequence

  datatype Field =
    | Comparator(name: Bytes) | Number(what: Counter, n: nat)
    | CompactPointer(level: nat, key: Bytes) | DeletedFile(level: nat, number: nat) | AddedFile(level: nat, file: NewFile)

  function TagOf(f: Field): Word {
    match f
    case Comparator(_) => 1
    case Number(what, _) => CounterTag(what)
    case CompactPointer(_, _) => 5
    case DeletedFile(_, _) => 6
    case AddedFile(_, _) => 7
  }

  function CounterTag(c: Counter): Word {
    match c
    case LogNumber => 2
    case NextFileNumber => 3
    case LastSequence => 4
    case PrevLogNumber => 9
  }

  /** Encoding */

  function EncodeBody(f: Field): Bytes {
    match f
    case Comparator(name) => LengthPrefixed(name)
    case CompactPointer(level, key) => Varint(level) + LengthPrefixed(key)
    case DeletedFile(level, number) => Varint(level) + Varint(number)
    case AddedFile(level, g) =>
      Varint(level) + (Varint(g.number) + (Varint(g.size) + (LengthPrefixed(g.smallest) + LengthPrefixed(g.largest))))
    case Number(_, n) => Varint(n)
  }

  function EncodeField(f: Field): (b: Bytes)
    ensures |b| > 0
  {
    Varint(TagOf(f)) + EncodeBody(f)
  }

  function EncodeFields(fs: seq<Field>): Bytes {
    if fs == [] then [] else EncodeField(fs[0]) + EncodeFields(fs[1..])
  }

  function OptionalField(o: Option<nat>, what: Counter): seq<Field> {
    match o case None => [] case Some(n) => [Number(what, n)]
  }

  function PointerFields(ps: seq<(nat, Bytes)>): seq<Field> {
    seq(|ps|, i requires 0 <= i < |ps| => CompactPointer(ps[i].0, ps[i].1))
  }

  function DeletedFields(order: seq<(nat, nat)>): seq<Field> {
    seq(|order|, i requires 0 <= i < |order| => DeletedFile(order[i].0, order[i].1))
  }

  function AddedFields(gs: seq<(nat, NewFile)>): seq<Field> {
    seq(|gs|, i requires 0 <= i < |gs| => AddedFile(gs[i].0, gs[i].1))
  }

  // The fields of an edit in the order they are written; order lists the set of deleted files.
  function FieldsOf(e: Edit, order: seq<(nat, nat)>): seq<Field> {
    HeadFields(e)
    + PointerFields(e.compactPointers)
    + DeletedFields(order)
    + AddedFields(e.added)
  }

  /** Decoding */

  // A value and the input after it.
  type Got<T> = Option<(T, Bytes)>

  function GetLevel(b: Bytes): (r: Got<nat>)
    ensures r.Some? ==> r.value.0 < NUM_LEVELS && |r.value.1| < |b|
  {
    match GetVarint32(b)
    case None => None
    case Some(p) => if p.0 < NUM_LEVELS then Some(p) else None
  }

  datatype FieldResult = Read(field: Field, rest: Bytes) | Malformed(message: string)

  function GetNumber(b: Bytes, what: Counter, message: string): FieldResult {
    match GetVarint64(b) case None => Malformed(message) case Some(p) => Read(Number(what, p.0), p.1)
  }

  function GetNewFile(b: Bytes): (r: Got<NewFile>) {
    match GetVarint64(b) {
      case None => None
      case Some(number) =>
        match GetVarint64(number.1) {
          case None => None
          case Some(size) =>
            match GetLengthPrefixed(size.1) {
              case None => None
              case Some(smallest) =>
                match GetLengthPrefixed(smallest.1)
                case None => None
                case Some(largest) => Some((NewFile(number.0, size.0, smallest.0, largest.0), largest.1))
            }
        }
    }
  }

  function GetBody(tag: nat, b: Bytes): FieldResult {
    if tag == 1 then
      match GetLengthPrefixed(b) case None => Malformed("comparator name") case Some(p) => Read(Comparator(p.0), p.1)
    else if tag == 2 then GetNumber(b, LogNumber, "log number")
    else if tag == 9 then GetNumber(b, PrevLogNumber, "previous log number")
    else if tag == 3 then GetNumber(b, NextFileNumber, "next file number")
    else if tag == 4 then GetNumber(b, LastSequence, "last sequence number")
    else if tag == 5 then
      match GetLevel(b) {
        case None => Malformed("compaction pointer")
        case Some(level) =>
          match GetLengthPrefixed(level.1)
          case None => Malformed("compaction pointer")
          case Some(key) => Read(CompactPointer(level.0, key.0), key.1)
      }
    else if tag == 6 then
      match GetLevel(b) {
        case None => Malformed("deleted file")
        case Some(level) =>
          match GetVarint64(level.1)
          case None => Malformed("deleted file")
          case Some(number) => Read(DeletedFile(level.0, number.0), number.1)
      }
    else if tag == 7 then
      match GetLevel(b) {
        case None => Malformed("new-file entry")
        case Some(level) =>
          match GetNewFile(level.1)
          case None => Malformed("new-file entry")
          case Some(g) => Read(AddedFile(level.0, g.0), g.1)
      }
    else Malformed("unknown tag")
  }

  lemma BodyShrinks(tag: nat, b: Bytes)
    ensures GetBody(tag, b).Read? ==> |GetBody(tag, b).rest| <= |b|
  {
  }

  // What a field does to the edit being read.
  function Put(e: Edit, f: Field): Edit {
    match f
    case Comparator(name) => e.(comparator := Some(name))
    case Number(LogNumber, n) => e.(logNumber := Some(n))
    case Number(PrevLogNumber, n) => e.(prevLogNumber := Some(n))
    case Number(NextFileNumber, n) => e.(nextFile := Some(n))
    case Number(LastSequence, n) => e.(lastSequence := Some(n))
    case CompactPointer(level, key) => e.(compactPointers := e.compactPointers + [(level, key)])
    case DeletedFile(level, number) => e.(deleted := e.deleted + {(level, number)})
    case AddedFile(level, g) => e.(added := e.added + [(level, g)])
  }

  datatype DecodeResult = Ok(edit: Edit) | Corruption(message: string)

  function Decode(e: Edit, b: Bytes): DecodeResult
    decreases |b|
  {
    match GetVarint32(b)
    case None => if b == [] then Ok(e) else Corruption("invalid tag")
    case Some(tag) =>
      BodyShrinks(tag.0, tag.1);
      match GetBody(tag.0, tag.1)
      case Malformed(message) => Corruption(message)
      case Read(f, rest) => Decode(Put(e, f), rest)
  }

  method DecodeFrom(src: Bytes) returns (r: DecodeResult)
    ensures r == Decode(EMPTY, src)
  {
    hide GetBody, GetVarint32;
    var edit := EMPTY;
    var input := src;
    while true
      invariant Decode(edit, input) == Decode(EMPTY, src)
      decreases |input|
    {
      var tag := GetVarint32(input);
      if tag.None? {
        break;
      }
      BodyShrinks(tag.value.0, tag.value.1);
      match GetBody(tag.value.0, tag.value.1) {
        case Malformed(message) =>
          return Corruption(message);
        case Read(f, rest) =>
          edit := Put(edit, f);
          input := rest;
      }
    }
    r := if input == [] then Ok(edit) else Corruption("invalid tag");
  }

  /** Round trip */

  // Numbers are 64 bits wide, strings shorter than 4 GB, levels those the store has.
  predicate Fits(f: Field) {
    match f
    case Comparator(name) => |name| < TWO32
    case CompactPointer(level, key) => level < NUM_LEVELS && |key| < TWO32
    case DeletedFile(level, number) => level < NUM_LEVELS && number < TWO64
    case AddedFile(level, g) =>
      level < NUM_LEVELS && g.number < TWO64 && g.size < TWO64 && |g.smallest| < TWO32 && |g.largest| < TWO32
    case Number(_, n) => n < TWO64
  }

  lemma BodyReadsBack(f: Field, rest: Bytes)
    requires Fits(f)
    ensures GetBody(TagOf(f), EncodeBody(f) + rest) == Read(f, rest)
  {
    hide GetVarint32, GetVarint64, GetLengthPrefixed, LengthPrefixed, Varint;
    match f {
      case Comparator(name) => LengthPrefixedRoundTrip(name, rest);
      case CompactPointer(level, key) =>
        Assoc(Varint(level), LengthPrefixed(key), rest);
        GetVarint32RoundTrip(level, LengthPrefixed(key) + rest);
        LengthPrefixedRoundTrip(key, rest);
      case DeletedFile(level, number) =>
        Assoc(Varint(level), Varint(number), rest);
        GetVarint32RoundTrip(level, Varint(number) + rest);
        GetVarint64RoundTrip(number, rest);
      case AddedFile(level, g) =>
        AddedReadsBack(level, g, rest);
      case Number(_, n) => GetVarint64RoundTrip(n, rest);
    }
  }

  lemma Assoc(a: Bytes, b: Bytes, c: Bytes)
    ensures (a + b) + c == a + (b + c)
  {
  }

  lemma AddedReadsBack(level: nat, g: NewFile, rest: Bytes)
    requires Fits(AddedFile(level, g))
    ensures GetBody(7, EncodeBody(AddedFile(level, g)) + rest) == Read(AddedFile(level, g), rest)
  {
    hide GetVarint32, GetVarint64, GetLengthPrefixed, LengthPrefixed, Varint;
    var keys := LengthPrefixed(g.smallest) + LengthPrefixed(g.largest);
    var sized := Varint(g.size) + keys;
    var body := Varint(g.number) + sized;
    Assoc(Varint(level), body, rest);
    GetVarint32RoundTrip(level, body + rest);
    Assoc(Varint(g.number), sized, rest);
    GetVarint64RoundTrip(g.number, sized + rest);
    Assoc(Varint(g.size), keys, rest);
    GetVarint64RoundTrip(g.size, keys + rest);
    Assoc(LengthPrefixed(g.smallest), LengthPrefixed(g.largest), rest);
    LengthPrefixedRoundTrip(g.smallest, LengthPrefixed(g.largest) + rest);
    LengthPrefixedRoundTrip(g.largest, rest);
  }

  function PutAll(e: Edit, fs: seq<Field>): Edit
    decreases |fs|
  {
    if fs == [] then e else PutAll(Put(e, fs[0]), fs[1..])
  }

  lemma {:induction false} FieldsReadBack(e: Edit, fs: seq<Field>)
    requires forall f :: f in fs ==> Fits(f)
    ensures Decode(e, EncodeFields(fs)) == Ok(PutAll(e, fs))
    decreases |fs|
  {
    hide GetBody, EncodeBody, GetVarint32, Varint, Put;
    if fs == [] {
      assert GetVarint32([]) == None by { NoVarint(); }
    } else {
      var f, rest := fs[0], EncodeFields(fs[1..]);
      Assoc(Varint(TagOf(f)), EncodeBody(f), rest);
      GetVarint32RoundTrip(TagOf(f), EncodeBody(f) + rest);
      BodyReadsBack(f, rest);
      BodyShrinks(TagOf(f), EncodeBody(f) + rest);
      FieldsReadBack(Put(e, f), fs[1..]);
    }
  }

  lemma NoVarint()
    ensures GetVarint32([]) == None
  {
  }

  lemma {:induction false} PutAllAppends(e: Edit, a: seq<Field>, b: seq<Field>)
    ensures PutAll(e, a + b) == PutAll(PutAll(e, a), b)
    decreases |a|
  {
    hide Put;
    if a == [] {
      assert a + b == b;
    } else {
      assert (a + b)[0] == a[0] && (a + b)[1..] == a[1..] + b;
      PutAllAppends(Put(e, a[0]), a[1..], b);
    }
  }

  ghost predicate Lists(order: seq<(nat, nat)>, s: set<(nat, nat)>) {
    forall x :: x in order <==> x in s
  }

  lemma {:induction false} PutPointers(e: Edit, ps: seq<(nat, Bytes)>)
    ensures PutAll(e, PointerFields(ps))
         == e.(compactPointers := e.compactPointers + ps)
    decreases |ps|
  {
    var fs := PointerFields(ps);
    if ps == [] {
      assert e.compactPointers + ps == e.compactPointers;
    } else {
      var more := ps[1..];
      assert fs[1..] == PointerFields(more);
      PutPointers(Put(e, fs[0]), more);
      assert e.compactPointers + [ps[0]] + more == e.compactPointers + ps;
    }
  }

  lemma {:induction false} PutDeleted(e: Edit, order: seq<(nat, nat)>)
    ensures PutAll(e, DeletedFields(order))
         == e.(deleted := e.deleted + set x | x in order)
    decreases |order|
  {
    var fs := DeletedFields(order);
    if order == [] {
      assert (set x | x in order) == {};
      assert e.deleted + {} == e.deleted;
    } else {
      var more := order[1..];
      assert fs[1..] == DeletedFields(more);
      PutDeleted(Put(e, fs[0]), more);
      assert e.deleted + {order[0]} + (set x | x in more) == e.deleted + set x | x in order;
    }
  }

  lemma {:induction false} PutAdded(e: Edit, gs: seq<(nat, NewFile)>)
    ensures PutAll(e, AddedFields(gs)) == e.(added := e.added + gs)
    decreases |gs|
  {
    var fs := AddedFields(gs);
    if gs == [] {
      assert e.added + gs == e.added;
    } else {
      var more := gs[1..];
      assert fs[1..] == AddedFields(more);
      PutAdded(Put(e, fs[0]), more);
      assert e.added + [gs[0]] + more == e.added + gs;
    }
  }

  lemma FieldsRestore(e: Edit, order: seq<(nat, nat)>)
    requires Lists(order, e.deleted)
    ensures PutAll(EMPTY, FieldsOf(e, order)) == e
  {
    var head := EMPTY.(comparator := e.comparator, logNumber := e.logNumber, prevLogNumber := e.prevLogNumber,
                       nextFile := e.nextFile, lastSequence := e.lastSequence);
    var hs, ps, ds := HeadFields(e), PointerFields(e.compactPointers), DeletedFields(order);
    HeadRestores(e);
    hide HeadFields, PutAll, PointerFields, DeletedFields, AddedFields;
    PutAllAppends(EMPTY, hs, ps);
    PutAllAppends(EMPTY, hs + ps, ds);
    PutAllAppends(EMPTY, hs + ps + ds, AddedFields(e.added));
    PutPointers(head, e.compactPointers);
    assert [] + e.compactPointers == e.compactPointers && [] + e.added == e.added;
    PutDeleted(head.(compactPointers := e.compactPointers), order);
    assert {} + (set x | x in order) == e.deleted;
    PutAdded(head.(compactPointers := e.compactPointers, deleted := e.deleted), e.added);
  }

  function HeadFields(e: Edit): seq<Field> {
    (match e.comparator case None => [] case Some(name) => [Comparator(name)])
    + OptionalField(e.logNumber, LogNumber)
    + OptionalField(e.prevLogNumber, PrevLogNumber)
    + OptionalField(e.nextFile, NextFileNumber)
    + OptionalField(e.lastSequence, LastSequence)
  }

  lemma PutNone(e: Edit)
    ensures PutAll(e, []) == e
  {
  }

  lemma PutOne(e: Edit, f: Field)
    ensures PutAll(e, [f]) == Put(e, f)
  {
  }

  lemma PutOptional(e: Edit, o: Option<nat>, what: Counter)
    ensures PutAll(e, OptionalField(o, what)) == if o.None? then e else Put(e, Number(what, o.value))
  {
  }

  lemma HeadRestores(e: Edit)
    ensures PutAll(EMPTY, HeadFields(e))
         == EMPTY.(comparator := e.comparator, logNumber := e.logNumber, prevLogNumber := e.prevLogNumber,
                   nextFile := e.nextFile, lastSequence := e.lastSequence)
  {
    hide PutAll, OptionalField;
    var fs := match e.comparator case None => [] case Some(name) => [Comparator(name)];
    PutNone(EMPTY);
    if e.comparator.Some? {
      PutOne(EMPTY, Comparator(e.comparator.value));
    }
    var x := EMPTY.(comparator := e.comparator);
    PutThen(fs, x, e.logNumber, LogNumber);
    fs, x := fs + OptionalField(e.logNumber, LogNumber), x.(logNumber := e.logNumber);
    PutThen(fs, x, e.prevLogNumber, PrevLogNumber);
    fs, x := fs + OptionalField(e.prevLogNumber, PrevLogNumber), x.(prevLogNumber := e.prevLogNumber);
    PutThen(fs, x, e.nextFile, NextFileNumber);
    fs, x := fs + OptionalField(e.nextFile, NextFileNumber), x.(nextFile := e.nextFile);
    PutThen(fs, x, e.lastSequence, LastSequence);
  }

  lemma PutThen(fs: seq<Field>, x: Edit, o: Option<nat>, what: Counter)
    requires PutAll(EMPTY, fs) == x
    ensures PutAll(EMPTY, fs + OptionalField(o, what)) == if o.None? then x else Put(x, Number(what, o.value))
  {
    PutAllAppends(EMPTY, fs, OptionalField(o, what));
    PutOptional(x, o, what);
  }

  function EncodeEdit(e: Edit, order: seq<(nat, nat)>): Bytes {
    EncodeFields(FieldsOf(e, order))
  }

  ghost predicate FitsEdit(e: Edit, order: seq<(nat, nat)>) {
    Lists(order, e.deleted) && forall f :: f in FieldsOf(e, order) ==> Fits(f)
  }

  // Reading an edit back gives the edit, whatever order its deletions were written in.
  lemma RoundTrip(e: Edit, order: seq<(nat, nat)>)
    requires FitsEdit(e, order)
    ensures Decode(EMPTY, EncodeEdit(e, order)) == Ok(e)
  {
    FieldsReadBack(EMPTY, FieldsOf(e, order));
    FieldsRestore(e, order);
  }

  // Numbers and lengths fit their encodings, in whatever order the deletions come.
  ghost predicate Encodable(e: Edit) {
    forall order :: Lists(order, e.deleted) ==> FitsEdit(e, order)
  }

  /** What comes of any bytes */

  ghost predicate Whole(e: Edit) {
    && (e.comparator.Some? ==> |e.comparator.value| < TWO32)
    && (e.logNumber.Some? ==> e.logNumber.value < TWO64) && (e.prevLogNumber.Some? ==> e.prevLogNumber.value < TWO64)
    && (e.nextFile.Some? ==> e.nextFile.value < TWO64) && (e.lastSequence.Some? ==> e.lastSequence.value < TWO64)
    && WholePointers(e.compactPointers) && WholeDeleted(e.deleted) && WholeAdded(e.added)
  }

  ghost predicate WholePointers(ps: seq<(nat, Bytes)>) {
    forall p :: p in ps ==> p.0 < 7 && |p.1| < TWO32
  }

  ghost predicate WholeDeleted(ds: set<(nat, nat)>) {
    forall d :: d in ds ==> d.0 < 7 && d.1 < TWO64
  }

  ghost predicate WholeAdded(gs: seq<(nat, NewFile)>) {
    forall g :: g in gs ==>
      g.0 < 7 && g.1.number < TWO64 && g.1.size < TWO64 && |g.1.smallest| < TWO32 && |g.1.largest| < TWO32
  }

  lemma LengthPrefixedFits(b: Bytes)
    requires GetLengthPrefixed(b).Some?
    ensures |GetLengthPrefixed(b).value.0| < TWO32
  {
    hide GetVarint32;
  }

  lemma NewFileFits(b: Bytes)
    requires GetNewFile(b).Some?
    ensures Fits(AddedFile(0, GetNewFile(b).value.0))
  {
    hide GetVarint64, GetLengthPrefixed;
    var number := GetVarint64(b).value;
    var size := GetVarint64(number.1).value;
    LengthPrefixedFits(size.1);
    LengthPrefixedFits(GetLengthPrefixed(size.1).value.1);
  }

  lemma BodyFits(tag: nat, b: Bytes)
    requires GetBody(tag, b).Read?
    ensures Fits(GetBody(tag, b).field)
  {
    hide GetVarint32, GetVarint64, GetLengthPrefixed, GetNewFile, GetLevel;
    if tag == 1 {
      LengthPrefixedFits(b);
    } else if tag == 5 {
      LengthPrefixedFits(GetLevel(b).value.1);
    } else if tag == 7 {
      NewFileFits(GetLevel(b).value.1);
    }
  }

  lemma PutKeepsWhole(e: Edit, f: Field)
    requires Whole(e) && Fits(f)
    ensures Whole(Put(e, f))
  {
    PutKeepsLists(e, f);
    hide WholePointers, WholeDeleted, WholeAdded;
  }

  lemma PutKeepsLists(e: Edit, f: Field)
    requires WholePointers(e.compactPointers) && WholeDeleted(e.deleted) && WholeAdded(e.added) && Fits(f)
    ensures WholePointers(Put(e, f).compactPointers) && WholeDeleted(Put(e, f).deleted) && WholeAdded(Put(e, f).added)
  {
    if f.CompactPointer? {
      hide WholeDeleted, WholeAdded;
    } else if f.DeletedFile? {
      hide WholePointers, WholeAdded;
    } else {
      hide WholePointers, WholeDeleted;
    }
  }

  // Tags that are not in use, and bytes that are no tag, are errors.
  lemma UnknownTag(e: Edit, b: Bytes)
    ensures b != [] && GetVarint32(b) == None ==> Decode(e, b) == Corruption("invalid tag")
    ensures GetVarint32(b).Some? && GetVarint32(b).value.0 !in {1, 2, 3, 4, 5, 6, 7, 9} ==> Decode(e, b) == Corruption("unknown tag")
  {
    hide GetVarint32, GetVarint64, GetLengthPrefixed;
  }

  lemma {:induction false} DecodeIsWhole(e: Edit, b: Bytes)
    requires Whole(e) && Decode(e, b).Ok?
    ensures Whole(Decode(e, b).edit)
    decreases |b|
  {
    hide Whole, Put, Fits, GetVarint32, GetBody;
    if GetVarint32(b).Some? {
      var tag := GetVarint32(b).value;
      BodyShrinks(tag.0, tag.1);
      BodyFits(tag.0, tag.1);
      var r := GetBody(tag.0, tag.1);
      PutKeepsWhole(e, r.field);
      DecodeIsWhole(Put(e, r.field), r.rest);
    }
  }

  lemma WholeFits(e: Edit, order: seq<(nat, nat)>)
    requires Whole(e) && Lists(order, e.deleted)
    ensures FitsEdit(e, order)
  {
    forall f | f in FieldsOf(e, order)
      ensures Fits(f)
    {
      WholeHead(e);
      WholeLists(e, order);
      hide HeadFields, PointerFields, DeletedFields, AddedFields, Fits;
      assert f in HeadFields(e) || f in PointerFields(e.compactPointers) || f in DeletedFields(order) || f in AddedFields(e.added);
    }
  }

  lemma WholeHead(e: Edit)
    requires Whole(e)
    ensures forall f :: f in HeadFields(e) ==> Fits(f)
  {
  }

  lemma WholeLists(e: Edit, order: seq<(nat, nat)>)
    requires Whole(e) && Lists(order, e.deleted)
    ensures forall f :: f in PointerFields(e.compactPointers) ==> Fits(f)
    ensures forall f :: f in DeletedFields(order) ==> Fits(f)
    ensures forall f :: f in AddedFields(e.added) ==> Fits(f)
  {
    forall i: nat | i < |order|
      ensures Fits(DeletedFile(order[i].0, order[i].1))
    {
      assert order[i] in e.deleted;
    }
  }

  // Bytes that can be read give levels below 7 and numbers in range, and the edit read can be written
  // and read again.
  lemma DecodedReadsBack(b: Bytes, order: seq<(nat, nat)>)
    requires Decode(EMPTY, b).Ok? && Lists(order, Decode(EMPTY, b).edit.deleted)
    ensures var e := Decode(EMPTY, b).edit; Whole(e) && Decode(EMPTY, EncodeEdit(e, order)) == Ok(e)
  {
    hide Decode, EncodeEdit, FitsEdit, Lists;
    DecodeIsWhole(EMPTY, b);
    WholeFits(Decode(EMPTY, b).edit, order);
    RoundTrip(Decode(EMPTY, b).edit, order);
  }

  lemma ReadsBack(e: Edit, order: seq<(nat, nat)>)
    requires Lists(order, e.deleted)
    ensures Encodable(e) ==> Decode(EMPTY, EncodeEdit(e, order)) == Ok(e)
  {
    if Encodable(e) {
      RoundTrip(e, order);
    }
  }

  method EncodeTo(e: Edit) returns (dst: Bytes, ghost order: seq<(nat, nat)>)
    ensures Lists(order, e.deleted) && dst == EncodeEdit(e, order)
    ensures Encodable(e) ==> Decode(EMPTY, dst) == Ok(e)
  {
    hide EncodeField, Put, Encodable, Decode, Lists;
    ghost var fs: seq<Field>;
    dst, fs := WriteHead(e);
    hide HeadFields;
    assert PointerFields(e.compactPointers[..0]) == [];
    for i := 0 to |e.compactPointers|
      invariant fs == HeadFields(e) + PointerFields(e.compactPointers[..i]) && dst == EncodeFields(fs)
    {
      var f := CompactPointer(e.compactPointers[i].0, e.compactPointers[i].1);
      assert PointerFields(e.compactPointers[..i + 1]) == PointerFields(e.compactPointers[..i]) + [f];
      AppendField(fs, f);
      dst, fs := dst + EncodeField(f), fs + [f];
    }
    assert e.compactPointers[..|e.compactPointers|] == e.compactPointers;
    dst, fs, order := WriteDeleted(dst, fs, e.deleted);
    ghost var before := fs;
    assert fs == before + AddedFields(e.added[..0]);
    for i := 0 to |e.added|
      invariant fs == before + AddedFields(e.added[..i]) && dst == EncodeFields(fs)
    {
      var f := AddedFile(e.added[i].0, e.added[i].1);
      assert AddedFields(e.added[..i + 1]) == AddedFields(e.added[..i]) + [f];
      AppendField(fs, f);
      dst, fs := dst + EncodeField(f), fs + [f];
    }
    assert e.added[..|e.added|] == e.added;
    ReadsBack(e, order);
  }

  // The fields that occur at most once.
  method WriteHead(e: Edit) returns (dst: Bytes, ghost fs: seq<Field>)
    ensures fs == HeadFields(e) && dst == EncodeFields(fs)
  {
    hide EncodeField, Put;
    dst := [];
    fs := [];
    NoFields();
    if e.comparator.Some? {
      AppendField(fs, Comparator(e.comparator.value));
      dst := dst + EncodeField(Comparator(e.comparator.value));
      fs := fs + [Comparator(e.comparator.value)];
    }
    dst, fs := PutOption(dst, fs, e.logNumber, LogNumber);
    dst, fs := PutOption(dst, fs, e.prevLogNumber, PrevLogNumber);
    dst, fs := PutOption(dst, fs, e.nextFile, NextFileNumber);
    dst, fs := PutOption(dst, fs, e.lastSequence, LastSequence);
  }

  method PutOption(dst: Bytes, ghost fs: seq<Field>, o: Option<nat>, what: Counter) returns (r: Bytes, ghost gs: seq<Field>)
    requires dst == EncodeFields(fs)
    ensures gs == fs + OptionalField(o, what) && r == EncodeFields(gs)
  {
    r, gs := dst, fs;
    if o.Some? {
      AppendField(fs, Number(what, o.value));
      r := r + EncodeField(Number(what, o.value));
      gs := gs + [Number(what, o.value)];
    }
  }

  // The order in which a set is written is left open.
  method WriteDeleted(dst: Bytes, ghost fs: seq<Field>, deleted: set<(nat, nat)>)
    returns (r: Bytes, ghost gs: seq<Field>, ghost order: seq<(nat, nat)>)
    requires dst == EncodeFields(fs)
    ensures Lists(order, deleted) && gs == fs + DeletedFields(order) && r == EncodeFields(gs)
  {
    hide EncodeField;
    r, gs, order := dst, fs, [];
    var rest := deleted;
    while rest != {}
      invariant rest <= deleted && Lists(order, deleted - rest)
      invariant gs == fs + DeletedFields(order) && r == EncodeFields(gs)
      decreases rest
    {
      var x :| x in rest;
      var f := DeletedFile(x.0, x.1);
      assert DeletedFields(order + [x]) == DeletedFields(order) + [f];
      AppendField(gs, f);
      r, gs := r + EncodeField(f), gs + [f];
      rest := rest - {x};
      order := order + [x];
    }
  }

  lemma NoFields()
    ensures EncodeFields([]) == []
  {
  }

  lemma {:induction false} AppendField(fs: seq<Field>, f: Field)
    ensures EncodeFields(fs + [f]) == EncodeFields(fs) + EncodeField(f)
    decreases |fs|
  {
    if fs == [] {
      assert fs + [f] == [f] && [f][1..] == [];
    } else {
      assert (fs + [f])[1..] == fs[1..] + [f];
      AppendField(fs[1..], f);
    }
  }

  /** The manifest */

  datatype Written = Written(edit: Edit, order: seq<(nat, nat)>)

  function ManifestRecords(ws: seq<Written>): (rs: seq<Bytes>)
    ensures |rs| == |ws| && forall i :: 0 <= i < |ws| ==> rs[i] == EncodeEdit(ws[i].edit, ws[i].order)
  {
    seq(|ws|, i requires 0 <= i < |ws| => EncodeEdit(ws[i].edit, ws[i].order))
  }

  // A manifest cut at any byte yields an initial part of the edits that were logged, each exactly
  // as it was, and no report of corruption; a whole manifest yields them all.
  lemma ManifestPrefix(crc: Checksum, ws: seq<Written>, length: nat)
    requires forall i :: 0 <= i < |ws| ==> FitsEdit(ws[i].edit, ws[i].order)
    requires length <= |Log(crc, 0, ManifestRecords(ws))|
    ensures
      var r := ReadAll(crc, true, Log(crc, 0, ManifestRecords(ws))[..length], START);
      && |r.records| <= |ws| && r.state.drops == []
      && (length == |Log(crc, 0, ManifestRecords(ws))| ==> |r.records| == |ws|)
      && forall i :: 0 <= i < |r.records| ==> Decode(EMPTY, r.records[i]) == Ok(ws[i].edit)
  {
    hide Log, ReadAll, Decode, EncodeEdit, FitsEdit;
    var rs := ManifestRecords(ws);
    LogTheorems.CrashPrefix(crc, true, rs, length);
    assert rs[..|rs|] == rs;
    forall i | 0 <= i < |ws|
      ensures Decode(EMPTY, rs[i]) == Ok(ws[i].edit)
    {
      RoundTrip(ws[i].edit, ws[i].order);
    }
  }
}
