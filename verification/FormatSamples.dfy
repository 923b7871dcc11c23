/** Bytes of small values, written out. Round trips hold for any encoder and decoder that fit each other;
    these examples say that the formats are the ones other programs read and write. */
module FormatSamples {
  import opened Keys
  import opened Wrappers
  import opened Coding
  import LogFormat
  import EditCodec
  import WriteBatches
  import BlockFormat
  import BlockBuilders
  import Bloom
  import FilterBlock
  import TableFormat
  import TableBuilders
  import KeyOrder
  import PbFormat

  lemma FixedStep(v: nat, width: nat)
    requires width > 0
    ensures Fixed(v, width) == [v % 256] + Fixed(v / 256, width - 1)
  {
  }

  // Least significant byte first.
  lemma FixedBytes(v: nat)
    ensures Fixed32(v) == [v % 0x100, v / 0x100 % 0x100, v / 0x1_0000 % 0x100, v / 0x100_0000 % 0x100]
    ensures Fixed64(v) == Fixed32(v) + Fixed32(v / 0x1_0000_0000)
  {
    hide Fixed;
    var a, b, c, d := v / 0x100, v / 0x1_0000, v / 0x100_0000, v / 0x1_0000_0000;
    assert a / 0x100 == b && b / 0x100 == c && c / 0x100 == d;
    FixedStep(v, 8);
    FixedStep(a, 7);
    FixedStep(b, 6);
    FixedStep(c, 5);
    FixedStep(v, 4);
    FixedStep(a, 3);
    FixedStep(b, 2);
    FixedStep(c, 1);
    NoBytes(d);
  }

  lemma NoBytes(v: nat)
    ensures Fixed(v, 0) == []
  {
  }

  lemma SmallFixed(v: nat)
    requires v < 0x1_0000
    ensures Fixed32(v) == [v % 256, v / 256, 0, 0] && Fixed64(v) == [v % 256, v / 256, 0, 0, 0, 0, 0, 0]
  {
    FixedBytes(v);
    FixedBytes(0);
    hide Fixed32, Fixed64;
  }

  // Seven bits a byte, lowest first, all but the last with the top bit set.
  lemma VarintBytes(v: nat)
    ensures v < 128 ==> Varint(v) == [v]
    ensures 128 <= v < 16384 ==> Varint(v) == [v % 128 + 128, v / 128]
  {
    VarintSplits(v);
    VarintSplits(v / 128);
    hide Varint;
  }

  // Varints of 32 bits end within five bytes, those of 64 bits within ten.
  lemma VarintLengths(b: Bytes)
    ensures GetVarint32(b).Some? <==> exists i :: 0 <= i < 5 && i < |b| && b[i] < 128
    ensures GetVarint64(b).Some? <==> exists i :: 0 <= i < 10 && i < |b| && b[i] < 128
  {
    EndsWithin(b, 5);
    EndsWithin(b, 10);
    hide ParseVarint;
  }

  lemma {:induction false} EndsWithin(b: Bytes, limit: nat)
    ensures ParseVarint(b, limit).Some? <==> exists i :: 0 <= i < limit && i < |b| && b[i] < 128
    decreases limit
  {
    if b != [] && limit > 0 && b[0] >= 128 {
      EndsWithin(b[1..], limit - 1);
      assert forall i :: 0 < i < |b| ==> b[i] == b[1..][i - 1];
      if i :| 0 <= i < limit - 1 && i < |b[1..]| && b[1..][i] < 128 {
        assert b[i + 1] < 128;
      }
    }
  }

  // Rotated right by 15 bits, plus a constant.
  lemma MaskedChecksums()
    ensures Mask(0) == 0xa282_ead8 && Mask(0x0001_8003) == 0xa288_eadb && Mask(0xffff_ffff) == 0xa282_ead7
  {
  }

  // Checksum, length, type, payload; a record that fits starts and ends in one fragment.
  lemma LogBytes()
    ensures LogFormat.Log(_ => 0, 0, [[0x61, 0x62]]) == [0xd8, 0xea, 0x82, 0xa2, 2, 0, 1, 0x61, 0x62]
  {
    hide *;
    FixedBytes(0xa282_ead8);
    MaskedChecksums();
    OneFragment(_ => 0, [0x61, 0x62]);
  }

  lemma OneFragment(crc: LogFormat.Checksum, data: Bytes)
    requires |data| < 256
    ensures LogFormat.Log(crc, 0, [data]) == Fixed32(Mask(crc([1] + data))) + [|data|, 0, 1] + data
  {
    hide Mask, Fixed32;
    assert data[..|data|] == data;
    assert LogFormat.Encode(crc, 0, data, true) == LogFormat.Physical(crc, 1, data);
    assert [data][1..] == [];
  }

  // Blocks of 32 KB, headers of seven bytes; less than a header at the end of a block is filled up.
  lemma LogBlocks(n: nat)
    ensures LogFormat.Padding(n) == if n % 32768 > 32761 then 32768 - n % 32768 else 0
    ensures LogFormat.Room(n) == if n % 32768 > 32761 then 32761 else 32761 - n % 32768
  {
  }

  // The tag of each field of a version edit, and what follows it.
  lemma EditBytes(e: EditCodec.Field)
    ensures EditCodec.EncodeField(e) ==
      match e
      case Comparator(name) => [1] + LengthPrefixed(name)
      case Number(LogNumber, n) => [2] + Varint(n)
      case Number(NextFileNumber, n) => [3] + Varint(n)
      case Number(LastSequence, n) => [4] + Varint(n)
      case CompactPointer(level, key) => [5] + Varint(level) + LengthPrefixed(key)
      case DeletedFile(level, number) => [6] + Varint(level) + Varint(number)
      case AddedFile(level, g) =>
        [7] + Varint(level) + Varint(g.number) + Varint(g.size) + LengthPrefixed(g.smallest) + LengthPrefixed(g.largest)
      case Number(PrevLogNumber, n) => [9] + Varint(n)
  {
    VarintBytes(EditCodec.TagOf(e));
    hide Varint, LengthPrefixed;
  }

  // An edit lists its name and numbers, then compaction pointers, deleted files and new ones.
  lemma EditOrder(name: Bytes, log: nat, prevLog: nat, next: nat, last: nat, key: Bytes, g: EditCodec.NewFile)
    ensures EditCodec.FieldsOf(EditCodec.Edit(Some(name), Some(log), Some(prevLog), Some(next), Some(last),
                                              [(1, key)], {(2, 8)}, [(3, g)]), [(2, 8)]) ==
      [EditCodec.Comparator(name), EditCodec.Number(EditCodec.LogNumber, log), EditCodec.Number(EditCodec.PrevLogNumber, prevLog),
       EditCodec.Number(EditCodec.NextFileNumber, next), EditCodec.Number(EditCodec.LastSequence, last),
       EditCodec.CompactPointer(1, key), EditCodec.DeletedFile(2, 8), EditCodec.AddedFile(3, g)]
  {
  }

  lemma RecordBytes(k: byte, v: byte)
    ensures WriteBatches.EncodeRecord(WriteBatches.Put([k], [v])) == [1, 1, k, 1, v]
    ensures WriteBatches.EncodeRecord(WriteBatches.Delete([k])) == [0, 1, k]
  {
    VarintBytes(1);
    hide Varint;
  }

  // Sequence number, count, records.
  lemma BatchBytes(k: byte, v: byte, d: byte)
    ensures WriteBatches.Encode(100, [WriteBatches.Put([k], [v]), WriteBatches.Delete([d])]) ==
      [100, 0, 0, 0, 0, 0, 0, 0, 2, 0, 0, 0, 1, 1, k, 1, v, 0, 1, d]
  {
    hide Fixed32, Fixed64, Varint, LengthPrefixed, WriteBatches.EncodeRecord;
    SmallFixed(100);
    SmallFixed(2);
    RecordBytes(k, v);
    RecordBytes(d, v);
    var put, del := WriteBatches.Put([k], [v]), WriteBatches.Delete([d]);
    assert [put, del][1..] == [del] && [del][1..] == [];
    assert WriteBatches.EncodeRecords([del]) == [0, 1, d];
  }

  // User key, type, sequence number. Keys made up as bounds sort before all others of their user key.
  lemma InternalKeyBytes(ukey: Bytes, kind: ValueType)
    ensures KeyOrder.EncodeInternal(ukey, Tag(IKey(0, 5, kind))) == ukey + [if kind == Deletion then 0 else 1, 5, 0, 0, 0, 0, 0, 0]
    ensures KeyOrder.EncodeInternal(ukey, KeyOrder.FIRST_TAG) == ukey + [1, 0xff, 0xff, 0xff, 0xff, 0xff, 0xff, 0xff]
    ensures KeyOrder.FIRST_TAG == Tag(IKey(0, MAX_SEQUENCE, SEEK_TYPE))
  {
    hide Fixed64, Fixed32;
    SmallFixed(Tag(IKey(0, 5, kind)));
    FixedBytes(KeyOrder.FIRST_TAG);
    FixedBytes(0xffff_ffff);
  }

  // What is shared with the key before, the rest of the key, the value.
  lemma BlockEntryBytes()
    ensures BlockFormat.EncodeEntry(1, BlockFormat.KeyValue([0x61, 0x62], [0x76])) == [1, 1, 1, 0x62, 0x76]
  {
    VarintBytes(1);
    hide Varint;
  }

  // Contents, compression type, checksum.
  lemma StoredBytes()
    ensures TableFormat.Stored(_ => 0, [0x61]) == [0x61, 0, 0xd8, 0xea, 0x82, 0xa2]
  {
    hide Fixed32, Mask;
    MaskedChecksums();
    FixedBytes(0xa282_ead8);
  }

  // Two handles, filled up to forty bytes, and the magic number.
  lemma FooterBytes(meta: TableFormat.Handle, index: TableFormat.Handle)
    requires meta.offset < 128 && meta.size < 128 && index.offset < 128 && index.size < 128
    ensures var b := TableFormat.EncodeFooter(meta, index);
      b[..4] == [meta.offset, meta.size, index.offset, index.size] && (forall i :: 4 <= i < 40 ==> b[i] == 0)
      && b[40..44] == [0x57, 0xfb, 0x80, 0x8b] && b[44..48] == [0x24, 0x75, 0x47, 0xdb]
  {
    hide Fixed32, TableFormat.EncodeHandle, TableFormat.Resize;
    HandleBytes(meta);
    HandleBytes(index);
    MagicBytes();
    var m, i := TableFormat.EncodeHandle(meta), TableFormat.EncodeHandle(index);
    Filled(m + i);
    TableFormat.FooterSplits(m, i, Fixed32(TableFormat.MAGIC % TWO32), Fixed32(TableFormat.MAGIC / TWO32));
    FooterIs(meta, index);
  }

  lemma FooterIs(meta: TableFormat.Handle, index: TableFormat.Handle)
    ensures TableFormat.EncodeFooter(meta, index) ==
      TableFormat.Resize(TableFormat.EncodeHandle(meta) + TableFormat.EncodeHandle(index), 40)
      + Fixed32(TableFormat.MAGIC % TWO32) + Fixed32(TableFormat.MAGIC / TWO32)
  {
  }

  lemma HandleBytes(h: TableFormat.Handle)
    requires h.offset < 128 && h.size < 128
    ensures TableFormat.EncodeHandle(h) == [h.offset, h.size]
  {
    VarintBytes(h.offset);
    VarintBytes(h.size);
    hide Varint;
  }

  lemma MagicBytes()
    ensures Fixed32(TableFormat.MAGIC % TWO32) == [0x57, 0xfb, 0x80, 0x8b]
    ensures Fixed32(TableFormat.MAGIC / TWO32) == [0x24, 0x75, 0x47, 0xdb]
  {
    FixedBytes(TableFormat.MAGIC % TWO32);
    FixedBytes(TableFormat.MAGIC / TWO32);
    hide Fixed32;
  }

  lemma Filled(b: Bytes)
    requires |b| == 4
    ensures TableFormat.Resize(b, 40)[..4] == b && forall i :: 4 <= i < 40 ==> TableFormat.Resize(b, 40)[i] == 0
  {
  }

  // The metaindex has the filter under "filter." and the name of its policy.
  lemma FilterKey(at: TableBuilders.FilterAt, name: Bytes)
    ensures TableBuilders.MetaEntries(Some(at), name)
         == [BlockFormat.KeyValue([0x66, 0x69, 0x6c, 0x74, 0x65, 0x72, 0x2e] + name, TableFormat.EncodeHandle(at.handle))]
  {
  }

  // The second probe is one rotated hash further on.
  lemma FilterProbes()
    ensures Bloom.Delta(0x2_0001) == 0x8001 && Bloom.Probe(0x2_0001, 1, 1000) == 842
  {
  }

  // No filters yet: only the offset of the offsets and the size of the ranges.
  lemma FilterBytes(p: FilterBlock.Policy)
    ensures FilterBlock.Finished(p, []) == [0, 0, 0, 0, 11]
    ensures FilterBlock.Finished(p, [[]]) == [0, 0, 0, 0, 0, 0, 0, 0, 11]
  {
    FixedBytes(0);
    hide Fixed32;
    var none: seq<seq<Bytes>>, one: seq<Bytes> := [[]], [[]];
    assert FilterBlock.FilterList(p, none) == one && one[..0] == [];
  }

  // Field number and wire type, then the value: integers as varints, signed ones alternating, fixed ones in
  // four or eight bytes, everything else behind its length.
  lemma MessageBytes(tag: nat, t: PbFormat.Type, v: PbFormat.Value)
    requires 0 < tag < 16
    ensures var f := PbFormat.Field(tag, PbFormat.Required, t);
      match (t, v)
      case (Uint(_), Num(n)) => 0 <= n < 128 ==> PbFormat.EncodeTagged(f, v) == Some([8 * tag, n])
      case (Int(_), Num(n)) => 0 <= n < 128 ==> PbFormat.EncodeTagged(f, v) == Some([8 * tag, n])
      case (Sint(_), Num(n)) => -64 <= n < 64 ==> PbFormat.EncodeTagged(f, v) == Some([8 * tag, if n < 0 then -2 * n - 1 else 2 * n])
      case (Bool, Num(n)) => PbFormat.EncodeTagged(f, v) == Some([8 * tag, if n == 0 then 0 else 1])
      case (Fix64, Num(n)) => PbFormat.EncodeTagged(f, v) == Some([8 * tag + 1] + Fixed64(n % TWO64))
      case (Fix32, Num(n)) => PbFormat.EncodeTagged(f, v) == Some([8 * tag + 5] + Fixed32(n % TWO32))
      case (Text(_), Str(b)) => PbFormat.EncodeTagged(f, v) == Some([8 * tag + 2] + (Varint(|b|) + b))
      case _ => true
  {
    hide Varint, Fixed32, Fixed64, PbFormat.EncodeMsg;
    var head := tag * 8 + PbFormat.WireType(t);
    VarintBytes(head);
    if v.Num? && (t.Uint? || t.Int? || t.Sint? || t.Bool?) {
      var n := if t.Sint? then PbFormat.ZigZag(v.n) else if t.Bool? then if v.n == 0 then 0 else 1 else v.n;
      if 0 <= n < 128 {
        VarintBytes(n);
        assert n % TWO64 == n && [head] + [n] == [head, n];
      }
    }
  }
}
