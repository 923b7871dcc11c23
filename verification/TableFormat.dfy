/** Table files: stored blocks, block handles, the footer. Blocks are stored uncompressed. */
module TableFormat {
  import opened Keys
  import opened Wrappers
  import opened Coding
  import opened BlockFormat

  type Checksum = Bytes -> Word

  const TRAILER_SIZE: nat := 5
  const NO_COMPRESSION: byte := 0
  const HANDLE_LENGTH: nat := 20
  const FOOTER_LENGTH: nat := 48
  const MAGIC: nat := 0xdb47_7524_8b80_fb57

  /** Handles */

  datatype Handle = Handle(offset: nat, size: nat)

  function EncodeHandle(h: Handle): Bytes {
    Varint(h.offset) + Varint(h.size)
  }

  // Bytes after the handle are left for later versions.
  function DecodeHandle(b: Bytes): Option<(Handle, Bytes)> {
    match GetVarint64(b) {
      case None => None
      case Some(offset) =>
        match GetVarint64(offset.1)
        case None => None
        case Some(size) => Some((Handle(offset.0, size.0), size.1))
    }
  }

  predicate Fits(h: Handle) {
    h.offset < TWO64 && h.size < TWO64
  }

  lemma HandleRoundTrip(h: Handle, rest: Bytes)
    requires Fits(h)
    ensures DecodeHandle(EncodeHandle(h) + rest) == Some((h, rest))
  {
    hide Varint, GetVarint64;
    assert EncodeHandle(h) + rest == Varint(h.offset) + (Varint(h.size) + rest);
    GetVarint64RoundTrip(h.offset, Varint(h.size) + rest);
    GetVarint64RoundTrip(h.size, rest);
  }

  lemma {:induction false} VarintLength(v: nat, n: nat)
    requires v < Pow128(n) && n > 0
    ensures |Varint(v)| <= n
  {
    if v >= 128 {
      VarintLength(v / 128, n - 1);
    }
  }

  lemma HandleLength(h: Handle)
    requires Fits(h)
    ensures |EncodeHandle(h)| <= HANDLE_LENGTH
  {
    assert Pow128(10) == 0x40_0000_0000_0000_0000;
    VarintLength(h.offset, 10);
    VarintLength(h.size, 10);
  }

  /** Stored blocks: the contents, a type byte, a masked checksum of both */

  function Stored(crc: Checksum, contents: Bytes): (r: Bytes)
    ensures |r| == |contents| + TRAILER_SIZE
  {
    contents + [NO_COMPRESSION] + Fixed32(Mask(crc(contents + [NO_COMPRESSION])))
  }

  datatype BlockResult = Contents(data: Bytes) | Corruption(message: string)

  function ReadBlock(crc: Checksum, verify: bool, file: Bytes, h: Handle): BlockResult {
    if h.offset + h.size + TRAILER_SIZE > |file| then Corruption("truncated block read")
    else
      var n := h.offset + h.size;
      FixedBound(file[n + 1..n + 5]);
      if verify && Unmask(DecodeFixed(file[n + 1..n + 5])) != crc(file[h.offset..n + 1]) then Corruption("block checksum mismatch")
      else if file[n] == NO_COMPRESSION then Contents(file[h.offset..n])
      else Corruption("bad block type")
  }

  ghost predicate StoredAt(crc: Checksum, file: Bytes, h: Handle, contents: Bytes) {
    && h.size == |contents| && h.offset + |Stored(crc, contents)| <= |file|
    && file[h.offset..h.offset + |Stored(crc, contents)|] == Stored(crc, contents)
  }

  // A block is read if and only if it is there, uncompressed, and with its checksum if that is asked for.
  lemma ReadBlockIff(crc: Checksum, verify: bool, file: Bytes, h: Handle, data: Bytes)
    ensures ReadBlock(crc, verify, file, h) == Contents(data) <==>
      && h.offset + h.size + 5 <= |file| && data == file[h.offset..h.offset + h.size] && file[h.offset + h.size] == 0
      && (verify ==> DecodeFixed(file[h.offset + h.size + 1..h.offset + h.size + 5]) == Mask(crc(file[h.offset..h.offset + h.size + 1])))
  {
    var n := h.offset + h.size;
    if n + 5 <= |file| {
      FixedBound(file[n + 1..n + 5]);
      MaskInvertsUnmask(DecodeFixed(file[n + 1..n + 5]));
      UnmaskInvertsMask(crc(file[h.offset..n + 1]));
    }
    hide Mask, Unmask, DecodeFixed;
  }

  lemma ReadsStored(crc: Checksum, verify: bool, file: Bytes, h: Handle, contents: Bytes)
    requires StoredAt(crc, file, h, contents)
    ensures ReadBlock(crc, verify, file, h) == Contents(contents)
  {
    var n := h.offset + h.size;
    var stored := Stored(crc, contents);
    var c := crc(contents + [NO_COMPRESSION]);
    hide Fixed32, DecodeFixed, Mask, Unmask;
    assert file[h.offset..n + 5] == stored;
    assert file[h.offset..n] == stored[..h.size] == contents;
    assert file[n] == stored[h.size] == NO_COMPRESSION;
    assert file[h.offset..n + 1] == stored[..h.size + 1] == contents + [NO_COMPRESSION];
    assert file[n + 1..n + 5] == stored[h.size + 1..] == Fixed32(Mask(c));
    Fixed32RoundTrip(Mask(c));
    UnmaskInvertsMask(c);
  }

  lemma StoredStays(crc: Checksum, file: Bytes, h: Handle, contents: Bytes, more: Bytes)
    requires StoredAt(crc, file, h, contents)
    ensures StoredAt(crc, file + more, h, contents)
  {
  }

  lemma StoredAppended(crc: Checksum, file: Bytes, contents: Bytes)
    ensures StoredAt(crc, file + Stored(crc, contents), Handle(|file|, |contents|), contents)
  {
  }

  /** The footer */

  function Resize(b: Bytes, n: nat): (r: Bytes)
    ensures |r| == n
  {
    if n <= |b| then b[..n] else b + seq(n - |b|, _ => 0)
  }

  function EncodeFooter(meta: Handle, index: Handle): (r: Bytes)
    ensures |r| == FOOTER_LENGTH
  {
    Resize(EncodeHandle(meta) + EncodeHandle(index), 2 * HANDLE_LENGTH) + Fixed32(MAGIC % TWO32) + Fixed32(MAGIC / TWO32)
  }

  // The two handles; None when this is not a table.
  function DecodeFooter(b: Bytes): Option<(Handle, Handle)>
    requires |b| == FOOTER_LENGTH
  {
    if DecodeFixed(b[40..44]) + TWO32 * DecodeFixed(b[44..48]) != MAGIC then None
    else
      match DecodeHandle(b) {
        case None => None
        case Some(meta) =>
          match DecodeHandle(meta.1)
          case None => None
          case Some(index) => Some((meta.0, index.0))
      }
  }

  lemma FooterSplits(m: Bytes, i: Bytes, low: Bytes, high: Bytes)
    requires |m| + |i| <= 40 && |low| == |high| == 4
    ensures var b := Resize(m + i, 40) + low + high;
      b[40..44] == low && b[44..48] == high && b == m + (i + b[|m| + |i|..])
  {
    var b := Resize(m + i, 40) + low + high;
    assert b[..|m| + |i|] == m + i;
  }

  lemma FooterParts(meta: Handle, index: Handle) returns (rest: Bytes)
    requires Fits(meta) && Fits(index)
    ensures EncodeFooter(meta, index) == EncodeHandle(meta) + (EncodeHandle(index) + rest)
    ensures EncodeFooter(meta, index)[40..44] == Fixed32(MAGIC % TWO32) && EncodeFooter(meta, index)[44..48] == Fixed32(MAGIC / TWO32)
  {
    HandleLength(meta);
    HandleLength(index);
    hide Fixed32, EncodeHandle, Resize;
    var m, i := EncodeHandle(meta), EncodeHandle(index);
    rest := EncodeFooter(meta, index)[|m| + |i|..];
    FooterSplits(m, i, Fixed32(MAGIC % TWO32), Fixed32(MAGIC / TWO32));
  }

  lemma FooterRoundTrip(meta: Handle, index: Handle)
    requires Fits(meta) && Fits(index)
    ensures DecodeFooter(EncodeFooter(meta, index)) == Some((meta, index))
  {
    hide Fixed32, DecodeFixed, EncodeHandle, DecodeHandle, EncodeFooter;
    var rest := FooterParts(meta, index);
    Fixed32RoundTrip(MAGIC % TWO32);
    Fixed32RoundTrip(MAGIC / TWO32);
    HandleRoundTrip(meta, EncodeHandle(index) + rest);
    HandleRoundTrip(index, rest);
  }

  /** A whole table */

  datatype DataBlock = DataBlock(handle: Handle, layout: Layout)

  ghost predicate BlockAt(crc: Checksum, file: Bytes, b: DataBlock) {
    && b.handle.offset + b.handle.size <= |file|
    && var data := file[b.handle.offset..b.handle.offset + b.handle.size];
       StoredAt(crc, file, b.handle, data) && IsBlock(data, b.layout)
  }

  lemma BlockStays(crc: Checksum, file: Bytes, b: DataBlock, more: Bytes)
    requires BlockAt(crc, file, b)
    ensures BlockAt(crc, file + more, b)
  {
    hide StoredAt, IsBlock;
    var data := file[b.handle.offset..b.handle.offset + b.handle.size];
    StoredStays(crc, file, b.handle, data, more);
    assert (file + more)[b.handle.offset..b.handle.offset + b.handle.size] == data;
  }

  lemma BlockAppended(crc: Checksum, file: Bytes, data: Bytes, l: Layout)
    requires IsBlock(data, l)
    ensures BlockAt(crc, file + Stored(crc, data), DataBlock(Handle(|file|, |data|), l))
  {
    hide IsBlock, Stored;
    StoredAppended(crc, file, data);
    var w := file + Stored(crc, data);
    assert w[|file|..|file| + |data|] == data by { StoredPrefix(crc, data); assert w[|file|..] == Stored(crc, data); }
  }

  lemma StoredPrefix(crc: Checksum, data: Bytes)
    ensures Stored(crc, data)[..|data|] == data
  {
  }

  // The entries of the blocks, in order.
  function Concat(blocks: seq<DataBlock>): seq<KeyValue> {
    if blocks == [] then [] else Concat(blocks[..|blocks| - 1]) + blocks[|blocks| - 1].layout.entries
  }

  // How many entries come before block i.
  function Base(blocks: seq<DataBlock>, i: nat): nat
    requires i <= |blocks|
  {
    |Concat(blocks[..i])|
  }

  lemma {:induction false} InConcat(blocks: seq<DataBlock>, i: nat, j: nat)
    requires i < |blocks| && j < |blocks[i].layout.entries|
    ensures Base(blocks, i) + j < |Concat(blocks)| && Concat(blocks)[Base(blocks, i) + j] == blocks[i].layout.entries[j]
    ensures Base(blocks, i + 1) == Base(blocks, i) + |blocks[i].layout.entries|
  {
    var n := |blocks| - 1;
    assert blocks[..i + 1][..i] == blocks[..i];
    if i < n {
      InConcat(blocks[..n], i, j);
      assert blocks[..n][..i] == blocks[..i];
    } else {
      assert blocks[..i] == blocks[..n];
    }
  }
}
