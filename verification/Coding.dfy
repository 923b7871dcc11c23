/** Fixed-width and variable-width integers, length-prefixed strings, and masked checksums. */
module Coding {
  import opened Keys
  import opened Wrappers

  const TWO32: nat := 0x1_0000_0000
  const TWO64: nat := 0x1_0000_0000_0000_0000

  type Word = x: int | 0 <= x < TWO32

  /** Fixed-width integers, least significant byte first */

  function Pow2(n: nat): (r: nat)
    ensures r > 0
  {
    if n == 0 then 1 else 2 * Pow2(n - 1)
  }

  function Pow256(width: nat): (r: nat)
    ensures r > 0
  {
    if width == 0 then 1 else 256 * Pow256(width - 1)
  }

  function Fixed(v: nat, width: nat): (r: Bytes)
    ensures |r| == width
  {
    if width == 0 then [] else [v % 256] + Fixed(v / 256, width - 1)
  }

  function DecodeFixed(b: Bytes): nat {
    if b == [] then 0 else b[0] + 256 * DecodeFixed(b[1..])
  }

  lemma {:induction false} FixedBound(b: Bytes)
    ensures DecodeFixed(b) < Pow256(|b|)
    ensures |b| == 4 ==> DecodeFixed(b) < TWO32
    ensures |b| == 8 ==> DecodeFixed(b) < TWO64
  {
    assert Pow256(4) == TWO32;
    assert Pow256(8) == TWO64;
    if b != [] {
      FixedBound(b[1..]);
    }
  }

  // Only the value modulo the width survives.
  lemma {:induction false} FixedRoundTrip(v: nat, width: nat)
    ensures DecodeFixed(Fixed(v, width)) == v % Pow256(width)
  {
    if width > 0 {
      FixedRoundTrip(v / 256, width - 1);
      ModSplit(v, Pow256(width - 1));
      assert Fixed(v, width)[1..] == Fixed(v / 256, width - 1);
    }
  }

  lemma ModSplit(v: nat, m: nat)
    requires m > 0
    ensures v % 256 + 256 * ((v / 256) % m) == v % (256 * m)
  {
    var q, r := (v / 256) / m, (v / 256) % m;
    assert v / 256 == m * q + r;
    assert v == 256 * (v / 256) + v % 256;
    var low := v % 256 + 256 * r;
    assert 256 * (m * q) == (256 * m) * q;
    assert v == (256 * m) * q + low;
    assert low < 256 * m;
    RemainderIs(v, 256 * m, q, low);
  }

  lemma RemainderIs(v: nat, m: nat, q: nat, low: nat)
    requires v == m * q + low && low < m
    ensures v % m == low && v / m == q
  {
    var d := v / m - q;
    assert v == m * (v / m) + v % m;
    assert m * d == low - v % m by {
      assert m * d == m * (v / m) - m * q;
    }
    MulGrows(m, d);
  }

  lemma MulGrows(m: int, d: int)
    requires m >= 0
    ensures d >= 1 ==> m * d >= m
    ensures d <= -1 ==> m * d <= -m
  {
  }

  function Fixed32(v: nat): (r: Bytes)
    ensures |r| == 4
  {
    Fixed(v, 4)
  }

  function Fixed64(v: nat): (r: Bytes)
    ensures |r| == 8
  {
    Fixed(v, 8)
  }

  lemma Fixed32RoundTrip(v: Word)
    ensures DecodeFixed(Fixed32(v)) == v
  {
    FixedRoundTrip(v, 4);
    assert Pow256(4) == TWO32;
  }

  lemma Fixed64RoundTrip(v: nat)
    requires v < TWO64
    ensures DecodeFixed(Fixed64(v)) == v
  {
    FixedRoundTrip(v, 8);
    assert Pow256(8) == TWO64;
  }

  /** Masked checksums: rotate right by 15 and add a constant, modulo 2^32. */

  const MASK_DELTA: nat := 0xa282_ead8

  function Mask(crc: Word): Word {
    (crc / 0x8000 + (crc % 0x8000) * 0x2_0000 + MASK_DELTA) % TWO32
  }

  function Unmask(masked: Word): Word {
    var rot := (masked - MASK_DELTA) % TWO32;
    rot / 0x2_0000 + (rot % 0x2_0000) * 0x8000
  }

  lemma MaskInvertsUnmask(m: Word)
    ensures Mask(Unmask(m)) == m
  {
    var rot := (m - MASK_DELTA) % TWO32;
    var high, low := rot / 0x2_0000, rot % 0x2_0000;
    assert Unmask(m) / 0x8000 == low && Unmask(m) % 0x8000 == high;
    Wraps(m, rot);
  }

  lemma Wraps(m: Word, rot: Word)
    requires rot == (m - MASK_DELTA) % TWO32
    ensures (rot + MASK_DELTA) % TWO32 == m
  {
  }

  lemma UnmaskInvertsMask(crc: Word)
    ensures Unmask(Mask(crc)) == crc
  {
    var high, low := crc / 0x8000, crc % 0x8000;
    var rot := high + low * 0x2_0000;
    assert (Mask(crc) - MASK_DELTA) % TWO32 == rot;
    assert rot / 0x2_0000 == low && rot % 0x2_0000 == high;
  }

  /** Base-128 varints */

  function Varint(v: nat): (r: Bytes)
    ensures |r| > 0
  {
    if v < 128 then [v] else [v % 128 + 128] + Varint(v / 128)
  }

  lemma VarintSplits(v: nat)
    ensures if v < 128 then Varint(v) == [v] else Varint(v) == [v % 128 + 128] + Varint(v / 128)
  {
  }

  // The value and length of the varint at the front of b, if it ends within limit bytes.
  function ParseVarint(b: Bytes, limit: nat): (r: Option<(nat, nat)>)
    ensures r.Some? ==> 0 < r.value.1 <= |b| && r.value.1 <= limit
  {
    if b == [] || limit == 0 then None
    else if b[0] < 128 then Some((b[0], 1))
    else More(b[0], ParseVarint(b[1..], limit - 1))
  }

  function Pow128(n: nat): (r: nat)
    ensures r > 0
  {
    if n == 0 then 1 else 128 * Pow128(n - 1)
  }

  lemma {:induction false} VarintRoundTrip(v: nat, rest: Bytes, limit: nat)
    requires v < Pow128(limit)
    ensures ParseVarint(Varint(v) + rest, limit) == if limit == 0 then None else Some((v, |Varint(v)|))
  {
    if v >= 128 {
      VarintRoundTrip(v / 128, rest, limit - 1);
      assert (Varint(v) + rest)[1..] == Varint(v / 128) + rest;
    }
  }

  // The unrolled encoder of 32-bit values agrees with the simple one.
  function EncodeVarint32(v: Word): (r: Bytes)
    ensures r == Varint(v)
  {
    if v < 0x80 then [v]
    else if v < 0x4000 then [v % 128 + 128, v / 0x80]
    else if v < 0x20_0000 then
      assert v / 0x80 / 0x80 == v / 0x4000;
      assert Varint(v / 0x80) == [v / 0x80 % 128 + 128, v / 0x4000];
      [v % 128 + 128, v / 0x80 % 128 + 128, v / 0x4000]
    else if v < 0x1000_0000 then
      assert v / 0x80 / 0x80 == v / 0x4000 && v / 0x4000 / 0x80 == v / 0x20_0000;
      assert Varint(v / 0x4000) == [v / 0x4000 % 128 + 128, v / 0x20_0000];
      [v % 128 + 128, v / 0x80 % 128 + 128, v / 0x4000 % 128 + 128, v / 0x20_0000]
    else
      assert v / 0x80 / 0x80 == v / 0x4000 && v / 0x4000 / 0x80 == v / 0x20_0000 && v / 0x20_0000 / 0x80 == v / 0x1000_0000;
      assert Varint(v / 0x20_0000) == [v / 0x20_0000 % 128 + 128, v / 0x1000_0000];
      assert Varint(v / 0x4000) == [v / 0x4000 % 128 + 128] + Varint(v / 0x20_0000);
      [v % 128 + 128, v / 0x80 % 128 + 128, v / 0x4000 % 128 + 128, v / 0x20_0000 % 128 + 128, v / 0x1000_0000]
  }

  method EncodeVarint64(value: nat) returns (r: Bytes)
    ensures r == Varint(value)
  {
    var v := value;
    r := [];
    while v >= 128
      invariant r + Varint(v) == Varint(value)
    {
      assert Varint(v) == [v % 128 + 128] + Varint(v / 128);
      r := r + [v % 128 + 128];
      v := v / 128;
    }
    r := r + [v];
  }

  // What the two decoders return: the value truncated to the width, and the rest of the input.
  function GetVarint(b: Bytes, limit: nat, modulus: nat): (r: Option<(nat, Bytes)>)
    requires modulus > 0
    ensures r.Some? ==> |r.value.1| < |b| && r.value.0 < modulus
  {
    match ParseVarint(b, limit)
    case None => None
    case Some(p) => Some((p.0 % modulus, b[p.1..]))
  }

  function GetVarint32(b: Bytes): (r: Option<(nat, Bytes)>)
    ensures r.Some? ==> |r.value.1| < |b| && r.value.0 < TWO32
  {
    GetVarint(b, 5, TWO32)
  }

  function GetVarint64(b: Bytes): (r: Option<(nat, Bytes)>)
    ensures r.Some? ==> |r.value.1| < |b| && r.value.0 < TWO64
  {
    GetVarint(b, 10, TWO64)
  }

  lemma GetVarint32RoundTrip(v: Word, rest: Bytes)
    ensures GetVarint32(Varint(v) + rest) == Some((v, rest))
  {
    assert Pow128(5) == 0x8_0000_0000;
    VarintRoundTrip(v, rest, 5);
    assert (Varint(v) + rest)[|Varint(v)|..] == rest;
  }

  lemma GetVarint64RoundTrip(v: nat, rest: Bytes)
    requires v < TWO64
    ensures GetVarint64(Varint(v) + rest) == Some((v, rest))
  {
    assert Pow128(10) == 0x40_0000_0000_0000_0000;
    VarintRoundTrip(v, rest, 10);
    assert (Varint(v) + rest)[|Varint(v)|..] == rest;
  }

  // State of the decoding loop: the first i bytes all have the continuation bit.
  ghost predicate Decoding(b: Bytes, limit: nat, i: nat, scale: nat, value: nat) {
    && i <= limit && i <= |b| && scale == Pow128(i) && value < scale
    && ParseVarint(b, limit) == Continue(value, scale, i, ParseVarint(b[i..], limit - i))
  }

  // Seven bits shifted into place, truncated to the width of the result.
  function Shl(x: nat, scale: nat, modulus: nat): nat
    requires modulus > 0
  {
    (x * scale) % modulus
  }

  // The decoding loop, with the shifts and the truncation of the last byte's high bits.
  method DecodeVarint(b: Bytes, limit: nat, modulus: nat) returns (value: nat, rest: Bytes, ok: bool)
    requires (limit == 5 && modulus == TWO32) || (limit == 10 && modulus == TWO64)
    ensures (if ok then Some((value, rest)) else None) == GetVarint(b, limit, modulus)
  {
    var i: nat, scale: nat := 0, 1;
    value := 0;
    rest := b;
    assert b[0..] == b;
    assert Decoding(b, limit, i, scale, value);
    hide Decoding, GetVarint, Shl;
    while i < limit && i < |b|
      invariant i <= limit && i <= |b| && Decoding(b, limit, i, scale, value)
    {
      var x := b[i];
      if x < 128 {
        DecodingEnds(b, limit, modulus, i, scale, value);
        value := value + Shl(x, scale, modulus);
        rest := b[i + 1..];
        ok := true;
        return;
      }
      DecodingStep(b, limit, modulus, i, scale, value);
      value := value + Shl(x - 128, scale, modulus);
      scale := scale * 128;
      i := i + 1;
    }
    DecodingFails(b, limit, modulus, i, scale, value);
    ok := false;
  }

  lemma DecodingStep(b: Bytes, limit: nat, modulus: nat, i: nat, scale: nat, value: nat)
    requires (limit == 5 && modulus == TWO32) || (limit == 10 && modulus == TWO64)
    requires Decoding(b, limit, i, scale, value) && i < limit && i < |b| && b[i] >= 128
    ensures Decoding(b, limit, i + 1, scale * 128, value + Shl(b[i] - 128, scale, modulus))
  {
    hide Pow128, ParseVarint, Shl;
    PowStep(i);
    ParseStep(b[i..], limit - i);
    assert b[i..][1..] == b[i + 1..];
    ContinueStep(value, scale, i, b[i], ParseVarint(b[i + 1..], limit - i - 1));
    ShiftedDigit(limit, modulus, i, scale, b[i] - 128);
    if i + 1 == limit {
      // truncation here is harmless: no further byte is looked at
      ParseStep(b[i + 1..], limit - i - 1);
    }
  }

  // A digit in place; only the last byte's can be cut.
  lemma ShiftedDigit(limit: nat, modulus: nat, i: nat, scale: nat, x: nat)
    requires (limit == 5 && modulus == TWO32) || (limit == 10 && modulus == TWO64)
    requires i < limit && scale == Pow128(i) && x < 128
    ensures Shl(x, scale, modulus) <= 127 * scale
    ensures i + 1 < limit ==> Shl(x, scale, modulus) == x * scale
  {
    hide Pow128;
    MulAtMost(x, 127, scale);
    if i + 1 == limit {
      ModAtMost(x * scale, modulus);
    } else {
      PowFits(i, limit, modulus);
      RemainderIs(x * scale, modulus, 0, x * scale);
    }
  }

  lemma ModAtMost(a: nat, m: nat)
    requires m > 0
    ensures a % m <= a
  {
  }

  lemma DecodingEnds(b: Bytes, limit: nat, modulus: nat, i: nat, scale: nat, value: nat)
    requires (limit == 5 && modulus == TWO32) || (limit == 10 && modulus == TWO64)
    requires Decoding(b, limit, i, scale, value) && i < limit && i < |b| && b[i] < 128
    ensures GetVarint(b, limit, modulus) == Some((value + Shl(b[i], scale, modulus), b[i + 1..]))
  {
    hide Pow128, ParseVarint;
    ParseStep(b[i..], limit - i);
    LastByte(b[i], value, i, limit, modulus);
  }

  lemma DecodingFails(b: Bytes, limit: nat, modulus: nat, i: nat, scale: nat, value: nat)
    requires Decoding(b, limit, i, scale, value) && (i == limit || i == |b|) && modulus > 0
    ensures GetVarint(b, limit, modulus) == None
  {
  }

  lemma PowStep(i: nat)
    ensures Pow128(0) == 1 && Pow128(i + 1) == 128 * Pow128(i)
  {
  }

  lemma ParseStep(b: Bytes, limit: nat)
    ensures b == [] || limit == 0 ==> ParseVarint(b, limit) == None
    ensures b != [] && limit > 0 && b[0] < 128 ==> ParseVarint(b, limit) == Some((b[0], 1))
    ensures b != [] && limit > 0 && b[0] >= 128 ==> ParseVarint(b, limit) == More(b[0], ParseVarint(b[1..], limit - 1))
  {
  }

  function Continue(value: nat, scale: nat, i: nat, tail: Option<(nat, nat)>): Option<(nat, nat)> {
    match tail
    case None => None
    case Some(p) => Some((value + scale * p.0, i + p.1))
  }

  // What a byte with the continuation bit adds to the parse of the bytes after it.
  function More(x: byte, tail: Option<(nat, nat)>): Option<(nat, nat)>
    requires 128 <= x
  {
    match tail
    case None => None
    case Some(p) => Some((x - 128 + 128 * p.0, p.1 + 1))
  }

  lemma ContinueStep(value: nat, scale: nat, i: nat, x: byte, tail: Option<(nat, nat)>)
    requires 128 <= x
    ensures Continue(value, scale, i, More(x, tail))
         == Continue(value + (x - 128) * scale, scale * 128, i + 1, tail)
    ensures value < scale ==> value + (x - 128) * scale < scale * 128
  {
    if tail.Some? {
      var t := tail.value.0;
      assert scale * (x - 128 + 128 * t) == (x - 128) * scale + (scale * 128) * t;
    }
    MulAtMost(x - 128, 127, scale);
  }

  lemma LastByte(x: nat, value: nat, i: nat, limit: nat, modulus: nat)
    requires (limit == 5 && modulus == TWO32) || (limit == 10 && modulus == TWO64)
    requires x < 128 && i < limit && value < Pow128(i)
    ensures value + (x * Pow128(i)) % modulus == (value + Pow128(i) * x) % modulus
  {
    var p := Pow128(i);
    if i == limit - 1 {
      LastShift(x, value, limit, modulus);
    } else {
      PowFits(i, limit, modulus);
      hide Pow128;
      MulAtMost(x, 127, p);
      FitsModulus(value, x * p, modulus);
    }
  }

  lemma FitsModulus(a: nat, b: nat, modulus: nat)
    requires a + b < modulus
    ensures a + b % modulus == (a + b) % modulus
  {
  }

  lemma LastShift(x: nat, value: nat, limit: nat, modulus: nat)
    requires (limit == 5 && modulus == TWO32) || (limit == 10 && modulus == TWO64)
    requires x < 128 && value < Pow128(limit - 1)
    ensures value + (x * Pow128(limit - 1)) % modulus == (value + Pow128(limit - 1) * x) % modulus
  {
    assert Pow128(4) == 0x1000_0000 && Pow128(9) == 0x8000_0000_0000_0000;
    hide Pow128;
    if limit == 5 {
      LastShift32(x, value);
    } else {
      LastShift64(x, value);
    }
  }

  lemma PowFits(i: nat, limit: nat, modulus: nat)
    requires (limit == 5 && modulus == TWO32) || (limit == 10 && modulus == TWO64)
    requires i < limit - 1
    ensures 128 * Pow128(i) <= modulus
  {
    PowGrows(i + 1, limit - 1);
    assert Pow128(4) <= TWO32 && Pow128(9) <= TWO64;
  }

  lemma LastShift32(x: nat, value: nat)
    requires x < 128 && value < 0x1000_0000
    ensures value + (x * 0x1000_0000) % TWO32 == (value + 0x1000_0000 * x) % TWO32
  {
  }

  lemma LastShift64(x: nat, value: nat)
    requires x < 128 && value < 0x8000_0000_0000_0000
    ensures value + (x * 0x8000_0000_0000_0000) % TWO64 == (value + 0x8000_0000_0000_0000 * x) % TWO64
  {
  }

  lemma MulAtMost(x: nat, y: nat, p: nat)
    requires x <= y
    ensures x * p <= y * p
  {
  }

  lemma {:induction false} PowGrows(i: nat, j: nat)
    requires i <= j
    ensures Pow128(i) <= Pow128(j)
  {
    if i < j {
      PowGrows(i, j - 1);
    }
  }

  /** Length-prefixed strings; the length is stored as a 32-bit varint. */

  function LengthPrefixed(s: Bytes): (r: Bytes) {
    Varint(|s| % TWO32) + s
  }

  function GetLengthPrefixed(b: Bytes): (r: Option<(Bytes, Bytes)>)
    ensures r.Some? ==> |r.value.1| < |b|
  {
    match GetVarint32(b)
    case None => None
    case Some(p) => if p.0 <= |p.1| then Some((p.1[..p.0], p.1[p.0..])) else None
  }

  lemma LengthPrefixedRoundTrip(s: Bytes, rest: Bytes)
    requires |s| < TWO32
    ensures GetLengthPrefixed(LengthPrefixed(s) + rest) == Some((s, rest))
  {
    assert LengthPrefixed(s) + rest == Varint(|s|) + (s + rest);
    GetVarint32RoundTrip(|s|, s + rest);
  }
}
