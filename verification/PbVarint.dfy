/** Which encodings the 32-bit varint decoder accepts. It looks for overflow in the last byte and past the
    fifth one, but the upper bits of a fifth byte that is not the last are dropped without an error. */
module PbVarints {
  import opened Keys
  import opened Wrappers
  import opened Coding
  import opened PbFormat

  // The bytes past the fifth add nothing, or extend the sign. i bytes come before b.
  predicate Extends(b: Bytes, i: nat, n: nat, r: nat) {
    n <= |b| && forall j: nat :: 5 <= i + j && j < n ==>
      b[j] % 128 == 0 || (r >= 0x8000_0000 && b[j] == if i + j < 9 then 0xff else 1)
  }

  // The value of i bytes followed by those of w.
  function Above(result: nat, w: nat, i: nat): nat
    requires 1 <= i <= 4
  {
    result + match i case 1 => w * 0x80 case 2 => w * 0x4000 case 3 => w * 0x20_0000 case _ => w * 0x1000_0000
  }

  function Unit(i: nat): (u: nat)
    requires 1 <= i <= 4
    ensures u <= 0x1000_0000
  {
    match i case 1 => 0x80 case 2 => 0x4000 case 3 => 0x20_0000 case _ => 0x1000_0000
  }

  lemma AboveStep(result: nat, low: nat, w: nat, i: nat)
    requires 1 <= i <= 4 && low < 128 && result < Unit(i)
    ensures i < 4 ==> OrShifted(result, low, 7 * i) == Above(result, low, i) < Unit(i + 1)
                      && Above(result, low + 128 * w, i) == Above(Above(result, low, i), w, i + 1)
    ensures i == 4 ==> OrShifted(result, low, 28) == Above(result, low, 4) % TWO32 == Above(result, low + 128 * w, 4) % TWO32
  {
    Powers();
    hide Pow2, BitOr, OrShifted;
    if i == 4 {
      LowNibble(result, low);
      assert Above(result, low + 128 * w, 4) == Above(result, low, 4) + w * 8 * TWO32;
      WholeMultiples(Above(result, low, 4), w * 8);
    } else {
      OrIsSum(result, low, 7 * i);
    }
  }

  lemma WholeMultiples(a: nat, k: nat)
    ensures (a + k * TWO32) % TWO32 == a % TWO32
  {
    assert (a + k * TWO32) / TWO32 == a / TWO32 + k;
  }

  // Only four bits of the fifth byte have room.
  lemma LowNibble(result: nat, low: nat)
    requires result < 0x1000_0000 && low < 128
    ensures OrShifted(result, low, 28) == (result + low * 0x1000_0000) % TWO32
  {
    Powers();
    hide Pow2, BitOr;
    assert low * 0x1000_0000 % TWO32 == low % 16 * 0x1000_0000;
    Low32Is(result + low % 16 * 0x1000_0000);
  }

  lemma {:induction false} LongTail(b: Bytes, result: nat, i: nat, k: nat)
    requires 5 <= i <= 9 && result < TWO32 && ParseVarint(b, 10 - i).Some? && k == ParseVarint(b, 10 - i).value.1
    ensures Varint32Rest(b, result, 7 * i) == if Extends(b, i, k, result) then Some((result, b[k..])) else None
    decreases k
  {
    hide OrShifted;
    if b[0] >= 128 {
      LongTail(b[1..], result, i + 1, k - 1);
      assert b[1..][k - 1..] == b[k..];
      assert forall j: nat :: j < k - 1 ==> b[1..][j] == b[j + 1];
      assert Extends(b, i, k, result) ==> Extends(b[1..], i + 1, k - 1, result);
      assert Extends(b[1..], i + 1, k - 1, result) && (b[0] % 128 == 0 || (result >= 0x8000_0000 && b[0] == if i < 9 then 0xff else 1))
        ==> Extends(b, i, k, result) by {
        assert forall j: nat :: 0 < j < k ==> b[j] == b[1..][j - 1];
      }
    }
  }

  lemma RestStep(b: Bytes, result: nat, i: nat)
    requires 1 <= i <= 4 && result < TWO32 && b != []
    ensures Varint32Rest(b, result, 7 * i) ==
      var next := OrShifted(result, b[0] % 128, 7 * i);
      if b[0] >= 128 then Varint32Rest(b[1..], next, 7 * (i + 1))
      else if i == 4 && b[0] / 16 % 8 != 0 then None
      else Some((next, b[1..]))
  {
    hide OrShifted;
  }

  lemma ParseOne(b: Bytes, limit: nat)
    requires ParseVarint(b, limit).Some?
    ensures var (w, k) := ParseVarint(b, limit).value;
      && b != [] && limit > 0 && k <= |b|
      && if b[0] < 128 then w == b[0] && k == 1
         else ParseVarint(b[1..], limit - 1).Some?
              && var (u, j) := ParseVarint(b[1..], limit - 1).value; w == b[0] % 128 + 128 * u && k == j + 1 && j > 0
  {
  }

  // The decoder after i bytes, with k more to come.
  lemma {:induction false} TailIs(b: Bytes, result: nat, i: nat, w: nat, k: nat)
    requires 1 <= i <= 4 && result < Unit(i) && ParseVarint(b, 10 - i) == Some((w, k))
    ensures var v := Above(result, w, i);
      Varint32Rest(b, result, 7 * i) ==
        if i + k < 5 || (i + k == 5 && v < TWO32) || (i + k > 5 && Extends(b, i, k, v % TWO32)) then Some((v % TWO32, b[k..])) else None
    decreases k
  {
    hide OrShifted, Extends, Varint32Rest, ParseVarint, Above, Unit;
    RestStep(b, result, i);
    ParseOne(b, 10 - i);
    var low := b[0] % 128;
    if b[0] < 128 {
      AboveStep(result, low, 0, i);
      FewBytes(b, i, k, result);
    } else {
      var tail := ParseVarint(b[1..], 9 - i).value;
      AboveStep(result, low, tail.0, i);
      assert b[1..][k - 1..] == b[k..];
      ExtendsStep(b, i, k, Above(result, w, i) % TWO32);
      if i < 4 {
        TailIs(b[1..], Above(result, low, i), i + 1, tail.0, k - 1);
      } else {
        LongTail(b[1..], Above(result, w, i) % TWO32, 5, k - 1);
      }
    }
  }

  lemma FewBytes(b: Bytes, i: nat, k: nat, result: nat)
    requires 1 <= i <= 4 && k == 1 && b != [] && b[0] < 128 && result < Unit(i)
    ensures i == 4 ==> (b[0] / 16 % 8 == 0 <==> Above(result, b[0], 4) < TWO32)
    ensures i < 4 ==> Above(result, b[0], i) < TWO32
  {
  }

  lemma ExtendsStep(b: Bytes, i: nat, k: nat, r: nat)
    requires 1 <= i <= 4 && 1 < k <= |b|
    ensures Extends(b, i, k, r) <==> Extends(b[1..], i + 1, k - 1, r)
  {
    if Extends(b[1..], i + 1, k - 1, r) {
      assert forall j: nat :: 0 < j < k ==> b[j] == b[1..][j - 1];
    }
  }

  // An encoding of up to ten bytes is accepted if it has at most four, or five and its value fits, or more
  // and the bytes past the fifth add nothing or extend the sign. The result is the value modulo 2^32.
  lemma Varint32Is(b: Bytes, v: nat, n: nat)
    requires ParseVarint(b, 10) == Some((v, n))
    ensures GetPbVarint32(b) ==
      if n < 5 || (n == 5 && v < TWO32) || (n > 5 && Extends(b, 0, n, v % TWO32)) then Some((v % TWO32, b[n..])) else None
  {
    hide Varint32Rest, Extends;
    if b[0] >= 128 {
      var tail := ParseVarint(b[1..], 9).value;
      TailIs(b[1..], b[0] % 128, 1, tail.0, tail.1);
      assert b[1..][n - 1..] == b[n..];
      assert v == b[0] % 128 + 128 * tail.0;
      FirstByteFree(b, n, v % TWO32);
    }
  }

  lemma FirstByteFree(b: Bytes, n: nat, r: nat)
    requires 1 < n <= |b|
    ensures Extends(b, 0, n, r) <==> Extends(b[1..], 1, n - 1, r)
  {
    if Extends(b[1..], 1, n - 1, r) {
      assert forall j: nat :: 0 < j < n ==> b[j] == b[1..][j - 1];
    }
  }

  // So a value of 2^32 and more can be taken for a smaller one.
  lemma OverflowUnnoticed(b: Bytes)
    requires b == [0x80, 0x80, 0x80, 0x80, 0xf0, 0]
    ensures ParseVarint(b, 10) == Some((0x7_0000_0000, 6)) && GetPbVarint32(b) == Some((0, []))
  {
    assert ParseVarint(b[5..], 5) == Some((0, 1));
    hide ParseVarint;
    ParseFive(b, 0, 1);
    Varint32Is(b, 0x7_0000_0000, 6);
  }

  lemma ParseFive(b: Bytes, w: nat, k: nat)
    requires |b| > 5 && (forall i :: 0 <= i < 5 ==> b[i] >= 128) && ParseVarint(b[5..], 5) == Some((w, k))
    ensures ParseVarint(b, 10) == Some((b[0] % 128 + 0x80 * (b[1] % 128) + 0x4000 * (b[2] % 128) + 0x20_0000 * (b[3] % 128)
                                        + 0x1000_0000 * (b[4] % 128) + 0x8_0000_0000 * w, k + 5))
  {
    hide ParseVarint;
    assert b[4..][1..] == b[5..] && b[3..][1..] == b[4..] && b[2..][1..] == b[3..] && b[1..][1..] == b[2..];
    var x4 := b[4] % 128 + 128 * w;
    var x3 := b[3] % 128 + 128 * x4;
    var x2 := b[2] % 128 + 128 * x3;
    var x1 := b[1] % 128 + 128 * x2;
    ParseMore(b[4..], 6, w, k);
    ParseMore(b[3..], 7, x4, k + 1);
    ParseMore(b[2..], 8, x3, k + 2);
    ParseMore(b[1..], 9, x2, k + 3);
    ParseMore(b, 10, x1, k + 4);
  }

  lemma ParseMore(b: Bytes, limit: nat, w: nat, k: nat)
    requires b != [] && b[0] >= 128 && limit > 0 && ParseVarint(b[1..], limit - 1) == Some((w, k))
    ensures ParseVarint(b, limit) == Some((b[0] % 128 + 128 * w, k + 1))
  {
  }

  lemma Exact(low: nat, fifth: nat, w: nat, v: nat)
    requires low < 0x1000_0000 && fifth < 128 && v == low + 0x1000_0000 * fifth + 0x8_0000_0000 * w
    ensures v == v % TWO32 || v == v % TWO32 + 0xffff_ffff_0000_0000 <==> (fifth < 16 && w == 0) || (fifth >= 112 && w == 0x1fff_ffff)
  {
    var rest, high := low + 0x1000_0000 * (fifth % 16), fifth / 16 + 8 * w;
    assert v == rest + high * TWO32 && rest < TWO32;
    WholeMultiples(rest, high);
  }

  // An accepted encoding of more than five bytes stands for the value decoded, or for that value with its
  // sign extended to 64 bits, if and only if the upper bits of the fifth byte and the bytes after it are
  // all clear, or all set.
  lemma ExactIff(b: Bytes, v: nat, n: nat, w: nat)
    requires ParseVarint(b, 10) == Some((v, n)) && GetPbVarint32(b).Some?
    requires |b| > 5 && (forall i :: 0 <= i < 5 ==> b[i] >= 128) && ParseVarint(b[5..], 5) == Some((w, n - 5))
    ensures var r := GetPbVarint32(b).value.0;
      v == r || v == r + 0xffff_ffff_0000_0000 <==> (b[4] % 128 < 16 && w == 0) || (b[4] % 128 >= 112 && w == 0x1fff_ffff)
  {
    hide ParseVarint, GetPbVarint32, Extends;
    ParseFive(b, w, n - 5);
    Varint32Is(b, v, n);
    var d0: nat, d1: nat, d2: nat, d3: nat := b[0] % 128, b[1] % 128, b[2] % 128, b[3] % 128;
    Exact(d0 + 0x80 * d1 + 0x4000 * d2 + 0x20_0000 * d3, b[4] % 128, w, v);
  }
}
