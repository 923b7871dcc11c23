/** The Bloom filter policy. The hash function is a parameter, and so is the number of probes that
    the source computes from the bits per key in floating point. */
module Bloom {
  import opened Keys
  import opened Coding

  type Hash = Bytes -> Word

  /** Bits of a byte */

  predicate BitSet(b: nat, i: nat) {
    if i == 0 then b % 2 == 1 else BitSet(b / 2, i - 1)
  }

  // b | (1 << i) for an n-bit b.
  function OrBit(b: nat, i: nat, n: nat): (r: nat)
    requires i < n && b < Pow2(n)
    ensures r < Pow2(n)
  {
    assert Pow2(n) == 2 * Pow2(n - 1);
    var low := b % 2;
    if i == 0 then b - low + 1
    else
      var high := OrBit(b / 2, i - 1, n - 1);
      low + 2 * high
  }

  lemma {:induction false} OrBitSets(b: nat, i: nat, n: nat, j: nat)
    requires i < n && b < Pow2(n)
    ensures BitSet(OrBit(b, i, n), j) <==> BitSet(b, j) || j == i
  {
    var r := OrBit(b, i, n);
    if i == 0 {
      assert r / 2 == b / 2 && r % 2 == 1;
    } else {
      assert r / 2 == OrBit(b / 2, i - 1, n - 1) && r % 2 == b % 2;
      if j > 0 {
        OrBitSets(b / 2, i - 1, n - 1, j - 1);
      }
    }
  }

  function SetBit(b: byte, i: nat): (r: byte)
    requires i < 8
  {
    EightBits();
    OrBit(b, i, 8)
  }

  lemma EightBits()
    ensures Pow2(8) == 256
  {
  }

  lemma SetBitSets(b: byte, i: nat, j: nat)
    requires i < 8
    ensures BitSet(SetBit(b, i), j) <==> BitSet(b, j) || j == i
  {
    EightBits();
    OrBitSets(b, i, 8, j);
  }

  /** Positions in an array of bytes */

  predicate IsSet(bits: Bytes, pos: nat)
    requires pos < 8 * |bits|
  {
    BitSet(bits[pos / 8], pos % 8)
  }

  function SetAt(bits: Bytes, pos: nat): (r: Bytes)
    requires pos < 8 * |bits|
    ensures |r| == |bits|
  {
    bits[pos / 8 := SetBit(bits[pos / 8], pos % 8)]
  }

  // No bit of a is lost in b.
  ghost predicate Keeps(a: Bytes, b: Bytes) {
    |a| == |b| && forall pos :: 0 <= pos < 8 * |a| && IsSet(a, pos) ==> IsSet(b, pos)
  }

  lemma SetAtKeeps(bits: Bytes, pos: nat)
    requires pos < 8 * |bits|
    ensures Keeps(bits, SetAt(bits, pos)) && IsSet(SetAt(bits, pos), pos)
  {
    hide BitSet, SetBit;
    SetBitSets(bits[pos / 8], pos % 8, pos % 8);
    forall q | 0 <= q < 8 * |bits| && IsSet(bits, q)
      ensures IsSet(SetAt(bits, pos), q)
    {
      SetBitSets(bits[q / 8], pos % 8, q % 8);
    }
  }

  /** Probes by double hashing */

  function Delta(h: Word): Word {
    h / 0x2_0000 + (h % 0x2_0000) * 0x8000
  }

  function Add32(h: Word, d: Word): Word {
    (h + d) % TWO32
  }

  function SetProbes(bits: Bytes, h: Word, delta: Word, k: nat): (r: Bytes)
    requires bits != []
    ensures |r| == |bits|
    decreases k
  {
    if k == 0 then bits else SetProbes(SetAt(bits, h % (8 * |bits|)), Add32(h, delta), delta, k - 1)
  }

  predicate AllProbes(bits: Bytes, h: Word, delta: Word, k: nat)
    requires bits != []
    decreases k
  {
    k == 0 || (IsSet(bits, h % (8 * |bits|)) && AllProbes(bits, Add32(h, delta), delta, k - 1))
  }

  lemma {:induction false} SetProbesKeep(bits: Bytes, h: Word, delta: Word, k: nat)
    requires bits != []
    ensures Keeps(bits, SetProbes(bits, h, delta, k))
    decreases k
  {
    if k > 0 {
      var next := SetAt(bits, h % (8 * |bits|));
      SetAtKeeps(bits, h % (8 * |bits|));
      SetProbesKeep(next, Add32(h, delta), delta, k - 1);
    }
  }

  lemma {:induction false} SetProbesMatch(bits: Bytes, h: Word, delta: Word, k: nat)
    requires bits != []
    ensures AllProbes(SetProbes(bits, h, delta, k), h, delta, k)
    decreases k
  {
    if k > 0 {
      var next := SetAt(bits, h % (8 * |bits|));
      SetAtKeeps(bits, h % (8 * |bits|));
      SetProbesMatch(next, Add32(h, delta), delta, k - 1);
      SetProbesKeep(next, Add32(h, delta), delta, k - 1);
    }
  }

  lemma {:induction false} MoreBitsMatch(a: Bytes, b: Bytes, h: Word, delta: Word, k: nat)
    requires a != [] && Keeps(a, b) && AllProbes(a, h, delta, k)
    ensures AllProbes(b, h, delta, k)
    decreases k
  {
    if k > 0 {
      MoreBitsMatch(a, b, Add32(h, delta), delta, k - 1);
    }
  }

  function AddKeys(hash: Hash, bits: Bytes, keys: seq<Bytes>, k: nat): (r: Bytes)
    requires bits != []
    ensures |r| == |bits|
    decreases |keys|
  {
    if keys == [] then bits
    else AddKeys(hash, SetProbes(bits, hash(keys[0]), Delta(hash(keys[0])), k), keys[1..], k)
  }

  lemma {:induction false} AddKeysMatch(hash: Hash, bits: Bytes, keys: seq<Bytes>, k: nat, i: nat)
    requires bits != []
    ensures Keeps(bits, AddKeys(hash, bits, keys, k))
    ensures i < |keys| ==> AllProbes(AddKeys(hash, bits, keys, k), hash(keys[i]), Delta(hash(keys[i])), k)
    decreases |keys|
  {
    if keys != [] {
      var h := hash(keys[0]);
      var next := SetProbes(bits, h, Delta(h), k);
      SetProbesKeep(bits, h, Delta(h), k);
      SetProbesMatch(bits, h, Delta(h), k);
      AddKeysMatch(hash, next, keys[1..], k, if i > 0 then i - 1 else 0);
      if i == 0 {
        MoreBitsMatch(next, AddKeys(hash, bits, keys, k), h, Delta(h), k);
      }
    }
  }

  /** The policy */

  function Clamp(k: nat): (r: nat)
    ensures 1 <= r <= 30
  {
    if k < 1 then 1 else if k > 30 then 30 else k
  }

  // At least 64 bits, rounded up to whole bytes.
  function FilterBytes(n: nat, bitsPerKey: nat): (r: nat)
    ensures r >= 8
  {
    ((if n * bitsPerKey < 64 then 64 else n * bitsPerKey) + 7) / 8
  }

  function Zeros(n: nat): (r: Bytes)
    ensures |r| == n
  {
    seq(n, _ => 0)
  }

  function Filter(hash: Hash, bitsPerKey: nat, k: nat, keys: seq<Bytes>): (r: Bytes)
    ensures |r| >= 9 && r[|r| - 1] == Clamp(k)
  {
    AddKeys(hash, Zeros(FilterBytes(|keys|, bitsPerKey)), keys, Clamp(k)) + [Clamp(k)]
  }

  predicate MayMatch(hash: Hash, key: Bytes, filter: Bytes) {
    && |filter| >= 2
    && var n := |filter| - 1;
       filter[n] > 30 || AllProbes(filter[..n], hash(key), Delta(hash(key)), filter[n])
  }

  // No false negatives.
  lemma KeysMatch(hash: Hash, bitsPerKey: nat, k: nat, keys: seq<Bytes>, key: Bytes)
    requires key in keys
    ensures MayMatch(hash, key, Filter(hash, bitsPerKey, k, keys))
  {
    var i :| 0 <= i < |keys| && keys[i] == key;
    var bits := Zeros(FilterBytes(|keys|, bitsPerKey));
    AddKeysMatch(hash, bits, keys, Clamp(k), i);
    var filter := Filter(hash, bitsPerKey, k, keys);
    assert filter[..|filter| - 1] == AddKeys(hash, bits, keys, Clamp(k));
  }

  /** Which bits, probe by probe */

  // Probe j of a hash: the step is the hash rotated right by 17 bits.
  function Probe(h: Word, j: nat, bits: nat): nat
    requires bits > 0
  {
    (h + j * (h / 0x2_0000 + (h % 0x2_0000) * 0x8000)) % TWO32 % bits
  }

  function Stepped(h: Word, delta: Word, j: nat): Word {
    (h + j * delta) % TWO32
  }

  lemma SteppedOnce(h: Word, delta: Word, j: nat)
    ensures Stepped(h, delta, 0) == h
    ensures Stepped(Add32(h, delta), delta, j) == Stepped(h, delta, j + 1)
  {
    var x := j * delta;
    assert (j + 1) * delta == x + delta;
    assert ((h + delta) % TWO32 + x) % TWO32 == (h + delta + x) % TWO32;
  }

  lemma SetAtSets(bits: Bytes, pos: nat, q: nat)
    requires pos < 8 * |bits| && q < 8 * |bits|
    ensures IsSet(SetAt(bits, pos), q) <==> IsSet(bits, q) || q == pos
  {
    hide BitSet, SetBit;
    SetBitSets(bits[q / 8], pos % 8, q % 8);
  }

  lemma {:induction false} SetProbesIff(bits: Bytes, h: Word, delta: Word, k: nat, q: nat)
    requires bits != [] && q < 8 * |bits|
    ensures IsSet(SetProbes(bits, h, delta, k), q) <==>
      IsSet(bits, q) || exists j: nat :: j < k && Stepped(h, delta, j) % (8 * |bits|) == q
    decreases k
  {
    hide IsSet, SetAt, Stepped, Add32;
    SteppedOnce(h, delta, 0);
    if k > 0 {
      var next := SetAt(bits, h % (8 * |bits|));
      SetAtSets(bits, h % (8 * |bits|), q);
      SetProbesIff(next, Add32(h, delta), delta, k - 1, q);
      forall j: nat
        ensures Stepped(Add32(h, delta), delta, j) == Stepped(h, delta, j + 1)
      {
        SteppedOnce(h, delta, j);
      }
      if j: nat :| j < k && Stepped(h, delta, j) % (8 * |bits|) == q {
        if j > 0 {
          assert Stepped(Add32(h, delta), delta, j - 1) % (8 * |next|) == q;
        }
      }
    }
  }

  lemma {:induction false} AllProbesIff(bits: Bytes, h: Word, delta: Word, k: nat)
    requires bits != []
    ensures AllProbes(bits, h, delta, k) <==> forall j: nat :: j < k ==> IsSet(bits, Stepped(h, delta, j) % (8 * |bits|))
    decreases k
  {
    hide IsSet, Stepped, Add32;
    SteppedOnce(h, delta, 0);
    if k > 0 {
      AllProbesIff(bits, Add32(h, delta), delta, k - 1);
      forall j: nat
        ensures Stepped(Add32(h, delta), delta, j) == Stepped(h, delta, j + 1)
      {
        SteppedOnce(h, delta, j);
      }
      if AllProbes(bits, h, delta, k) {
        forall j: nat | j < k
          ensures IsSet(bits, Stepped(h, delta, j) % (8 * |bits|))
        {
          if j > 0 {
            assert IsSet(bits, Stepped(Add32(h, delta), delta, j - 1) % (8 * |bits|));
          }
        }
      }
    }
  }

  ghost predicate Probed(hash: Hash, key: Bytes, k: nat, bits: nat, q: nat)
    requires bits > 0
  {
    exists j: nat :: j < k && Probe(hash(key), j, bits) == q
  }

  lemma ProbedIff(hash: Hash, key: Bytes, k: nat, bits: nat, q: nat)
    requires bits > 0
    ensures Probed(hash, key, k, bits, q) <==> exists j: nat :: j < k && Stepped(hash(key), Delta(hash(key)), j) % bits == q
  {
    var h := hash(key);
    forall j: nat
      ensures Probe(h, j, bits) == Stepped(h, Delta(h), j) % bits
    {
    }
    hide Probe, Stepped, Delta;
  }

  lemma {:induction false} AddKeysIff(hash: Hash, bits: Bytes, keys: seq<Bytes>, k: nat, q: nat)
    requires bits != [] && q < 8 * |bits|
    ensures IsSet(AddKeys(hash, bits, keys, k), q) <==>
      IsSet(bits, q) || exists key :: key in keys && Probed(hash, key, k, 8 * |bits|, q)
    decreases |keys|
  {
    hide IsSet, SetProbes, Probed, Stepped, Delta;
    if keys != [] {
      var h := hash(keys[0]);
      SetProbesIff(bits, h, Delta(h), k, q);
      ProbedIff(hash, keys[0], k, 8 * |bits|, q);
      AddKeysIff(hash, SetProbes(bits, h, Delta(h), k), keys[1..], k, q);
      assert keys == [keys[0]] + keys[1..];
    }
  }

  // A filter has the bits of its keys and no others, then the number of probes.
  lemma FilterBits(hash: Hash, bitsPerKey: nat, k: nat, keys: seq<Bytes>, q: nat)
    ensures var r, n, probes := Filter(hash, bitsPerKey, k, keys), |keys| * bitsPerKey, if k < 1 then 1 else if k > 30 then 30 else k;
      && |r| == (if n <= 64 then 8 else (n + 7) / 8) + 1 && r[|r| - 1] == probes
      && (q < 8 * (|r| - 1) ==>
            (IsSet(r[..|r| - 1], q) <==> exists key :: key in keys && Probed(hash, key, probes, 8 * (|r| - 1), q)))
  {
    var bits := Zeros(FilterBytes(|keys|, bitsPerKey));
    var r := Filter(hash, bitsPerKey, k, keys);
    assert r[..|r| - 1] == AddKeys(hash, bits, keys, Clamp(k));
    if q < 8 * |bits| {
      AddKeysIff(hash, bits, keys, Clamp(k), q);
      NoBitSet(q % 8);
    }
    hide AddKeys, Probed, BitSet;
  }

  lemma {:induction false} NoBitSet(i: nat)
    ensures !BitSet(0, i)
  {
    if i > 0 {
      NoBitSet(i - 1);
    }
  }

  // A key may match if and only if all its probes find their bits set. Filters with more than 30 probes
  // are set aside for other encodings and match every key.
  lemma MatchBits(hash: Hash, key: Bytes, filter: Bytes)
    ensures MayMatch(hash, key, filter) <==>
      && |filter| >= 2
      && var n := |filter| - 1;
         filter[n] > 30 || forall j: nat :: j < filter[n] ==> IsSet(filter[..n], Probe(hash(key), j, 8 * n))
  {
    if |filter| >= 2 {
      var n, h := |filter| - 1, hash(key);
      AllProbesIff(filter[..n], h, Delta(h), filter[n]);
      assert forall j: nat :: Stepped(h, Delta(h), j) % (8 * n) == Probe(h, j, 8 * n);
      hide IsSet, AllProbes, Stepped, Probe;
    }
  }

  // Appends the filter of the keys, setting bits in place.
  method CreateFilter(hash: Hash, bitsPerKey: nat, k: nat, keys: seq<Bytes>, dst: Bytes) returns (r: Bytes)
    ensures r == dst + Filter(hash, bitsPerKey, k, keys)
  {
    hide AddKeys, SetProbes, Delta, Clamp;
    var bytes := FilterBytes(|keys|, bitsPerKey);
    var bits := new byte[bytes](_ => 0);
    assert bits[..] == Zeros(bytes);
    ghost var all := AddKeys(hash, Zeros(bytes), keys, Clamp(k));
    for i := 0 to |keys|
      invariant AddKeys(hash, bits[..], keys[i..], Clamp(k)) == all
    {
      AddKeysStep(hash, bits[..], keys[i..], Clamp(k));
      SetKey(bits, hash(keys[i]), Clamp(k));
      assert keys[i..][1..] == keys[i + 1..];
    }
    AddKeysNone(hash, bits[..], Clamp(k));
    assert keys[|keys|..] == [];
    r := dst + bits[..] + [Clamp(k)];
  }

  // The probes of one key.
  method SetKey(bits: array<byte>, hash: Word, k: nat)
    requires bits.Length > 0
    modifies bits
    ensures bits[..] == SetProbes(old(bits[..]), hash, Delta(hash), k)
  {
    hide SetProbes, Delta, SetBit;
    var h: Word := hash;
    var delta := Delta(h);
    for j := 0 to k
      invariant SetProbes(bits[..], h, delta, k - j) == SetProbes(old(bits[..]), hash, delta, k)
    {
      ghost var before := bits[..];
      SetProbesStep(before, h, delta, k - j);
      var bitpos := h % (8 * bits.Length);
      bits[bitpos / 8] := SetBit(bits[bitpos / 8], bitpos % 8);
      assert bits[..] == SetAt(before, bitpos);
      h := Add32(h, delta);
    }
    SetProbesNone(bits[..], h, delta);
  }

  lemma AddKeysNone(hash: Hash, bits: Bytes, k: nat)
    requires bits != []
    ensures AddKeys(hash, bits, [], k) == bits
  {
  }

  lemma AddKeysStep(hash: Hash, bits: Bytes, keys: seq<Bytes>, k: nat)
    requires bits != [] && keys != []
    ensures AddKeys(hash, bits, keys, k) == AddKeys(hash, SetProbes(bits, hash(keys[0]), Delta(hash(keys[0])), k), keys[1..], k)
  {
  }

  lemma SetProbesNone(bits: Bytes, h: Word, delta: Word)
    requires bits != []
    ensures SetProbes(bits, h, delta, 0) == bits
  {
  }

  lemma SetProbesStep(bits: Bytes, h: Word, delta: Word, k: nat)
    requires bits != [] && k > 0
    ensures SetProbes(bits, h, delta, k) == SetProbes(SetAt(bits, h % (8 * |bits|)), Add32(h, delta), delta, k - 1)
  {
  }

  method KeyMayMatch(hash: Hash, key: Bytes, filter: Bytes) returns (r: bool)
    ensures r == MayMatch(hash, key, filter)
  {
    var len := |filter|;
    if len < 2 {
      return false;
    }
    var bits := (len - 1) * 8;
    var k := filter[len - 1];
    if k > 30 {
      return true;
    }
    var h: Word := hash(key);
    var delta := Delta(h);
    var j := 0;
    while j < k
      invariant 0 <= j <= k
      invariant AllProbes(filter[..len - 1], h, delta, k - j) == AllProbes(filter[..len - 1], hash(key), delta, k)
    {
      var bitpos := h % bits;
      if !BitSet(filter[bitpos / 8], bitpos % 8) {
        return false;
      }
      h := Add32(h, delta);
      j := j + 1;
    }
    return true;
  }
}
