/** Byte strings in unsigned lexicographic order, shortened separators, and encoded internal keys. */
module KeyOrder {
  import opened Keys
  import opened Coding
  import opened BlockFormat

  /** The bytewise order */

  predicate Before(a: Bytes, b: Bytes) {
    b != [] && (a == [] || a[0] < b[0] || (a[0] == b[0] && Before(a[1..], b[1..])))
  }

  lemma {:induction false} Irreflexive(a: Bytes)
    ensures !Before(a, a)
  {
    if a != [] {
      Irreflexive(a[1..]);
    }
  }

  lemma {:induction false} Transitive(a: Bytes, b: Bytes, c: Bytes)
    ensures Before(a, b) && Before(b, c) ==> Before(a, c)
  {
    if a != [] && b != [] && c != [] {
      Transitive(a[1..], b[1..], c[1..]);
    }
  }

  lemma {:induction false} Total(a: Bytes, b: Bytes)
    ensures Before(a, b) || Before(b, a) || a == b
  {
    if a != [] && b != [] {
      Total(a[1..], b[1..]);
      assert a[0] == b[0] && a[1..] == b[1..] ==> a == b by {
        assert a == [a[0]] + a[1..] && b == [b[0]] + b[1..];
      }
    }
  }

  function BytewiseOrder(): Order {
    (a, b) => Before(a, b)
  }

  // The order is that of the first byte that differs, and a prefix comes first.
  lemma {:induction false} BytewiseIs(a: Bytes, b: Bytes)
    ensures Before(a, b) <==> exists n: nat :: FirstDifferent(a, b, n) && n < |b| && (n == |a| || a[n] < b[n])
  {
    if b != [] && a != [] && a[0] == b[0] {
      BytewiseIs(a[1..], b[1..]);
      if n: nat :| FirstDifferent(a[1..], b[1..], n) && n < |b[1..]| && (n == |a[1..]| || a[1..][n] < b[1..][n]) {
        assert a[..n + 1] == [a[0]] + a[1..][..n] && b[..n + 1] == [b[0]] + b[1..][..n];
        assert FirstDifferent(a, b, n + 1);
      }
      if n: nat :| FirstDifferent(a, b, n) && n < |b| && (n == |a| || a[n] < b[n]) {
        assert n > 0;
        assert a[1..][..n - 1] == a[..n][1..] && b[1..][..n - 1] == b[..n][1..];
        assert FirstDifferent(a[1..], b[1..], n - 1);
      }
    } else if b != [] {
      assert FirstDifferent(a, b, 0);
      forall n: nat | FirstDifferent(a, b, n)
        ensures n == 0
      {
        if n > 0 {
          SameBelow(a, b, n, 0);
        }
      }
    }
  }

  predicate FirstDifferent(a: Bytes, b: Bytes, n: nat) {
    n <= |a| && n <= |b| && a[..n] == b[..n] && (n < |a| && n < |b| ==> a[n] != b[n])
  }

  lemma BytewiseIsStrict()
    ensures StrictOrder(BytewiseOrder())
  {
    var less := BytewiseOrder();
    forall a: Bytes ensures !less(a, a) { Irreflexive(a); }
    forall a, b, c: Bytes ensures less(a, b) && less(b, c) ==> less(a, c) { Transitive(a, b, c); }
    forall a, b: Bytes ensures less(a, b) || less(b, a) || a == b { Total(a, b); }
  }

  // The order is decided at the first difference.
  lemma {:induction false} DecidedAt(a: Bytes, b: Bytes, n: nat)
    requires n <= |a| && n <= |b| && a[..n] == b[..n]
    ensures n == |a| && n < |b| ==> Before(a, b)
    ensures n == |b| ==> !Before(a, b)
    ensures n < |a| && n < |b| && a[n] < b[n] ==> Before(a, b)
    ensures n < |a| && n < |b| && a[n] > b[n] ==> !Before(a, b)
  {
    if n > 0 {
      assert a[..n][0] == b[..n][0];
      assert a[1..][..n - 1] == a[..n][1..] && b[1..][..n - 1] == b[..n][1..];
      DecidedAt(a[1..], b[1..], n - 1);
    }
  }

  /** Positions in the order of a finite set of keys */

  ghost function Rank(keys: set<Bytes>, k: Bytes): nat {
    |set x | x in keys && Before(x, k)|
  }

  // Numbering the keys of any finite configuration keeps their order and tells them apart.
  lemma RankPreservesOrder(keys: set<Bytes>, a: Bytes, b: Bytes)
    requires a in keys && b in keys
    ensures Before(a, b) <==> Rank(keys, a) < Rank(keys, b)
    ensures a == b <==> Rank(keys, a) == Rank(keys, b)
  {
    if Before(a, b) {
      RankGrows(keys, a, b);
    } else if Before(b, a) {
      RankGrows(keys, b, a);
    } else {
      Total(a, b);
    }
  }

  lemma RankGrows(keys: set<Bytes>, a: Bytes, b: Bytes)
    requires a in keys && Before(a, b)
    ensures Rank(keys, a) < Rank(keys, b)
    ensures a != b && !Before(b, a)
  {
    var x, y := (set x | x in keys && Before(x, a)), (set x | x in keys && Before(x, b));
    forall k | k in x
      ensures k in y
    {
      Transitive(k, a, b);
    }
    Irreflexive(a);
    assert a in y && a !in x;
    SmallerSet(x, y, a);
    Transitive(b, a, b);
    Transitive(a, b, a);
  }

  lemma SmallerSet(x: set<Bytes>, y: set<Bytes>, e: Bytes)
    requires x <= y && e in y && e !in x
    ensures |x| < |y|
  {
    var rest := y - {e};
    assert x <= rest;
    SubsetSize(x, rest);
  }

  lemma {:induction false} SubsetSize(x: set<Bytes>, y: set<Bytes>)
    requires x <= y
    ensures |x| <= |y|
  {
    if x != {} {
      var e :| e in x;
      SubsetSize(x - {e}, y - {e});
    }
  }

  /** Separators of the bytewise order */

  // n is the first position where the two differ, with a byte to spare between them.
  predicate Parts(start: Bytes, limit: Bytes, n: nat) {
    n < |start| && n < |limit| && start[..n] == limit[..n] && start[n] < 0xff && start[n] + 1 < limit[n]
  }

  function Bumped(s: Bytes, n: nat): Bytes
    requires n < |s| && s[n] < 0xff
  {
    s[..n] + [s[n] + 1]
  }

  // Shortened exactly when there is room for a byte between the first two that differ.
  method FindShortestSeparator(start: Bytes, limit: Bytes) returns (r: Bytes)
    ensures r == start || (|r| <= |start| && Before(start, r) && Before(r, limit))
    ensures forall n: nat :: Parts(start, limit, n) ==> r == Bumped(start, n)
    ensures r != start ==> exists n: nat :: Parts(start, limit, n)
  {
    var n := 0;
    while n < |start| && n < |limit| && start[n] == limit[n]
      invariant n <= |start| && n <= |limit| && start[..n] == limit[..n]
    {
      n := n + 1;
    }
    r := start;
    FirstDifference(start, limit, n);
    if n < |start| && n < |limit| {
      if start[n] < 0xff && start[n] + 1 < limit[n] {
        assert Parts(start, limit, n);
        r := start[..n] + [start[n] + 1];
        assert r[..n] == start[..n];
        DecidedAt(start, r, n);
        DecidedAt(r, limit, n);
      }
    }
  }

  lemma SameBelow(a: Bytes, b: Bytes, n: nat, m: nat)
    requires m < n <= |a| && n <= |b| && a[..n] == b[..n]
    ensures a[m] == b[m]
  {
    assert a[m] == a[..n][m] && b[m] == b[..n][m];
  }

  lemma FirstDifference(start: Bytes, limit: Bytes, n: nat)
    requires n <= |start| && n <= |limit| && start[..n] == limit[..n]
    requires n < |start| && n < |limit| ==> start[n] != limit[n]
    ensures forall m: nat :: Parts(start, limit, m) ==> m == n
  {
    forall m: nat | Parts(start, limit, m)
      ensures m == n
    {
      if m < n {
        SameBelow(start, limit, n, m);
      } else if n < m {
        SameBelow(start, limit, m, n);
      }
    }
  }

  method FindShortSuccessor(key: Bytes) returns (r: Bytes)
    ensures r == key || (|r| <= |key| && Before(key, r))
    // the first byte that can grow does, and the rest is cut off
    ensures r == key <==> forall i :: 0 <= i < |key| ==> key[i] == 0xff
    ensures r != key ==> r != [] && |r| <= |key| && key[|r| - 1] != 0xff && r == Bumped(key, |r| - 1)
                         && forall i :: 0 <= i < |r| - 1 ==> key[i] == 0xff
  {
    for i := 0 to |key|
      invariant forall j :: 0 <= j < i ==> key[j] == 0xff
    {
      if key[i] != 0xff {
        r := key[..i] + [key[i] + 1];
        assert r[..i] == key[..i] && r[i] != key[i];
        DecidedAt(key, r, i);
        return;
      }
    }
    r := key;
  }

  /** Encoded internal keys: the user key and an 8-byte tag */

  const TAG_SIZE: nat := 8

  function EncodeInternal(ukey: Bytes, tag: nat): (k: Bytes)
    ensures |k| == |ukey| + TAG_SIZE
  {
    ukey + Fixed64(tag)
  }

  function UserPart(k: Bytes): Bytes
    requires |k| >= TAG_SIZE
  {
    k[..|k| - TAG_SIZE]
  }

  function TagPart(k: Bytes): nat
    requires |k| >= TAG_SIZE
  {
    DecodeFixed(k[|k| - TAG_SIZE..])
  }

  // User keys ascending, then tags descending. Strings too short to hold a tag never occur; here
  // they come first, so that this is an order on all strings.
  predicate InternalBefore(a: Bytes, b: Bytes) {
    if |a| < TAG_SIZE || |b| < TAG_SIZE then |a| < TAG_SIZE && (|b| >= TAG_SIZE || Before(a, b))
    else Before(UserPart(a), UserPart(b)) || (UserPart(a) == UserPart(b) && TagPart(a) > TagPart(b))
  }

  lemma {:induction false} DecodeIsInjective(a: Bytes, b: Bytes)
    requires |a| == |b| && DecodeFixed(a) == DecodeFixed(b)
    ensures a == b
  {
    if a != [] {
      assert DecodeFixed(a) % 256 == a[0] && DecodeFixed(b) % 256 == b[0];
      DecodeIsInjective(a[1..], b[1..]);
      assert a == [a[0]] + a[1..] && b == [b[0]] + b[1..];
    }
  }

  lemma InternalTotal(a: Bytes, b: Bytes)
    ensures InternalBefore(a, b) || InternalBefore(b, a) || a == b
  {
    if |a| >= TAG_SIZE && |b| >= TAG_SIZE {
      Total(UserPart(a), UserPart(b));
      if UserPart(a) == UserPart(b) && TagPart(a) == TagPart(b) {
        DecodeIsInjective(a[|a| - TAG_SIZE..], b[|b| - TAG_SIZE..]);
        assert a == UserPart(a) + a[|a| - TAG_SIZE..] && b == UserPart(b) + b[|b| - TAG_SIZE..];
      }
    } else {
      Total(a, b);
    }
  }

  lemma InternalTransitive(a: Bytes, b: Bytes, c: Bytes)
    ensures InternalBefore(a, b) && InternalBefore(b, c) ==> InternalBefore(a, c)
  {
    hide Before, DecodeFixed;
    Transitive(a, b, c);
    if |a| >= TAG_SIZE && |b| >= TAG_SIZE && |c| >= TAG_SIZE {
      Transitive(UserPart(a), UserPart(b), UserPart(c));
    }
  }

  function InternalOrder(): Order {
    (a, b) => InternalBefore(a, b)
  }

  lemma InternalIsStrict()
    ensures StrictOrder(InternalOrder())
  {
    var less := InternalOrder();
    forall a: Bytes ensures !less(a, a) { Irreflexive(a); if |a| >= TAG_SIZE { Irreflexive(UserPart(a)); } }
    forall a, b, c: Bytes ensures less(a, b) && less(b, c) ==> less(a, c) { InternalTransitive(a, b, c); }
    forall a, b: Bytes ensures less(a, b) || less(b, a) || a == b { InternalTotal(a, b); }
  }

  // The largest sequence number and the seek type, the first tag of a user key.
  const FIRST_TAG: nat := MAX_SEQUENCE * 256 + 1

  lemma EncodedParts(ukey: Bytes, tag: nat)
    requires tag < TWO64
    ensures UserPart(EncodeInternal(ukey, tag)) == ukey && TagPart(EncodeInternal(ukey, tag)) == tag
  {
    hide DecodeFixed, Fixed64;
    var k := EncodeInternal(ukey, tag);
    assert k[|k| - TAG_SIZE..] == Fixed64(tag);
    Fixed64RoundTrip(tag);
  }

  // The separator whose user key ends with a byte between the first two that differ, if there is one
  // and it is shorter.
  ghost predicate IsShortest(start: Bytes, limit: Bytes, r: Bytes)
    requires |start| >= TAG_SIZE && |limit| >= TAG_SIZE
  {
    forall n: nat :: n + 1 < |UserPart(start)| && Parts(UserPart(start), UserPart(limit), n) ==>
      r == EncodeInternal(Bumped(UserPart(start), n), FIRST_TAG)
  }

  // A separator of the keys start < limit: at or after start, before limit.
  // Encoded internal keys are ordered like the keys they stand for, with ranks for user keys: by user key,
  // and for the same one the newer first.
  lemma InternalLikeKeys(keys: set<Bytes>, ua: Bytes, a: IKey, ub: Bytes, b: IKey)
    requires ua in keys && ub in keys && a.ukey == Rank(keys, ua) && b.ukey == Rank(keys, ub)
    requires a.seqno <= MAX_SEQUENCE && b.seqno <= MAX_SEQUENCE
    ensures InternalBefore(EncodeInternal(ua, Tag(a)), EncodeInternal(ub, Tag(b))) <==> Less(a, b)
  {
    EncodedParts(ua, Tag(a));
    EncodedParts(ub, Tag(b));
    RankPreservesOrder(keys, ua, ub);
    RankPreservesOrder(keys, ub, ua);
    Total(ua, ub);
    hide EncodeInternal, UserPart, TagPart, Rank, Before;
  }

  method InternalShortestSeparator(start: Bytes, limit: Bytes) returns (r: Bytes)
    requires |start| >= TAG_SIZE && |limit| >= TAG_SIZE && InternalBefore(start, limit)
    ensures |r| >= TAG_SIZE && !InternalBefore(r, start) && InternalBefore(r, limit)
    ensures r == start || Before(UserPart(r), UserPart(limit))
    ensures IsShortest(start, limit, r)
  {
    hide Before, DecodeFixed, EncodeInternal;
    var userStart := UserPart(start);
    var tmp := FindShortestSeparator(userStart, UserPart(limit));
    Irreflexive(userStart);
    r := start;
    if |tmp| < |userStart| && Before(userStart, tmp) {
      r := EncodeInternal(tmp, FIRST_TAG);
      EncodedParts(tmp, FIRST_TAG);
      Transitive(tmp, userStart, tmp);
      Irreflexive(tmp);
    }
  }

  // The byte at n of the user key is the first that can grow.
  predicate FirstRoom(key: Bytes, n: nat) {
    n + TAG_SIZE < |key| && key[n] != 0xff && forall i :: 0 <= i < n ==> key[i] == 0xff
  }

  // Cut after that byte, which has grown by one, if that makes the user key shorter.
  ghost predicate IsShortSuccessor(key: Bytes, r: Bytes)
    requires |key| >= TAG_SIZE
  {
    && (forall n: nat :: n + 1 < |key| - TAG_SIZE && FirstRoom(key, n) ==> r == EncodeInternal(Bumped(UserPart(key), n), FIRST_TAG))
    && ((forall n: nat :: n + 1 < |key| - TAG_SIZE ==> !FirstRoom(key, n)) ==> r == key)
  }

  method InternalShortSuccessor(key: Bytes) returns (r: Bytes)
    requires |key| >= TAG_SIZE
    ensures |r| >= TAG_SIZE && !InternalBefore(r, key)
    ensures IsShortSuccessor(key, r)
  {
    hide Before, DecodeFixed, EncodeInternal;
    var userKey := UserPart(key);
    var tmp := FindShortSuccessor(userKey);
    Irreflexive(userKey);
    r := key;
    assert tmp != userKey ==> FirstRoom(key, |tmp| - 1);
    if |tmp| < |userKey| && Before(userKey, tmp) {
      r := EncodeInternal(tmp, FIRST_TAG);
      EncodedParts(tmp, FIRST_TAG);
      Transitive(tmp, userKey, tmp);
      Irreflexive(tmp);
    }
  }
}
