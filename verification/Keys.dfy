/** Internal keys, entries, and what a read of a set of entries returns.

    A user key is represented by its position in the user comparator's order: the
    modules built on this one only ever compare user keys, and KeyOrder.RankPreservesOrder
    shows that the byte strings of any finite configuration can be numbered in that way. */
module Keys {

  type byte = x: int | 0 <= x < 256
  type Bytes = seq<byte>
  type UserKey = int

  datatype ValueType = Deletion | Value

  // The type that seek targets carry: the largest one, because tags sort downwards.
  const SEEK_TYPE := Value
  const MAX_SEQUENCE: nat := 0x100_0000_0000_0000 - 1

  datatype IKey = IKey(ukey: UserKey, seqno: nat, kind: ValueType)

  datatype Entry = Entry(key: IKey, value: Bytes)

  function TypeCode(t: ValueType): nat {
    if t == Deletion then 0 else 1
  }

  // The packed 64-bit trailer of an internal key.
  function Tag(k: IKey): nat {
    k.seqno * 256 + TypeCode(k.kind)
  }

  // User keys ascending, then packed (sequence, type) descending.
  predicate Less(a: IKey, b: IKey) {
    a.ukey < b.ukey || (a.ukey == b.ukey && Tag(a) > Tag(b))
  }

  predicate AtMost(a: IKey, b: IKey) {
    !Less(b, a)
  }

  predicate Sorted(es: seq<Entry>) {
    forall i, j :: 0 <= i < j < |es| ==> Less(es[i].key, es[j].key)
  }

  function Elements(es: seq<Entry>): set<Entry> {
    set e | e in es
  }

  /** What a read of a set of entries returns. */

  datatype ReadResult = Absent | Present(value: Bytes)

  predicate Hit(e: Entry, u: UserKey, s: nat) {
    e.key.ukey == u && e.key.seqno <= s
  }

  ghost predicate NoHit(es: set<Entry>, u: UserKey, s: nat) {
    forall e :: e in es ==> !Hit(e, u, s)
  }

  // e is the newest entry for u that a reader at sequence number s may see.
  ghost predicate Newest(es: set<Entry>, u: UserKey, s: nat, e: Entry) {
    && e in es && Hit(e, u, s)
    && forall x :: x in es && Hit(x, u, s) ==> x.key.seqno <= e.key.seqno
  }

  function ResultOf(e: Entry): ReadResult {
    if e.key.kind == Deletion then Absent else Present(e.value)
  }

  // No two entries carry the same user key and sequence number.
  ghost predicate Distinct(es: set<Entry>) {
    forall a, b :: a in es && b in es && a.key.ukey == b.key.ukey && a.key.seqno == b.key.seqno ==> a == b
  }

  // The specification of a read: the newest entry at or below s, a deletion counting as absent.
  ghost function View(es: set<Entry>, u: UserKey, s: nat): ReadResult {
    if NoHit(es, u, s) then Absent
    else
      NewestExists(es, u, s);
      var e :| Newest(es, u, s, e);
      ResultOf(e)
  }

  lemma {:induction false} NewestExists(es: set<Entry>, u: UserKey, s: nat)
    requires !NoHit(es, u, s)
    ensures exists e :: Newest(es, u, s, e)
    decreases es
  {
    var x :| x in es && Hit(x, u, s);
    var rest := es - {x};
    if NoHit(rest, u, s) {
      assert Newest(es, u, s, x);
    } else {
      NewestExists(rest, u, s);
      var y :| Newest(rest, u, s, y);
      var e := if x.key.seqno > y.key.seqno then x else y;
      assert Newest(es, u, s, e);
    }
  }

  // View does not depend on how the newest entry is chosen.
  lemma ViewIs(es: set<Entry>, u: UserKey, s: nat, e: Entry)
    requires Distinct(es) && Newest(es, u, s, e)
    ensures View(es, u, s) == ResultOf(e)
  {
    NewestExists(es, u, s);
    var x :| Newest(es, u, s, x) && View(es, u, s) == ResultOf(x);
    assert x.key.seqno == e.key.seqno;
  }

  // Entries of a later source can be ignored once an earlier, newer source has a hit.
  lemma ViewOfNewer(newer: set<Entry>, older: set<Entry>, u: UserKey, s: nat)
    requires Distinct(newer + older)
    requires forall a, b :: a in newer && b in older && a.key.ukey == u && b.key.ukey == u ==> a.key.seqno > b.key.seqno
    ensures !NoHit(newer, u, s) ==> View(newer + older, u, s) == View(newer, u, s)
    ensures NoHit(newer, u, s) ==> View(newer + older, u, s) == View(older, u, s)
  {
    if !NoHit(newer, u, s) {
      NewestExists(newer, u, s);
      var e :| Newest(newer, u, s, e);
      ViewIs(newer, u, s, e);
      assert Newest(newer + older, u, s, e);
      ViewIs(newer + older, u, s, e);
    } else if !NoHit(older, u, s) {
      NewestExists(older, u, s);
      var e :| Newest(older, u, s, e);
      ViewIs(older, u, s, e);
      assert Newest(newer + older, u, s, e);
      ViewIs(newer + older, u, s, e);
    } else {
      assert NoHit(newer + older, u, s);
    }
  }

  // The first entry at or after the seek key (u, s) of a sorted table is what a read of the
  // table returns, provided it belongs to u at all.
  lemma FirstAtOrAfter(es: seq<Entry>, u: UserKey, s: nat, i: nat)
    requires Sorted(es) && Distinct(Elements(es)) && i <= |es|
    requires forall j :: 0 <= j < i ==> Less(es[j].key, IKey(u, s, SEEK_TYPE))
    requires i < |es| ==> AtMost(IKey(u, s, SEEK_TYPE), es[i].key)
    ensures i < |es| && es[i].key.ukey == u ==> Newest(Elements(es), u, s, es[i]) && View(Elements(es), u, s) == ResultOf(es[i])
    ensures !(i < |es| && es[i].key.ukey == u) ==> NoHit(Elements(es), u, s)
  {
    forall e | e in Elements(es) && Hit(e, u, s)
      ensures i < |es| && es[i].key.ukey == u && e.key.seqno <= es[i].key.seqno
    {
      var j :| 0 <= j < |es| && es[j] == e;
    }
    if i < |es| && es[i].key.ukey == u {
      assert Newest(Elements(es), u, s, es[i]);
      ViewIs(Elements(es), u, s, es[i]);
    }
  }
}
