/** What a store that has compacted still reads like: everything ever written, apart from the user keys
    of which a compaction has brought a deleted value back. */
module Histories {
  import opened Keys

  // Every entry of a is newer than every entry of b, whatever their keys.
  ghost predicate AllNewer(a: set<Entry>, b: set<Entry>) {
    forall x, y :: x in a && y in b ==> x.key.seqno > y.key.seqno
  }

  lemma AllNewerView(newer: set<Entry>, older: set<Entry>, u: UserKey, sn: nat)
    requires Distinct(newer + older) && AllNewer(newer, older)
    ensures View(newer + older, u, sn) == if NoHit(newer, u, sn) then View(older, u, sn) else View(newer, u, sn)
  {
    ViewOfNewer(newer, older, u, sn);
  }

  // Adding the same new entries on top keeps two sets reading alike.
  lemma SameOnTop(newer: set<Entry>, a: set<Entry>, b: set<Entry>, u: UserKey, sn: nat)
    requires Distinct(newer + a) && Distinct(newer + b) && AllNewer(newer, a) && AllNewer(newer, b)
    requires NoHit(newer, u, sn) ==> View(a, u, sn) == View(b, u, sn)
    ensures View(newer + a, u, sn) == View(newer + b, u, sn)
  {
    AllNewerView(newer, a, u, sn);
    AllNewerView(newer, b, u, sn);
  }

  /** Keys that came back, each with the sequence number after which a new write settles it again */

  type Returns = imap<UserKey, nat>

  ghost predicate Settled(back: Returns, history: set<Entry>, u: UserKey, sn: nat) {
    u !in back || exists e :: e in history && Hit(e, u, sn) && e.key.seqno > back[u]
  }

  ghost function Returned(back: Returns, gone: iset<UserKey>, h: nat): Returns {
    imap u | u in back || u in gone :: if u in gone then h else back[u]
  }

  // back2 excuses at least what back does.
  ghost predicate Excuses(back2: Returns, back: Returns) {
    forall u :: u in back ==> u in back2 && back[u] <= back2[u]
  }

  lemma ReturnedExcuses(back: Returns, gone: iset<UserKey>, h: nat)
    requires forall u :: u in back ==> back[u] <= h
    ensures Excuses(Returned(back, gone, h), back)
  {
  }

  // Nothing above the horizon has been dropped, and from the horizon on settled keys read alike.
  ghost predicate ReadsLike(es: set<Entry>, history: set<Entry>, h: nat, back: Returns) {
    && es <= history
    && (forall e :: e in history && e.key.seqno > h ==> e in es)
    && (forall u :: u in back ==> back[u] <= h)
    && (forall u, sn: nat :: h <= sn && Settled(back, history, u, sn) ==> View(es, u, sn) == View(history, u, sn))
  }

  // New entries on top of both.
  lemma ReadsLikeOnTop(newer: set<Entry>, es: set<Entry>, history: set<Entry>, h: nat, back: Returns)
    requires ReadsLike(es, history, h, back) && Distinct(newer + history) && AllNewer(newer, history)
    ensures ReadsLike(newer + es, newer + history, h, back)
  {
    hide View;
    forall u, sn: nat | h <= sn && Settled(back, newer + history, u, sn)
      ensures View(newer + es, u, sn) == View(newer + history, u, sn)
    {
      if NoHit(newer, u, sn) {
        assert Settled(back, history, u, sn);
      }
      SameOnTop(newer, es, history, u, sn);
    }
  }

  // With a later horizon, or more keys excused.
  lemma ReadsLikeLater(es: set<Entry>, history: set<Entry>, h: nat, back: Returns, h2: nat, back2: Returns)
    requires ReadsLike(es, history, h, back) && h <= h2 && Excuses(back2, back) && forall u :: u in back2 ==> back2[u] <= h2
    ensures ReadsLike(es, history, h2, back2)
  {
    hide View;
    forall u, sn: nat | Settled(back2, history, u, sn)
      ensures Settled(back, history, u, sn)
    {
    }
  }

  // Dropping entries at or below the horizon, if only the keys in gone may read differently for it.
  lemma ReadsLikeAfter(es: set<Entry>, es2: set<Entry>, history: set<Entry>, h: nat, back: Returns, h2: nat, gone: iset<UserKey>)
    requires ReadsLike(es, history, h, back) && Distinct(history) && es2 <= es && h <= h2
    requires forall e :: e in es && e.key.seqno > h2 ==> e in es2
    requires forall u, sn: nat :: h2 <= sn && u !in gone ==> View(es2, u, sn) == View(es, u, sn)
    ensures ReadsLike(es2, history, h2, Returned(back, gone, h2)) && Excuses(Returned(back, gone, h2), back)
  {
    hide View;
    var back2 := Returned(back, gone, h2);
    forall u, sn: nat | h2 <= sn && Settled(back2, history, u, sn)
      ensures View(es2, u, sn) == View(history, u, sn)
    {
      if u in gone {
        RecentDecides(es2, history, h2, u, sn);
      } else {
        assert Settled(back, history, u, sn);
      }
    }
  }

  // An entry above the horizon decides for both.
  lemma RecentDecides(es: set<Entry>, history: set<Entry>, h: nat, u: UserKey, sn: nat)
    requires es <= history && Distinct(history) && forall e :: e in history && e.key.seqno > h ==> e in es
    requires exists e :: e in history && Hit(e, u, sn) && e.key.seqno > h
    ensures View(es, u, sn) == View(history, u, sn)
  {
    NewestExists(history, u, sn);
    var e :| Newest(history, u, sn, e);
    assert Newest(es, u, sn, e);
    ViewIs(es, u, sn, e);
    ViewIs(history, u, sn, e);
  }
}
