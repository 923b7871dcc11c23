/** Versions: seven levels of table files, the order the levels keep, and point reads. */
module Versions {
  import opened Keys
  import opened Files

  const NUM_LEVELS := 7

  datatype Version = Version(levels: seq<seq<File>>)

  ghost function TableEntries(fs: seq<File>): set<Entry> {
    set f, e | f in fs && e in f.table :: e
  }

  ghost function Entries(v: Version): set<Entry> {
    set l: nat, f, e | l < |v.levels| && f in v.levels[l] && e in f.table :: e
  }

  lemma InEntries(v: Version, l: nat, f: File, e: Entry)
    requires l < |v.levels| && f in v.levels[l] && e in f.table
    ensures e in Entries(v)
  {
  }

  // For every user key, all of f's entries are newer than all of g's.
  ghost predicate NewerThan(f: File, g: File) {
    forall a, b :: a in f.table && b in g.table && a.key.ukey == b.key.ukey ==> a.key.seqno > b.key.seqno
  }

  // The order of the files in a level: by smallest key, ties by number.
  predicate FileBefore(f: File, g: File) {
    Less(f.smallest, g.smallest) || (f.smallest == g.smallest && f.number < g.number)
  }

  ghost predicate BySmallestKey(fs: seq<File>) {
    forall i, j :: 0 <= i < j < |fs| ==> FileBefore(fs[i], fs[j])
  }

  ghost predicate UniqueNumbers(v: Version) {
    forall l: nat, m: nat, f, g ::
      l < |v.levels| && m < |v.levels| && f in v.levels[l] && g in v.levels[m] && f.number == g.number ==> l == m && f == g
  }

  // Levels are ordered by age: a shallower level, or a higher-numbered file of level 0, is newer.
  ghost predicate AgeOrdered(v: Version) {
    && (forall l: nat, m: nat, f, g :: l < m < |v.levels| && f in v.levels[l] && g in v.levels[m] ==> NewerThan(f, g))
    && (|v.levels| > 0 ==> forall f, g :: f in v.levels[0] && g in v.levels[0] && f.number > g.number ==> NewerThan(f, g))
  }

  // Seven levels of valid files; the levels other than 0 are sorted and disjoint.
  ghost predicate Shaped(v: Version) {
    && |v.levels| == NUM_LEVELS
    && (forall l: nat :: l < NUM_LEVELS ==> ValidFiles(v.levels[l]))
    && BySmallestKey(v.levels[0])
    && (forall l: nat :: 1 <= l < NUM_LEVELS ==> SortedFiles(v.levels[l]))
  }

  /** The level-order invariant. */
  ghost predicate LevelOrder(v: Version) {
    && Shaped(v)
    && UniqueNumbers(v)
    && Distinct(Entries(v))
    && AgeOrdered(v)
  }

  /** Reading one table */

  // Index of the first entry at or after k: where a seek in the table lands.
  function SeekIndex(es: seq<Entry>, k: IKey): (i: nat)
    ensures i <= |es|
    ensures forall j :: 0 <= j < i ==> Less(es[j].key, k)
    ensures i < |es| ==> AtMost(k, es[i].key)
  {
    if es == [] || AtMost(k, es[0].key) then 0
    else
      assert forall j :: 1 <= j < |es| ==> es[j] == es[1..][j - 1];
      1 + SeekIndex(es[1..], k)
  }

  datatype SaverState = NotFound | FoundValue(value: Bytes) | FoundDeletion

  // A table lookup: seek, then keep the entry found only if it belongs to the user key.
  function TableGet(f: File, u: UserKey, s: nat): SaverState {
    var i := SeekIndex(f.table, IKey(u, s, SEEK_TYPE));
    if i < |f.table| && f.table[i].key.ukey == u then
      (if f.table[i].key.kind == Value then FoundValue(f.table[i].value) else FoundDeletion)
    else NotFound
  }

  function Saved(st: SaverState): ReadResult {
    if st.FoundValue? then Present(st.value) else Absent
  }

  ghost predicate NoHitInFile(f: File, u: UserKey, s: nat) {
    NoHit(Elements(f.table), u, s)
  }

  lemma DistinctPart(es: set<Entry>, part: set<Entry>)
    requires Distinct(es) && part <= es
    ensures Distinct(part)
  {
  }

  lemma FileEntries(v: Version, l: nat, f: File)
    requires l < |v.levels| && f in v.levels[l]
    ensures Elements(f.table) <= Entries(v)
  {
  }

  // What a table lookup says about one file.
  lemma TableGetMeaning(f: File, u: UserKey, s: nat)
    requires ValidFile(f) && Distinct(Elements(f.table))
    ensures var i := SeekIndex(f.table, IKey(u, s, SEEK_TYPE));
            if TableGet(f, u, s) == NotFound then NoHitInFile(f, u, s)
            else i < |f.table| && Newest(Elements(f.table), u, s, f.table[i]) && ResultOf(f.table[i]) == Saved(TableGet(f, u, s))
  {
    hide View, Distinct;
    FirstAtOrAfter(f.table, u, s, SeekIndex(f.table, IKey(u, s, SEEK_TYPE)));
  }

  lemma VersionTableGet(v: Version, l: nat, f: File, u: UserKey, s: nat)
    requires LevelOrder(v) && l < NUM_LEVELS && f in v.levels[l]
    ensures var i := SeekIndex(f.table, IKey(u, s, SEEK_TYPE));
            if TableGet(f, u, s) == NotFound then NoHitInFile(f, u, s)
            else i < |f.table| && Newest(Elements(f.table), u, s, f.table[i]) && ResultOf(f.table[i]) == Saved(TableGet(f, u, s))
  {
    hide AgeOrdered, UniqueNumbers, NoHitInFile, Newest;
    FileEntries(v, l, f);
    DistinctPart(Entries(v), Elements(f.table));
    TableGetMeaning(f, u, s);
  }

  ghost predicate NoHitInLevels(v: Version, u: UserKey, s: nat, upTo: nat)
    requires upTo <= |v.levels|
  {
    forall l: nat, f :: l < upTo && f in v.levels[l] ==> NoHitInFile(f, u, s)
  }

  lemma HitLevel(v: Version, u: UserKey, s: nat, upTo: nat, m: nat, g: File, x: Entry)
    requires upTo <= |v.levels| && NoHitInLevels(v, u, s, upTo)
    requires m < |v.levels| && g in v.levels[m] && x in g.table && Hit(x, u, s)
    ensures m >= upTo
  {
    assert m < upTo ==> NoHitInFile(g, u, s);
    assert x in Elements(g.table);
  }

  // The newest entry of a file is the newest of the version when nothing newer can be elsewhere.
  lemma FoundInFile(v: Version, l: nat, f: File, u: UserKey, s: nat, e: Entry)
    requires LevelOrder(v) && l < NUM_LEVELS && f in v.levels[l]
    requires NoHitInLevels(v, u, s, l)
    requires Newest(Elements(f.table), u, s, e)
    requires forall g, x :: g in v.levels[l] && x in g.table && Hit(x, u, s) ==> x.key.seqno <= e.key.seqno
    ensures View(Entries(v), u, s) == ResultOf(e)
  {
    FileEntries(v, l, f);
    assert Distinct(Entries(v));
    hide View, NoHitInFile, NoHitInLevels, Newest, Entries, LevelOrder;
    forall x | x in Entries(v) && Hit(x, u, s)
      ensures x.key.seqno <= e.key.seqno
    {
      var m, g := FileOf(v, x);
      HitLevel(v, u, s, l, m, g, x);
      if l < m {
        OlderBelow(v, l, f, m, g, e, x);
      }
    }
    NewestOfMore(Elements(f.table), Entries(v), u, s, e);
    ViewIs(Entries(v), u, s, e);
  }

  lemma FileOf(v: Version, x: Entry) returns (l: nat, f: File)
    requires x in Entries(v)
    ensures l < |v.levels| && f in v.levels[l] && x in f.table
  {
    l, f :| l < |v.levels| && f in v.levels[l] && x in f.table;
  }

  lemma OlderBelow(v: Version, l: nat, f: File, m: nat, g: File, e: Entry, x: Entry)
    requires LevelOrder(v) && l < m < |v.levels| && f in v.levels[l] && g in v.levels[m]
    requires e in Elements(f.table) && x in g.table && e.key.ukey == x.key.ukey
    ensures x.key.seqno <= e.key.seqno
  {
    hide Shaped, UniqueNumbers, Distinct;
    assert NewerThan(f, g);
  }

  lemma NewestOfMore(part: set<Entry>, all: set<Entry>, u: UserKey, s: nat, e: Entry)
    requires Newest(part, u, s, e) && part <= all && forall x :: x in all && Hit(x, u, s) ==> x.key.seqno <= e.key.seqno
    ensures Newest(all, u, s, e)
  {
  }

  /** A level other than 0: one binary-searched file decides for the whole level. */

  // Where an entry for (u, s) can be, given the file that the binary search found.
  lemma LevelFileDecides(files: seq<File>, u: UserKey, s: nat, index: nat, g: File, x: Entry)
    requires SortedFiles(files) && s <= MAX_SEQUENCE
    requires index < |files|
    requires forall i :: 0 <= i < index ==> Less(files[i].largest, IKey(u, s, SEEK_TYPE))
    requires AtMost(IKey(u, s, SEEK_TYPE), files[index].largest)
    requires g in files && x in g.table && Hit(x, u, s)
    ensures var f := files[index]; var p := SeekIndex(f.table, IKey(u, s, SEEK_TYPE));
            f.smallest.ukey <= u && p < |f.table| && f.table[p].key.ukey == u && x.key.seqno <= f.table[p].key.seqno
  {
    var f := files[index];
    var p := SeekIndex(f.table, IKey(u, s, SEEK_TYPE));
    var j :| 0 <= j < |files| && files[j] == g;
    assert ValidFile(f) && ValidFile(g);
    FileBounds(g, x);
    hide ValidFile, ValidFiles;
    assert index <= j;
    assert p < |f.table|;
    if index < j {
      assert Less(f.largest, g.smallest);
      assert f.table[p] in f.table && f.table[0] in f.table;
      FileBounds(f, f.table[p]);
      FileBounds(f, f.table[0]);
    } else {
      var q :| 0 <= q < |f.table| && f.table[q] == x;
      FileBounds(f, f.table[0]);
    }
  }

  lemma LevelEmpty(v: Version, l: nat, u: UserKey, s: nat, index: nat)
    requires LevelOrder(v) && 1 <= l < NUM_LEVELS && s <= MAX_SEQUENCE
    requires index <= |v.levels[l]|
    requires forall i :: 0 <= i < index ==> Less(v.levels[l][i].largest, IKey(u, s, SEEK_TYPE))
    requires index < |v.levels[l]| ==> AtMost(IKey(u, s, SEEK_TYPE), v.levels[l][index].largest)
    requires index == |v.levels[l]| || u < v.levels[l][index].smallest.ukey || TableGet(v.levels[l][index], u, s) == NotFound
    ensures forall f :: f in v.levels[l] ==> NoHitInFile(f, u, s)
  {
    assert SortedFiles(v.levels[l]);
    hide LevelOrder;
    forall g | g in v.levels[l]
      ensures NoHitInFile(g, u, s)
    {
      if index < |v.levels[l]| {
        NoHitBeside(v.levels[l], u, s, index, g);
      } else {
        NoHitBefore(v.levels[l], u, s, g);
      }
    }
  }

  lemma NoHitBeside(files: seq<File>, u: UserKey, s: nat, index: nat, g: File)
    requires SortedFiles(files) && s <= MAX_SEQUENCE && index < |files| && g in files
    requires forall i :: 0 <= i < index ==> Less(files[i].largest, IKey(u, s, SEEK_TYPE))
    requires AtMost(IKey(u, s, SEEK_TYPE), files[index].largest)
    requires u < files[index].smallest.ukey || TableGet(files[index], u, s) == NotFound
    ensures NoHitInFile(g, u, s)
  {
    hide SortedFiles, SeekIndex;
    forall x | x in g.table
      ensures !Hit(x, u, s)
    {
      if Hit(x, u, s) {
        LevelFileDecides(files, u, s, index, g, x);
        assert false;
      }
    }
  }

  lemma NoHitBefore(files: seq<File>, u: UserKey, s: nat, g: File)
    requires SortedFiles(files) && g in files
    requires forall i :: 0 <= i < |files| ==> Less(files[i].largest, IKey(u, s, SEEK_TYPE))
    ensures NoHitInFile(g, u, s)
  {
    assert ValidFile(g);
    hide SortedFiles;
    forall x | x in g.table
      ensures !Hit(x, u, s)
    {
      FileBounds(g, x);
    }
  }

  /** Level 0: the files whose range holds the user key, newest first. */

  ghost predicate NewestFirst(fs: seq<File>) {
    forall i, j :: 0 <= i < j < |fs| ==> fs[i].number > fs[j].number
  }

  lemma InsertKeepsOrder(fs: seq<File>, k: nat, f: File)
    requires NewestFirst(fs) && k <= |fs|
    requires forall j :: 0 <= j < k ==> fs[j].number > f.number
    requires k < |fs| ==> fs[k].number < f.number
    ensures NewestFirst(fs[..k] + [f] + fs[k..])
    ensures forall g :: g in fs[..k] + [f] + fs[k..] <==> g in fs || g == f
  {
  }

  // std::sort by descending number; the numbers of one level are distinct.
  method SortNewestFirst(files: seq<File>) returns (sorted: seq<File>)
    requires forall i, j :: 0 <= i < j < |files| ==> files[i].number != files[j].number
    ensures forall f :: f in sorted <==> f in files
    ensures NewestFirst(sorted)
  {
    sorted := [];
    for i := 0 to |files|
      invariant forall f :: f in sorted <==> f in files[..i]
      invariant NewestFirst(sorted)
    {
      var k := 0;
      while k < |sorted| && sorted[k].number > files[i].number
        invariant 0 <= k <= |sorted|
        invariant forall j :: 0 <= j < k ==> sorted[j].number > files[i].number
      {
        k := k + 1;
      }
      if k < |sorted| {
        assert sorted[k] in files[..i];
      }
      InsertKeepsOrder(sorted, k, files[i]);
      sorted := sorted[..k] + [files[i]] + sorted[k..];
      assert files[..i + 1] == files[..i] + [files[i]];
    }
    assert files[..|files|] == files;
  }

  // Version::Get: level by level, stopping at the first file that knows the key.
  method Get(v: Version, u: UserKey, s: nat) returns (found: bool, r: ReadResult)
    requires LevelOrder(v) && s <= MAX_SEQUENCE
    ensures r == View(Entries(v), u, s)
    ensures found <==> !NoHit(Entries(v), u, s)
  {
    var level := 0;
    while level < NUM_LEVELS
      invariant 0 <= level <= NUM_LEVELS
      invariant NoHitInLevels(v, u, s, level)
    {
      var files := FilesToSearch(v, level, u, s);
      var saved := SearchFiles(v, level, files, u, s);
      if saved != NotFound {
        return true, Saved(saved);
      }
      NoCandidateHit(v, level, files, u, s);
      level := level + 1;
    }
    NoLevelHit(v, u, s);
    return false, Absent;
  }

  method FilesToSearch(v: Version, level: nat, u: UserKey, s: nat) returns (files: seq<File>)
    requires LevelOrder(v) && level < NUM_LEVELS && s <= MAX_SEQUENCE
    ensures Candidates(v, level, files, u, s)
  {
    if level == 0 {
      files := Level0Candidates(v.levels[0], u);
      Level0AreCandidates(v, files, u, s);
    } else {
      var index := FindFile(v.levels[level], IKey(u, s, SEEK_TYPE));
      if index >= |v.levels[level]| || u < v.levels[level][index].smallest.ukey {
        files := [];
        LevelEmpty(v, level, u, s, index);
      } else {
        files := [v.levels[level][index]];
        OneCandidate(v, level, u, s, index);
      }
    }
  }

  method SearchFiles(v: Version, level: nat, files: seq<File>, u: UserKey, s: nat) returns (saved: SaverState)
    requires LevelOrder(v) && level < NUM_LEVELS && s <= MAX_SEQUENCE
    requires NoHitInLevels(v, u, s, level)
    requires (forall f :: f in files ==> f in v.levels[level]) && Candidates(v, level, files, u, s)
    ensures saved == NotFound ==> forall f :: f in files ==> TableGet(f, u, s) == NotFound
    ensures saved != NotFound ==> View(Entries(v), u, s) == Saved(saved) && !NoHit(Entries(v), u, s)
  {
    hide LevelOrder, View, Newest, NoHit, Candidates, NoHitInLevels, NoHitInFile, TableGet, SeekIndex;
    for i := 0 to |files|
      invariant forall j :: 0 <= j < i ==> TableGet(files[j], u, s) == NotFound && NoHitInFile(files[j], u, s)
    {
      assert files[i] in files;
      saved := TableGet(files[i], u, s);
      VersionTableGet(v, level, files[i], u, s);
      if saved != NotFound {
        FoundAt(v, level, files, i, u, s);
        return;
      }
    }
    saved := NotFound;
  }

  lemma NoCandidateHit(v: Version, l: nat, files: seq<File>, u: UserKey, s: nat)
    requires LevelOrder(v) && l < NUM_LEVELS && NoHitInLevels(v, u, s, l)
    requires Candidates(v, l, files, u, s)
    requires forall f :: f in files ==> TableGet(f, u, s) == NotFound
    ensures NoHitInLevels(v, u, s, l + 1)
  {
    forall f | f in v.levels[l]
      ensures NoHitInFile(f, u, s)
    {
      VersionTableGet(v, l, f, u, s);
    }
  }

  lemma NoLevelHit(v: Version, u: UserKey, s: nat)
    requires |v.levels| == NUM_LEVELS && NoHitInLevels(v, u, s, NUM_LEVELS)
    ensures NoHit(Entries(v), u, s)
  {
    forall x | x in Entries(v)
      ensures !Hit(x, u, s)
    {
      var m: nat, g :| m < |v.levels| && g in v.levels[m] && x in g.table;
      assert NoHitInFile(g, u, s) && x in Elements(g.table);
    }
  }

  // files are all that a reader of (u, s) has to look at in this level, in the right order.
  ghost predicate Candidates(v: Version, l: nat, files: seq<File>, u: UserKey, s: nat)
    requires l < |v.levels|
  {
    && (forall f :: f in files ==> f in v.levels[l])
    && (forall f :: f in v.levels[l] && f !in files ==>
          NoHitInFile(f, u, s)
          || (l > 0 && |files| == 1 && TableGet(files[0], u, s) != NotFound
              && forall x :: x in f.table && Hit(x, u, s) ==> x.key.seqno <= files[0].table[SeekIndex(files[0].table, IKey(u, s, SEEK_TYPE))].key.seqno))
    && (l == 0 ==> NewestFirst(files))
    && (l > 0 ==> |files| <= 1)
  }

  lemma OneCandidate(v: Version, l: nat, u: UserKey, s: nat, index: nat)
    requires LevelOrder(v) && 1 <= l < NUM_LEVELS && s <= MAX_SEQUENCE
    requires index < |v.levels[l]| && v.levels[l][index].smallest.ukey <= u
    requires forall i :: 0 <= i < index ==> Less(v.levels[l][i].largest, IKey(u, s, SEEK_TYPE))
    requires AtMost(IKey(u, s, SEEK_TYPE), v.levels[l][index].largest)
    ensures Candidates(v, l, [v.levels[l][index]], u, s)
  {
    if TableGet(v.levels[l][index], u, s) == NotFound {
      LevelEmpty(v, l, u, s, index);
    } else {
      forall g, x | g in v.levels[l] && x in g.table && Hit(x, u, s)
        ensures x.key.seqno <= v.levels[l][index].table[SeekIndex(v.levels[l][index].table, IKey(u, s, SEEK_TYPE))].key.seqno
      {
        LevelFileDecides(v.levels[l], u, s, index, g, x);
      }
    }
  }

  lemma FoundAt(v: Version, l: nat, files: seq<File>, i: nat, u: UserKey, s: nat)
    requires LevelOrder(v) && l < NUM_LEVELS && i < |files|
    requires NoHitInLevels(v, u, s, l)
    requires Candidates(v, l, files, u, s)
    requires forall j :: 0 <= j < i ==> NoHitInFile(files[j], u, s)
    requires TableGet(files[i], u, s) != NotFound
    ensures View(Entries(v), u, s) == Saved(TableGet(files[i], u, s))
    ensures !NoHit(Entries(v), u, s)
  {
    var f := files[i];
    VersionTableGet(v, l, f, u, s);
    var e := f.table[SeekIndex(f.table, IKey(u, s, SEEK_TYPE))];
    forall g, x | g in v.levels[l] && x in g.table && Hit(x, u, s)
      ensures x.key.seqno <= e.key.seqno
    {
      CandidateBeats(v, l, files, i, u, s, e, g, x);
    }
    hide LevelOrder, View, Newest, NoHitInLevels, Candidates, TableGet, SeekIndex, NoHitInFile;
    FoundInFile(v, l, f, u, s, e);
    FileEntries(v, l, f);
  }

  lemma CandidateBeats(v: Version, l: nat, files: seq<File>, i: nat, u: UserKey, s: nat, e: Entry, g: File, x: Entry)
    requires LevelOrder(v) && l < NUM_LEVELS && i < |files|
    requires Candidates(v, l, files, u, s)
    requires forall j :: 0 <= j < i ==> NoHitInFile(files[j], u, s)
    requires TableGet(files[i], u, s) != NotFound
    requires e == files[i].table[SeekIndex(files[i].table, IKey(u, s, SEEK_TYPE))]
    requires Newest(Elements(files[i].table), u, s, e)
    requires g in v.levels[l] && x in g.table && Hit(x, u, s)
    ensures x.key.seqno <= e.key.seqno
  {
    hide *;
    SevenLevels(v);
    if g !in files {
      NoCandidate(v, l, files, i, u, s, g, x);
    } else {
      var j :| 0 <= j < |files| && files[j] == g;
      if j < i {
        HitInFile(g, u, s, x);
        assert false;
      }
      NewestInFile(files[i], u, s, e);
      if j > i {
        HitIsOf(x, u, s);
        OlderCandidate(v, l, files, i, j, u, s, e, x);
      } else {
        NewerInFile(g, u, s, e, x);
      }
    }
  }

  lemma SevenLevels(v: Version)
    requires LevelOrder(v)
    ensures |v.levels| == NUM_LEVELS
  {
  }

  lemma HitIsOf(x: Entry, u: UserKey, s: nat)
    requires Hit(x, u, s)
    ensures x.key.ukey == u
  {
  }

  lemma HitInFile(f: File, u: UserKey, s: nat, x: Entry)
    requires x in f.table && Hit(x, u, s)
    ensures !NoHitInFile(f, u, s)
  {
    assert x in Elements(f.table);
  }

  lemma NewestInFile(f: File, u: UserKey, s: nat, e: Entry)
    requires Newest(Elements(f.table), u, s, e)
    ensures e in f.table && e.key.ukey == u
  {
  }

  lemma NewerInFile(f: File, u: UserKey, s: nat, e: Entry, x: Entry)
    requires Newest(Elements(f.table), u, s, e) && x in f.table && Hit(x, u, s)
    ensures x.key.seqno <= e.key.seqno
  {
    assert x in Elements(f.table);
  }

  lemma NoCandidate(v: Version, l: nat, files: seq<File>, i: nat, u: UserKey, s: nat, g: File, x: Entry)
    requires l < |v.levels| && i < |files| && Candidates(v, l, files, u, s)
    requires g in v.levels[l] && g !in files && x in g.table && Hit(x, u, s)
    ensures i == 0 && TableGet(files[0], u, s) != NotFound
    ensures x.key.seqno <= files[0].table[SeekIndex(files[0].table, IKey(u, s, SEEK_TYPE))].key.seqno
  {
    assert x in Elements(g.table);
    hide SeekIndex;
  }

  // Level-0 candidates are searched newest first.
  lemma OlderCandidate(v: Version, l: nat, files: seq<File>, i: nat, j: nat, u: UserKey, s: nat, e: Entry, x: Entry)
    requires LevelOrder(v) && l < NUM_LEVELS && i < j < |files| && Candidates(v, l, files, u, s)
    requires e in files[i].table && x in files[j].table && e.key.ukey == x.key.ukey
    ensures x.key.seqno <= e.key.seqno
  {
    assert |v.levels| == NUM_LEVELS && l == 0;
    hide Shaped, UniqueNumbers, Distinct, SeekIndex, TableGet, NoHitInFile;
    assert files[i] in v.levels[0] && files[j] in v.levels[0] && files[i].number > files[j].number;
    assert NewerThan(files[i], files[j]);
  }

  // The files of a list whose user-key range holds u, newest first.
  method Level0Candidates(all: seq<File>, u: UserKey) returns (files: seq<File>)
    requires forall i, j :: 0 <= i < j < |all| ==> all[i].number != all[j].number
    ensures forall f :: f in files <==> f in all && f.smallest.ukey <= u <= f.largest.ukey
    ensures NewestFirst(files)
  {
    var tmp := [];
    ghost var from: seq<nat> := [];
    for i := 0 to |all|
      invariant |from| == |tmp|
      invariant forall j :: 0 <= j < |tmp| ==> from[j] < i && tmp[j] == all[from[j]]
      invariant forall j, k :: 0 <= j < k < |tmp| ==> from[j] < from[k]
      invariant forall f :: f in tmp ==> f in all && f.smallest.ukey <= u <= f.largest.ukey
      invariant forall j :: 0 <= j < i && all[j].smallest.ukey <= u <= all[j].largest.ukey ==> all[j] in tmp
    {
      if u >= all[i].smallest.ukey && u <= all[i].largest.ukey {
        tmp := tmp + [all[i]];
        from := from + [i];
      }
    }
    files := SortNewestFirst(tmp);
  }

  lemma Level0AreCandidates(v: Version, files: seq<File>, u: UserKey, s: nat)
    requires LevelOrder(v)
    requires forall f :: f in files <==> f in v.levels[0] && f.smallest.ukey <= u <= f.largest.ukey
    requires NewestFirst(files)
    ensures Candidates(v, 0, files, u, s)
  {
    forall f, x | f in v.levels[0] && f !in files && x in f.table && Hit(x, u, s)
      ensures false
    {
      assert ValidFile(f);
      FileBounds(f, x);
      assert false;
    }
  }
}
