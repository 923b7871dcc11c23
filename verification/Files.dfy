/** Table files, the lists of files that make up a level, and the searches over them. */
module Files {
  import opened Keys
  import opened Wrappers

  // A table file as the version set describes it, together with its contents.
  datatype File = File(number: nat, size: nat, smallest: IKey, largest: IKey, table: seq<Entry>)

  ghost predicate ValidFile(f: File) {
    && |f.table| > 0 && Sorted(f.table)
    && f.smallest == f.table[0].key
    && f.largest == f.table[|f.table| - 1].key
    && forall e :: e in f.table ==> e.key.seqno <= MAX_SEQUENCE
  }

  ghost predicate ValidFiles(fs: seq<File>) {
    forall f :: f in fs ==> ValidFile(f)
  }

  // A level other than 0: files in order, disjoint in internal-key order.
  ghost predicate SortedFiles(fs: seq<File>) {
    ValidFiles(fs) && forall i, j :: 0 <= i < j < |fs| ==> Less(fs[i].largest, fs[j].smallest)
  }

  lemma FileBounds(f: File, e: Entry)
    requires ValidFile(f) && e in f.table
    ensures AtMost(f.smallest, e.key) && AtMost(e.key, f.largest)
  {
  }

  predicate AfterFile(u: Option<UserKey>, f: File) {
    u.Some? && u.value > f.largest.ukey
  }

  predicate BeforeFile(u: Option<UserKey>, f: File) {
    u.Some? && u.value < f.smallest.ukey
  }

  // The user-key ranges [lo, hi] and [f.smallest, f.largest] meet; None is an open end.
  predicate Overlaps(f: File, lo: Option<UserKey>, hi: Option<UserKey>) {
    !AfterFile(lo, f) && !BeforeFile(hi, f)
  }

  predicate RangesMeet(f: File, g: File) {
    f.smallest.ukey <= g.largest.ukey && g.smallest.ukey <= f.largest.ukey
  }

  /** FindFile */

  method FindFile(files: seq<File>, key: IKey) returns (index: nat)
    requires SortedFiles(files)
    ensures index <= |files|
    ensures forall i :: 0 <= i < index ==> Less(files[i].largest, key)
    ensures forall i :: index <= i < |files| ==> AtMost(key, files[i].largest)
  {
    var left, right := 0, |files|;
    while left < right
      invariant 0 <= left <= right <= |files|
      invariant forall i :: 0 <= i < left ==> Less(files[i].largest, key)
      invariant forall i :: right <= i < |files| ==> AtMost(key, files[i].largest)
    {
      var mid := (left + right) / 2;
      assert ValidFile(files[mid]);
      if Less(files[mid].largest, key) {
        forall i | left <= i < mid
          ensures Less(files[i].largest, key)
        {
          assert ValidFile(files[i]);
          assert Less(files[i].largest, files[mid].smallest);
        }
        left := mid + 1;
      } else {
        forall i | mid < i < right
          ensures AtMost(key, files[i].largest)
        {
          assert ValidFile(files[i]);
          assert Less(files[mid].largest, files[i].smallest);
        }
        right := mid;
      }
    }
    index := right;
  }

  /** SomeFileOverlapsRange */

  method SomeFileOverlapsRange(disjointSorted: bool, files: seq<File>, lo: Option<UserKey>, hi: Option<UserKey>)
    returns (found: bool)
    requires ValidFiles(files) && (disjointSorted ==> SortedFiles(files))
    ensures found <==> exists f :: f in files && Overlaps(f, lo, hi)
  {
    if !disjointSorted {
      for i := 0 to |files|
        invariant forall j :: 0 <= j < i ==> !Overlaps(files[j], lo, hi)
      {
        if AfterFile(lo, files[i]) || BeforeFile(hi, files[i]) {
        } else {
          assert files[i] in files && Overlaps(files[i], lo, hi);
          return true;
        }
      }
      return false;
    }
    var index := 0;
    if lo.Some? {
      index := FindFile(files, IKey(lo.value, MAX_SEQUENCE, SEEK_TYPE));
      forall i | 0 <= i < |files|
        ensures i < index <==> AfterFile(lo, files[i])
      {
        assert ValidFile(files[i]);
        assert files[i].table[|files[i].table| - 1] in files[i].table;
      }
    }
    if index >= |files| {
      return false;
    }
    assert ValidFile(files[index]);
    assert Overlaps(files[index], lo, hi) <==> !BeforeFile(hi, files[index]);
    forall i | index < i < |files|
      ensures BeforeFile(hi, files[index]) ==> BeforeFile(hi, files[i])
    {
      assert Less(files[index].largest, files[i].smallest);
    }
    return !BeforeFile(hi, files[index]);
  }

  ghost function Members(fs: seq<File>): set<File> {
    set f | f in fs
  }

  /** GetOverlappingInputs */

  function Overlapping(files: seq<File>, lo: Option<UserKey>, hi: Option<UserKey>): seq<File> {
    if files == [] then []
    else
      var f := files[|files| - 1];
      Overlapping(files[..|files| - 1], lo, hi) + if Overlaps(f, lo, hi) then [f] else []
  }

  lemma {:induction false} OverlappingElements(files: seq<File>, lo: Option<UserKey>, hi: Option<UserKey>)
    ensures forall f :: f in Overlapping(files, lo, hi) <==> f in files && Overlaps(f, lo, hi)
  {
    if files != [] {
      OverlappingElements(files[..|files| - 1], lo, hi);
      assert files == files[..|files| - 1] + [files[|files| - 1]];
    }
  }

  // t holds every file that overlaps [lo, hi], and with a file every file of the level that meets it.
  ghost predicate ClosedOver(files: seq<File>, lo: Option<UserKey>, hi: Option<UserKey>, t: set<File>) {
    && (forall f :: f in files && Overlaps(f, lo, hi) ==> f in t)
    && (forall f, g :: f in files && g in files && f in t && RangesMeet(f, g) ==> g in t)
  }

  predicate Within(f: File, lo: Option<UserKey>, hi: Option<UserKey>) {
    (lo.Some? ==> lo.value <= f.smallest.ukey) && (hi.Some? ==> f.largest.ukey <= hi.value)
  }

  // [lo, hi] contains [begin, end].
  predicate Widens(lo: Option<UserKey>, hi: Option<UserKey>, begin: Option<UserKey>, end: Option<UserKey>) {
    && lo.Some? == begin.Some? && hi.Some? == end.Some?
    && (lo.Some? ==> lo.value <= begin.value) && (hi.Some? ==> end.value <= hi.value)
  }

  // Every closed set already holds everything that overlaps [lo, hi].
  ghost predicate Forced(files: seq<File>, begin: Option<UserKey>, end: Option<UserKey>, lo: Option<UserKey>, hi: Option<UserKey>) {
    forall t: set<File>, g: File :: ClosedOver(files, begin, end, t) && g in files && Overlaps(g, lo, hi) ==> g in t
  }

  lemma ForcedWidens(files: seq<File>, begin: Option<UserKey>, end: Option<UserKey>,
                     lo: Option<UserKey>, hi: Option<UserKey>, f: File, lo': Option<UserKey>, hi': Option<UserKey>)
    requires ValidFiles(files) && f in files && Overlaps(f, lo, hi)
    requires Forced(files, begin, end, lo, hi)
    requires (lo'.Some? && lo.Some? && lo'.value == f.smallest.ukey && hi' == hi)
          || (hi'.Some? && hi.Some? && hi'.value == f.largest.ukey && lo' == lo)
    ensures Forced(files, begin, end, lo', hi')
  {
  }

  ghost function StartsBefore(files: seq<File>, lo: Option<UserKey>): set<nat> {
    set i | 0 <= i < |files| && lo.Some? && files[i].smallest.ukey < lo.value
  }

  ghost function EndsAfter(files: seq<File>, hi: Option<UserKey>): set<nat> {
    set i | 0 <= i < |files| && hi.Some? && files[i].largest.ukey > hi.value
  }

  // lo and hi are the final user_begin and user_end of the search.
  method GetOverlappingInputs(level0: bool, files: seq<File>, begin: Option<UserKey>, end: Option<UserKey>)
    returns (inputs: seq<File>, ghost lo: Option<UserKey>, ghost hi: Option<UserKey>)
    requires ValidFiles(files)
    ensures Widens(lo, hi, begin, end) && (!level0 ==> lo == begin && hi == end)
    ensures inputs == Overlapping(files, lo, hi)
    ensures level0 ==> forall f :: f in inputs ==> Within(f, lo, hi)
    ensures level0 ==> ClosedOver(files, begin, end, Members(inputs))
    ensures level0 ==> forall t: set<File> :: ClosedOver(files, begin, end, t) ==> Members(inputs) <= t
  {
    hide ClosedOver, Forced, RangesMeet;
    ForcedAtStart(files, begin, end);
    inputs := [];
    var userBegin, userEnd := begin, end;
    var i := 0;
    while i < |files|
      invariant 0 <= i <= |files|
      invariant Widens(userBegin, userEnd, begin, end)
      invariant !level0 ==> userBegin == begin && userEnd == end
      invariant inputs == Overlapping(files[..i], userBegin, userEnd)
      invariant level0 ==> forall f :: f in inputs ==> Within(f, userBegin, userEnd)
      invariant Forced(files, begin, end, userBegin, userEnd)
      decreases StartsBefore(files, userBegin), EndsAfter(files, userEnd), |files| - i
    {
      var f := files[i];
      i := i + 1;
      assert files[..i][..i - 1] == files[..i - 1];
      if userBegin.Some? && f.largest.ukey < userBegin.value {
      } else if userEnd.Some? && f.smallest.ukey > userEnd.value {
      } else {
        inputs := inputs + [f];
        if level0 {
          if userBegin.Some? && f.smallest.ukey < userBegin.value {
            ForcedWidens(files, begin, end, userBegin, userEnd, f, Some(f.smallest.ukey), userEnd);
            assert i - 1 in StartsBefore(files, userBegin) && i - 1 !in StartsBefore(files, Some(f.smallest.ukey));
            userBegin := Some(f.smallest.ukey);
            inputs := [];
            i := 0;
          } else if userEnd.Some? && f.largest.ukey > userEnd.value {
            ForcedWidens(files, begin, end, userBegin, userEnd, f, userBegin, Some(f.largest.ukey));
            assert i - 1 in EndsAfter(files, userEnd) && i - 1 !in EndsAfter(files, Some(f.largest.ukey));
            userEnd := Some(f.largest.ukey);
            inputs := [];
            i := 0;
          }
        }
      }
    }
    lo, hi := userBegin, userEnd;
    assert files[..i] == files;
    if level0 {
      WithinIsLeastClosed(files, begin, end, lo, hi);
    }
  }

  lemma ForcedAtStart(files: seq<File>, begin: Option<UserKey>, end: Option<UserKey>)
    ensures Forced(files, begin, end, begin, end)
  {
  }

  // A range that all its files lie within.
  lemma WithinIsLeastClosed(files: seq<File>, begin: Option<UserKey>, end: Option<UserKey>, lo: Option<UserKey>, hi: Option<UserKey>)
    requires ValidFiles(files) && Widens(lo, hi, begin, end) && Forced(files, begin, end, lo, hi)
    requires forall f :: f in Overlapping(files, lo, hi) ==> Within(f, lo, hi)
    ensures ClosedOver(files, begin, end, Members(Overlapping(files, lo, hi)))
    ensures forall t: set<File> :: ClosedOver(files, begin, end, t) ==> Members(Overlapping(files, lo, hi)) <= t
  {
    OverlappingElements(files, lo, hi);
    hide Overlapping;
    WithinIsClosed(files, begin, end, lo, hi);
    hide Overlaps, Widens, ValidFiles;
  }

  lemma WithinIsClosed(files: seq<File>, begin: Option<UserKey>, end: Option<UserKey>, lo: Option<UserKey>, hi: Option<UserKey>)
    requires ValidFiles(files) && Widens(lo, hi, begin, end)
    requires forall f :: f in Overlapping(files, lo, hi) ==> Within(f, lo, hi)
    ensures ClosedOver(files, begin, end, Members(Overlapping(files, lo, hi)))
  {
    OverlappingElements(files, lo, hi);
    hide Overlapping;
    var got := Members(Overlapping(files, lo, hi));
    forall f, g | f in files && g in files && f in got && RangesMeet(f, g)
      ensures g in got
    {
      assert Within(f, lo, hi) && ValidFile(g);
    }
  }
}
