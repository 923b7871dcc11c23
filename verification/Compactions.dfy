/** Choosing the level of a flushed memtable and the input files of a compaction. */
module Compactions {
  import opened Keys
  import opened Wrappers
  import opened Files
  import opened Versions

  const MAX_MEM_COMPACT_LEVEL := 2

  function TotalFileSize(fs: seq<File>): nat {
    if fs == [] then 0 else TotalFileSize(fs[..|fs| - 1]) + fs[|fs| - 1].size
  }

  lemma {:induction false} SizesAdd(a: seq<File>, b: seq<File>)
    ensures TotalFileSize([]) == 0 && TotalFileSize(a + b) == TotalFileSize(a) + TotalFileSize(b)
    ensures |b| == 1 ==> TotalFileSize(b) == b[0].size
  {
    if b == [] {
      assert a + b == a;
    } else {
      assert (a + b)[..|a + b| - 1] == a + b[..|b| - 1];
      SizesAdd(a, b[..|b| - 1]);
    }
  }

  // The limits are multiples of the option max_file_size.
  function MaxGrandParentOverlapBytes(maxFileSize: nat): nat { 10 * maxFileSize }

  function ExpandedCompactionByteSizeLimit(maxFileSize: nat): nat { 25 * maxFileSize }

  ghost predicate OverlapInLevel(v: Version, l: nat, lo: UserKey, hi: UserKey)
    requires l < |v.levels|
  {
    exists f :: f in v.levels[l] && Overlaps(f, Some(lo), Some(hi))
  }

  /** PickLevelForMemTableOutput */

  // Nothing down to the level overlaps, unless it is level 0, and what is two levels below each step down is
  // not too much; the next step down would not do, or two levels are the limit.
  ghost predicate SuitsMemTable(v: Version, lo: UserKey, hi: UserKey, maxFileSize: nat, level: nat)
    requires |v.levels| == NUM_LEVELS && level <= 2
  {
    && (level > 0 ==> forall l: nat :: l <= level ==> !OverlapInLevel(v, l, lo, hi))
    && (forall l: nat :: 2 <= l < level + 2 ==> TotalFileSize(Overlapping(v.levels[l], Some(lo), Some(hi))) <= 10 * maxFileSize)
    && (!OverlapInLevel(v, 0, lo, hi) && level < 2 ==>
          || OverlapInLevel(v, level + 1, lo, hi)
          || TotalFileSize(Overlapping(v.levels[level + 2], Some(lo), Some(hi))) > 10 * maxFileSize)
  }

  method PickLevelForMemTableOutput(v: Version, lo: UserKey, hi: UserKey, maxFileSize: nat) returns (level: nat)
    requires Shaped(v)
    ensures level <= 2 && SuitsMemTable(v, lo, hi, maxFileSize, level)
  {
    level := 0;
    var overlap := SomeFileOverlapsRange(false, v.levels[0], Some(lo), Some(hi));
    if !overlap {
      while level < MAX_MEM_COMPACT_LEVEL
        invariant level <= MAX_MEM_COMPACT_LEVEL
        invariant forall l: nat :: l <= level ==> !OverlapInLevel(v, l, lo, hi)
        invariant forall l: nat :: 2 <= l < level + 2 ==> TotalFileSize(Overlapping(v.levels[l], Some(lo), Some(hi))) <= 10 * maxFileSize
      {
        overlap := SomeFileOverlapsRange(true, v.levels[level + 1], Some(lo), Some(hi));
        if overlap {
          return;
        }
        if level + 2 < NUM_LEVELS {
          var overlaps, _, _ := GetOverlappingInputs(false, v.levels[level + 2], Some(lo), Some(hi));
          if TotalFileSize(overlaps) > MaxGrandParentOverlapBytes(maxFileSize) {
            return;
          }
        }
        level := level + 1;
      }
    }
  }

  /** GetRange */

  ghost predicate IsSmallest(fs: seq<File>, k: IKey) {
    (exists f :: f in fs && f.smallest == k) && forall f :: f in fs ==> AtMost(k, f.smallest)
  }

  ghost predicate IsLargest(fs: seq<File>, k: IKey) {
    (exists f :: f in fs && f.largest == k) && forall f :: f in fs ==> AtMost(f.largest, k)
  }

  method GetRange(inputs: seq<File>) returns (smallest: IKey, largest: IKey)
    requires inputs != []
    ensures IsSmallest(inputs, smallest) && IsLargest(inputs, largest)
  {
    smallest, largest := inputs[0].smallest, inputs[0].largest;
    for i := 1 to |inputs|
      invariant exists j :: 0 <= j < i && inputs[j].smallest == smallest
      invariant exists j :: 0 <= j < i && inputs[j].largest == largest
      invariant forall j :: 0 <= j < i ==> AtMost(smallest, inputs[j].smallest) && AtMost(inputs[j].largest, largest)
    {
      if Less(inputs[i].smallest, smallest) {
        smallest := inputs[i].smallest;
      }
      if Less(largest, inputs[i].largest) {
        largest := inputs[i].largest;
      }
    }
  }

  /** AddBoundaryInputs */

  // f starts right after k with more, older entries of k's user key.
  predicate IsBoundary(f: File, k: IKey) {
    Less(k, f.smallest) && f.smallest.ukey == k.ukey
  }

  ghost predicate NoBoundary(levelFiles: seq<File>, k: IKey) {
    forall f :: f in levelFiles ==> !IsBoundary(f, k)
  }

  method FindSmallestBoundaryFile(levelFiles: seq<File>, largest: IKey) returns (r: Option<File>)
    ensures r == None ==> NoBoundary(levelFiles, largest)
    ensures r.Some? ==> r.value in levelFiles && IsBoundary(r.value, largest)
    ensures r.Some? ==> forall f :: f in levelFiles && IsBoundary(f, largest) ==> AtMost(r.value.smallest, f.smallest)
  {
    r := None;
    for i := 0 to |levelFiles|
      invariant r == None ==> forall j :: 0 <= j < i ==> !IsBoundary(levelFiles[j], largest)
      invariant r.Some? ==> r.value in levelFiles && IsBoundary(r.value, largest)
      invariant r.Some? ==> forall j :: 0 <= j < i && IsBoundary(levelFiles[j], largest) ==> AtMost(r.value.smallest, levelFiles[j].smallest)
    {
      var f := levelFiles[i];
      if IsBoundary(f, largest) {
        if r == None || Less(f.smallest, r.value.smallest) {
          r := Some(f);
        }
      }
    }
  }

  ghost predicate IsSlice(files: seq<File>, a: nat, b: nat, part: seq<File>) {
    a < b <= |files| && part == files[a..b]
  }

  // In a sorted level the smallest boundary file of a slice is the file right after it.
  lemma BoundaryIsNext(files: seq<File>, b: nat, f: File)
    requires SortedFiles(files) && 0 < b <= |files|
    requires f in files && IsBoundary(f, files[b - 1].largest)
    requires forall g :: g in files && IsBoundary(g, files[b - 1].largest) ==> AtMost(f.smallest, g.smallest)
    ensures b < |files| && f == files[b]
  {
    var j :| 0 <= j < |files| && files[j] == f;
    assert ValidFile(f) && ValidFile(files[b - 1]);
    FileBounds(files[b - 1], files[b - 1].table[0]);
    if j < b - 1 {
      FileBounds(f, f.table[0]);
      assert false;
    }
    if j == b - 1 {
      assert false;
    }
    if j > b {
      assert ValidFile(files[b]);
      FileBounds(files[b], files[b].table[0]);
      assert Less(files[b - 1].largest, files[b].smallest);
      assert Less(files[b].largest, f.smallest);
      assert IsBoundary(files[b], files[b - 1].largest);
      assert false;
    }
  }

  lemma SliceLargest(files: seq<File>, a: nat, b: nat, part: seq<File>)
    requires SortedFiles(files) && IsSlice(files, a, b, part)
    ensures IsLargest(part, files[b - 1].largest)
  {
    assert part[b - 1 - a] == files[b - 1];
    forall f | f in part
      ensures AtMost(f.largest, files[b - 1].largest)
    {
      var j :| 0 <= j < |part| && part[j] == f;
      assert f == files[a + j] && ValidFile(files[b - 1]) && ValidFile(f);
      FileBounds(files[b - 1], files[b - 1].table[0]);
    }
  }

  ghost function StartAfter(files: seq<File>, k: IKey): set<nat> {
    set i | 0 <= i < |files| && Less(k, files[i].smallest)
  }

  method FindLargestKey(files: seq<File>) returns (r: Option<IKey>)
    ensures r == None <==> files == []
    ensures r.Some? ==> IsLargest(files, r.value)
  {
    if files == [] {
      return None;
    }
    var largest := files[0].largest;
    for i := 1 to |files|
      invariant exists j :: 0 <= j < i && files[j].largest == largest
      invariant forall j :: 0 <= j < i ==> AtMost(files[j].largest, largest)
    {
      if Less(largest, files[i].largest) {
        largest := files[i].largest;
      }
    }
    return Some(largest);
  }

  ghost predicate Extends(levelFiles: seq<File>, files: seq<File>, r: seq<File>) {
    (forall f :: f in files ==> f in r) && (forall f :: f in r ==> f in files || f in levelFiles)
  }

  // r, with the given largest key, was reached from files; if a < e it is the slice [a, e) of a sorted level.
  ghost predicate Reached(levelFiles: seq<File>, files: seq<File>, r: seq<File>, largest: IKey, a: nat, e: nat) {
    && Extends(levelFiles, files, r)
    && IsLargest(r, largest)
    && (a < e ==> SortedFiles(levelFiles) && IsSlice(levelFiles, a, e, r) && largest == levelFiles[e - 1].largest)
  }

  // The file at k goes on with the last user key of the file before it.
  predicate Continues(files: seq<File>, k: nat) {
    0 < k < |files| && files[k].smallest.ukey == files[k - 1].largest.ukey
  }

  ghost predicate Chain(files: seq<File>, b: nat, e: nat) {
    forall k: nat :: b <= k < e ==> Continues(files, k)
  }

  lemma ReachedAtStart(levelFiles: seq<File>, files: seq<File>, largest: IKey, a: nat, b: nat)
    requires IsLargest(files, largest) && (a < b ==> SortedFiles(levelFiles) && IsSlice(levelFiles, a, b, files))
    ensures Reached(levelFiles, files, files, largest, a, b) && Chain(levelFiles, b, b)
  {
    hide SortedFiles, IsLargest;
    if a < b {
      SliceLargest(levelFiles, a, b, files);
      LargestUnique(files, largest, levelFiles[b - 1].largest);
    }
  }

  lemma BoundaryStep(levelFiles: seq<File>, files: seq<File>, r: seq<File>, largest: IKey, a: nat, e: nat, f: File)
    requires ValidFiles(levelFiles) && Reached(levelFiles, files, r, largest, a, e)
    requires f in levelFiles && IsBoundary(f, largest)
    requires forall g :: g in levelFiles && IsBoundary(g, largest) ==> AtMost(f.smallest, g.smallest)
    ensures Reached(levelFiles, files, r + [f], f.largest, a, if a < e then e + 1 else e)
    ensures a < e ==> Continues(levelFiles, e)
    ensures StartAfter(levelFiles, f.largest) < StartAfter(levelFiles, largest)
  {
    hide IsLargest, SortedFiles, NoBoundary, Sorted;
    assert ValidFile(f);
    FileBounds(f, f.table[0]);
    hide ValidFile, ValidFiles;
    var i :| 0 <= i < |levelFiles| && levelFiles[i] == f;
    assert i in StartAfter(levelFiles, largest) && i !in StartAfter(levelFiles, f.largest);
    LargestOfMore(r, largest, f);
    if a < e {
      BoundaryIsNext(levelFiles, e, f);
      assert levelFiles[a..e + 1] == levelFiles[a..e] + [levelFiles[e]];
    }
  }

  lemma LargestUnique(fs: seq<File>, j: IKey, k: IKey)
    requires IsLargest(fs, j) && IsLargest(fs, k)
    ensures j == k
  {
  }

  // The ghost range [a, b) is where files sits in a sorted level; a >= b stands for "not a slice".
  method AddBoundaryInputs(levelFiles: seq<File>, files: seq<File>, ghost a: nat, ghost b: nat)
    returns (r: seq<File>, ghost firstKey: IKey, ghost lastKey: IKey, ghost e: nat)
    requires ValidFiles(levelFiles)
    requires a < b ==> SortedFiles(levelFiles) && IsSlice(levelFiles, a, b, files)
    ensures files == [] ==> r == []
    ensures files != [] ==> Reached(levelFiles, files, r, lastKey, a, e) && (a < b ==> b <= e) && (a >= b ==> a >= e)
    ensures files != [] ==> NoBoundary(levelFiles, lastKey)
    ensures files != [] && a < b ==> Chain(levelFiles, b, e) && !Continues(levelFiles, e)
    ensures files != [] ==> IsLargest(files, firstKey) && (NoBoundary(levelFiles, firstKey) ==> r == files)
  {
    r, e := files, b;
    firstKey, lastKey := IKey(0, 0, Deletion), IKey(0, 0, Deletion);
    var first := FindLargestKey(files);
    if first == None {
      return;
    }
    var largest := first.value;
    ReachedAtStart(levelFiles, files, largest, a, b);
    hide Reached, Chain, ValidFiles, SortedFiles, IsLargest, NoBoundary, IsSlice, StartAfter;
    var searching := true;
    while searching
      invariant Reached(levelFiles, files, r, largest, a, e) && (a < b ==> b <= e) && (a >= b ==> e == b)
      invariant a < b ==> Chain(levelFiles, b, e)
      invariant (r == files && largest == first.value) || !NoBoundary(levelFiles, first.value)
      invariant !searching ==> NoBoundary(levelFiles, largest)
      decreases searching, StartAfter(levelFiles, largest)
    {
      var next := FindSmallestBoundaryFile(levelFiles, largest);
      if next.Some? {
        BoundaryStep(levelFiles, files, r, largest, a, e, next.value);
        if a < b {
          ChainStep(levelFiles, b, e);
        }
        HasBoundary(levelFiles, next.value, largest);
        r, largest, e := r + [next.value], next.value.largest, if a < e then e + 1 else e;
      } else {
        searching := false;
      }
    }
    firstKey, lastKey := first.value, largest;
    if a < b {
      NothingContinues(levelFiles, files, r, lastKey, a, e);
    }
  }

  lemma ChainStep(files: seq<File>, b: nat, e: nat)
    requires Chain(files, b, e) && Continues(files, e)
    ensures Chain(files, b, e + 1)
  {
  }

  lemma HasBoundary(files: seq<File>, f: File, k: IKey)
    requires f in files && IsBoundary(f, k)
    ensures !NoBoundary(files, k)
  {
  }

  lemma NothingContinues(files: seq<File>, start: seq<File>, r: seq<File>, largest: IKey, a: nat, e: nat)
    requires Reached(files, start, r, largest, a, e) && a < e && NoBoundary(files, largest)
    ensures !Continues(files, e)
  {
    if e < |files| {
      assert Less(files[e - 1].largest, files[e].smallest) && files[e] in files;
    }
  }

  lemma LargestOfMore(fs: seq<File>, k: IKey, f: File)
    requires IsLargest(fs, k) && Less(k, f.largest)
    ensures IsLargest(fs + [f], f.largest)
  {
  }
}
