/** Completing the input files of a compaction: boundary files, the next level, and expansion. */
module CompactionInputs {
  import opened Keys
  import opened Wrappers
  import opened Files
  import opened Versions
  import opened Compactions

  ghost predicate Unrepeated(fs: seq<File>) {
    forall i, j :: 0 <= i < j < |fs| ==> fs[i] != fs[j]
  }

  // Where a compaction of `level` may start: at level 0 a set closed under user-key overlap,
  // elsewhere a run of neighbouring files.
  ghost predicate StartInputs(v: Version, level: nat, fs: seq<File>)
    requires |v.levels| == NUM_LEVELS && level < NUM_LEVELS
  {
    && fs != [] && (forall f :: f in fs ==> f in v.levels[level])
    && (level == 0 ==> Unrepeated(fs) && forall f, g :: f in fs && g in v.levels[0] && RangesMeet(f, g) ==> g in fs)
    && (level > 0 ==> exists a, b :: IsSlice(v.levels[level], a, b, fs))
  }

  // Additionally, the file that follows the run does not continue the run's last user key.
  ghost predicate ClosedInputs(v: Version, level: nat, fs: seq<File>)
    requires |v.levels| == NUM_LEVELS && level < NUM_LEVELS
  {
    && StartInputs(v, level, fs)
    && (level > 0 ==> exists a, b :: IsSlice(v.levels[level], a, b, fs) && NoBoundary(v.levels[level], v.levels[level][b - 1].largest))
  }

  // lower is every file of the next level that meets the user-key range of upper.
  ghost predicate LowerInputs(v: Version, level: nat, upper: seq<File>, lower: seq<File>)
    requires |v.levels| == NUM_LEVELS && level + 1 < NUM_LEVELS
  {
    exists lo, hi :: IsSmallest(upper, lo) && IsLargest(upper, hi)
                     && lower == Overlapping(v.levels[level + 1], Some(lo.ukey), Some(hi.ukey))
  }

  // A file after a closed run of a sorted level holds none of the run's user keys.
  lemma AfterRunIsDisjoint(files: seq<File>, a: nat, b: nat, run: seq<File>, i: nat, g: File, x: Entry, y: Entry)
    requires SortedFiles(files) && IsSlice(files, a, b, run) && NoBoundary(files, files[b - 1].largest)
    requires b <= i < |files| && x in files[i].table
    requires g in run && y in g.table
    ensures x.key.ukey > y.key.ukey
  {
    var f, last := files[i], files[b - 1];
    assert ValidFile(f) && ValidFile(g) && ValidFile(last);
    FileBounds(f, x);
    FileBounds(g, y);
    SliceLargest(files, a, b, run);
    assert AtMost(g.largest, last.largest);
    assert Less(last.largest, f.smallest) && !IsBoundary(f, last.largest);
  }

  // Outside a closed run of a sorted level, every file is newer than the run.
  lemma OutsideRunIsNewer(files: seq<File>, a: nat, b: nat, run: seq<File>, f: File, g: File, x: Entry, y: Entry)
    requires SortedFiles(files) && IsSlice(files, a, b, run) && NoBoundary(files, files[b - 1].largest)
    requires f in files && f !in run && x in f.table
    requires g in run && y in g.table && x.key.ukey == y.key.ukey
    ensures Less(x.key, y.key)
  {
    var i :| 0 <= i < |files| && files[i] == f;
    var j :| 0 <= j < |run| && run[j] == g;
    assert forall m :: a <= m < b ==> files[m] == run[m - a];
    if i >= b {
      AfterRunIsDisjoint(files, a, b, run, i, g, x, y);
    } else {
      assert Less(files[i].largest, files[a + j].smallest);
      assert ValidFile(f) && ValidFile(g);
      FileBounds(f, x);
      FileBounds(g, y);
    }
  }

  lemma Level0InputsAreDisjoint(v: Version, inputs: seq<File>, f: File, g: File, x: Entry, y: Entry)
    requires Shaped(v) && StartInputs(v, 0, inputs)
    requires f in v.levels[0] && f !in inputs && x in f.table
    requires g in inputs && y in g.table
    ensures x.key.ukey != y.key.ukey
  {
  }

  lemma OlderInOrder(v: Version, level: nat, f: File, g: File, x: Entry, y: Entry)
    requires Distinct(Entries(v)) && level < |v.levels|
    requires f in v.levels[level] && g in v.levels[level] && x in f.table && y in g.table
    requires x.key.ukey == y.key.ukey && Less(x.key, y.key)
    ensures x.key.seqno > y.key.seqno
  {
  }

  lemma OutsideClosedIsNewer(v: Version, level: nat, inputs: seq<File>, f: File, g: File, x: Entry, y: Entry)
    requires Shaped(v) && Distinct(Entries(v)) && level < NUM_LEVELS && ClosedInputs(v, level, inputs)
    requires f in v.levels[level] && f !in inputs && x in f.table
    requires g in inputs && y in g.table && x.key.ukey == y.key.ukey
    ensures x.key.seqno > y.key.seqno
  {
    hide Distinct, Entries;
    if level == 0 {
      Level0InputsAreDisjoint(v, inputs, f, g, x, y);
    } else {
      var a: nat, b: nat :| IsSlice(v.levels[level], a, b, inputs) && NoBoundary(v.levels[level], v.levels[level][b - 1].largest);
      hide SortedFiles, ValidFiles, NoBoundary;
      OutsideRunIsNewer(v.levels[level], a, b, inputs, f, g, x, y);
      OlderInOrder(v, level, f, g, x, y);
    }
  }

  /** No file left behind at the level being compacted is older than an input for any user key. */
  lemma ClosedInputsAreOldest(v: Version, level: nat, inputs: seq<File>, f: File, g: File)
    requires Shaped(v) && Distinct(Entries(v)) && level < NUM_LEVELS && ClosedInputs(v, level, inputs)
    requires f in v.levels[level] && f !in inputs && g in inputs
    ensures NewerThan(f, g)
  {
    hide Shaped, Distinct, ClosedInputs;
    forall x, y | x in f.table && y in g.table && x.key.ukey == y.key.ukey
      ensures x.key.seqno > y.key.seqno
    {
      OutsideClosedIsNewer(v, level, inputs, f, g, x, y);
    }
  }

  lemma Level0HasNoBoundary(v: Version, inputs: seq<File>, k: IKey)
    requires Shaped(v) && StartInputs(v, 0, inputs) && IsLargest(inputs, k)
    ensures NoBoundary(v.levels[0], k)
  {
  }

  lemma OverlapHasNoHoles(files: seq<File>, lo: Option<UserKey>, hi: Option<UserKey>, i: nat, j: nat, k: nat)
    requires SortedFiles(files) && i < j < k < |files|
    requires Overlaps(files[i], lo, hi) && Overlaps(files[k], lo, hi)
    ensures Overlaps(files[j], lo, hi)
  {
    assert ValidFile(files[j]);
    FileBounds(files[j], files[j].table[0]);
    assert Less(files[i].largest, files[j].smallest) && Less(files[j].largest, files[k].smallest);
  }

  lemma SortedPrefix(files: seq<File>, n: nat)
    requires SortedFiles(files) && n <= |files|
    ensures SortedFiles(files[..n])
  {
  }

  lemma SliceOfPrefix(files: seq<File>, n: nat, a: nat, b: nat)
    requires a <= b <= n <= |files|
    ensures files[..n][a..b] == files[a..b]
  {
  }

  lemma PrefixOfSlice(files: seq<File>, a: nat, b: nat, n: nat)
    requires a <= b <= |files| && n <= b - a
    ensures files[a..b][..n] == files[a..a + n]
  {
  }

  lemma OverlappingStep(files: seq<File>, lo: Option<UserKey>, hi: Option<UserKey>)
    ensures files == [] ==> Overlapping(files, lo, hi) == []
    ensures files != [] ==>
      var n := |files| - 1;
      Overlapping(files, lo, hi) == Overlapping(files[..n], lo, hi) + if Overlaps(files[n], lo, hi) then [files[n]] else []
  {
  }

  lemma SliceGrows(files: seq<File>, a: nat, n: nat)
    requires a <= n < |files|
    ensures files[a..n] + [files[n]] == files[a..n + 1]
  {
  }

  /** The files of a sorted level that meet a range are neighbours. */
  lemma {:induction false} OverlappingIsSlice(files: seq<File>, lo: Option<UserKey>, hi: Option<UserKey>) returns (a: nat, b: nat)
    requires SortedFiles(files)
    ensures a <= b <= |files| && Overlapping(files, lo, hi) == files[a..b]
    ensures forall i :: 0 <= i < |files| ==> (Overlaps(files[i], lo, hi) <==> a <= i < b)
  {
    hide SortedFiles, Overlaps, IsSlice, Overlapping;
    OverlappingStep(files, lo, hi);
    if files == [] {
      a, b := 0, 0;
    } else {
      var n := |files| - 1;
      var rest := files[..n];
      SortedPrefix(files, n);
      a, b := OverlappingIsSlice(rest, lo, hi);
      SliceOfPrefix(files, n, a, b);
      if Overlaps(files[n], lo, hi) {
        if a < b < n {
          OverlapHasNoHoles(files, lo, hi, b - 1, b, n);
          assert false;
        }
        a, b := if a == b then n else a, n;
        SliceGrows(files, a, n);
        b := n + 1;
      }
    }
  }

  // A wider range selects more; if it selects as many, it selects the same files.
  lemma {:induction false} WiderOverlap(files: seq<File>, lo: UserKey, hi: UserKey, lo': UserKey, hi': UserKey)
    requires lo' <= lo && hi <= hi'
    ensures |Overlapping(files, Some(lo), Some(hi))| <= |Overlapping(files, Some(lo'), Some(hi'))|
    ensures |Overlapping(files, Some(lo), Some(hi))| == |Overlapping(files, Some(lo'), Some(hi'))|
            ==> Overlapping(files, Some(lo), Some(hi)) == Overlapping(files, Some(lo'), Some(hi'))
  {
    if files != [] {
      WiderOverlap(files[..|files| - 1], lo, hi, lo', hi');
    }
  }

  lemma FilesDiffer(files: seq<File>)
    requires BySmallestKey(files)
    ensures Unrepeated(files)
  {
  }

  lemma {:induction false} OverlappingUnrepeated(files: seq<File>, lo: Option<UserKey>, hi: Option<UserKey>)
    requires Unrepeated(files)
    ensures Unrepeated(Overlapping(files, lo, hi))
  {
    if files != [] {
      var rest := files[..|files| - 1];
      OverlappingUnrepeated(rest, lo, hi);
      OverlappingElements(rest, lo, hi);
      assert forall f :: f in rest ==> f != files[|files| - 1];
      OverlappingStep(files, lo, hi);
      hide Overlapping;
      var found := Overlapping(rest, lo, hi);
      assert forall i :: 0 <= i < |found| ==> found[i] in found;
    }
  }

  // Files found by GetOverlappingInputs are a legal start.
  lemma OverlappingIsStart(v: Version, level: nat, lo: Option<UserKey>, hi: Option<UserKey>, inputs: seq<File>)
    requires Shaped(v) && level < NUM_LEVELS
    requires inputs == Overlapping(v.levels[level], lo, hi) && inputs != []
    requires level == 0 ==> forall f :: f in inputs ==> Within(f, lo, hi)
    ensures StartInputs(v, level, inputs)
  {
    OverlappingElements(v.levels[level], lo, hi);
    if level == 0 {
      FilesDiffer(v.levels[0]);
      OverlappingUnrepeated(v.levels[0], lo, hi);
    }
    if level > 0 {
      var a, b := OverlappingIsSlice(v.levels[level], lo, hi);
      assert IsSlice(v.levels[level], a, b, inputs);
    }
  }

  // What a search for the files of [begin, end] selects: at level 0 the least set that has with a file
  // every file that meets it, elsewhere the files that meet the range, in order.
  ghost predicate Selected(v: Version, level: nat, begin: Option<UserKey>, end: Option<UserKey>, fs: seq<File>)
    requires |v.levels| == NUM_LEVELS && level < NUM_LEVELS
  {
    && (level > 0 ==> fs == Overlapping(v.levels[level], begin, end))
    && (level == 0 ==> ClosedOver(v.levels[0], begin, end, Members(fs))
                       && forall t: set<File> :: ClosedOver(v.levels[0], begin, end, t) ==> Members(fs) <= t)
  }

  // r is start with the files after it that go on with its last user key, up to the first that does not.
  ghost predicate Closure(v: Version, level: nat, start: seq<File>, r: seq<File>)
    requires |v.levels| == NUM_LEVELS && level < NUM_LEVELS
  {
    && (level == 0 ==> r == start)
    && (level > 0 ==> exists a, b, e :: ClosureAt(v.levels[level], a, b, e, start, r))
  }

  ghost predicate ClosureAt(files: seq<File>, a: nat, b: nat, e: nat, start: seq<File>, r: seq<File>) {
    && IsSlice(files, a, b, start) && b <= e && IsSlice(files, a, e, r)
    && Chain(files, b, e) && !Continues(files, e)
  }

  // AddBoundaryInputs closes any legal start.
  method CloseInputs(v: Version, level: nat, start: seq<File>) returns (r: seq<File>)
    requires Shaped(v) && level < NUM_LEVELS && StartInputs(v, level, start)
    ensures ClosedInputs(v, level, r) && Closure(v, level, start, r)
    ensures forall f :: f in start ==> f in r
  {
    ghost var a: nat, b: nat := 0, 0;
    if level > 0 {
      a, b :| IsSlice(v.levels[level], a, b, start);
    }
    ghost var first, last, e;
    r, first, last, e := AddBoundaryInputs(v.levels[level], start, a, b);
    if level == 0 {
      Level0HasNoBoundary(v, start, first);
    } else {
      assert ClosureAt(v.levels[level], a, b, e, start, r);
    }
  }

  class Compaction {
    const version: Version
    const level: nat
    var inputs0: seq<File>
    var inputs1: seq<File>
    var grandparents: seq<File>
    var levelPtrs: seq<nat>

    constructor (version: Version, level: nat, inputs0: seq<File>)
      ensures this.version == version && this.level == level && this.inputs0 == inputs0
      ensures inputs1 == [] && grandparents == [] && levelPtrs == seq(NUM_LEVELS, _ => 0)
    {
      this.version, this.level, this.inputs0 := version, level, inputs0;
      inputs1, grandparents := [], [];
      levelPtrs := seq(NUM_LEVELS, _ => 0);
    }

    ghost predicate Ready()
      reads this
    {
      && Shaped(version) && level + 1 < NUM_LEVELS
      && ClosedInputs(version, level, inputs0)
      && LowerInputs(version, level, inputs0, inputs1)
    }

    // largest becomes the compaction pointer of the level.
    method SetupOtherInputs(maxFileSize: nat) returns (largest: IKey, ghost base: seq<File>, ghost wider: seq<File>)
      requires Shaped(version) && level + 1 < NUM_LEVELS
      requires StartInputs(version, level, inputs0)
      modifies this
      ensures Ready() && levelPtrs == old(levelPtrs)
      ensures IsLargest(inputs0, largest)
      ensures Closure(version, level, old(inputs0), base)
      ensures forall f :: f in old(inputs0) ==> f in inputs0
      ensures ExpandedFrom(version, level, base, wider, inputs0, inputs1, maxFileSize)
      ensures level + 2 < NUM_LEVELS ==> LowerInputs(version, level + 1, inputs0 + inputs1, grandparents)
    {
      hide Shaped, ClosedInputs, StartInputs, LowerInputs, ExpandedFrom, Closure;
      var gps;
      inputs0, inputs1, gps, largest, base, wider := CompleteInputs(version, level, inputs0, maxFileSize);
      if level + 2 < NUM_LEVELS {
        grandparents := gps;
      }
    }

    // Every file already passed by a level pointer lies before u.
    ghost predicate PtrsBehind(u: UserKey)
      reads this
    {
      && |levelPtrs| == NUM_LEVELS && |version.levels| == NUM_LEVELS
      && forall l: nat :: level + 2 <= l < NUM_LEVELS ==>
           levelPtrs[l] <= |version.levels[l]| && forall i :: 0 <= i < levelPtrs[l] ==> version.levels[l][i].largest.ukey < u
    }

    // Called with user keys in non-decreasing order.
    method IsBaseLevelForKey(u: UserKey) returns (base: bool)
      requires Shaped(version) && level + 1 < NUM_LEVELS && PtrsBehind(u)
      modifies this`levelPtrs
      ensures PtrsBehind(u)
      ensures base <==> BaseLevelFor(version, level, u)
    {
      for l := level + 2 to NUM_LEVELS
        invariant PtrsBehind(u)
        invariant forall m: nat :: level + 2 <= m < l ==> NotCovered(version.levels[m], u)
      {
        var files := version.levels[l];
        while levelPtrs[l] < |files| && u > files[levelPtrs[l]].largest.ukey
          invariant PtrsBehind(u)
          decreases |files| - levelPtrs[l]
        {
          levelPtrs := levelPtrs[l := levelPtrs[l] + 1];
        }
        if levelPtrs[l] < |files| && u >= files[levelPtrs[l]].smallest.ukey {
          assert files[levelPtrs[l]] in files;
          return false;
        }
        GapIsNotCovered(files, u, levelPtrs[l]);
      }
      return true;
    }

    predicate IsTrivialMove(maxFileSize: nat)
      reads this
    {
      |inputs0| == 1 && |inputs1| == 0 && TotalFileSize(grandparents) <= MaxGrandParentOverlapBytes(maxFileSize)
    }
  }

  ghost predicate NotCovered(files: seq<File>, u: UserKey) {
    forall f :: f in files ==> !(f.smallest.ukey <= u <= f.largest.ukey)
  }

  // No file two or more levels below can hold u.
  ghost predicate BaseLevelFor(v: Version, level: nat, u: UserKey)
    requires |v.levels| == NUM_LEVELS
  {
    forall l: nat :: level + 2 <= l < NUM_LEVELS ==> NotCovered(v.levels[l], u)
  }

  lemma GapIsNotCovered(files: seq<File>, u: UserKey, p: nat)
    requires SortedFiles(files) && p <= |files|
    requires forall i :: 0 <= i < p ==> files[i].largest.ukey < u
    requires p < |files| ==> u < files[p].smallest.ukey
    ensures NotCovered(files, u)
  {
    forall f | f in files
      ensures !(f.smallest.ukey <= u <= f.largest.ukey)
    {
      var i :| 0 <= i < |files| && files[i] == f;
      if i > p {
        assert ValidFile(files[p]);
        FileBounds(files[p], files[p].table[0]);
        assert Less(files[p].largest, files[i].smallest);
      }
    }
  }

  // The files of the level that meet the range of the inputs of both levels.
  ghost predicate WiderInputs(v: Version, level: nat, base: seq<File>, lower: seq<File>, wider: seq<File>)
    requires |v.levels| == NUM_LEVELS && level < NUM_LEVELS
  {
    exists lo, hi, found :: IsSmallest(base + lower, lo) && IsLargest(base + lower, hi)
                            && Selected(v, level, Some(lo.ukey), Some(hi.ukey), found) && Closure(v, level, found, wider)
  }

  // The lower inputs are those of base. The level contributes the wider inputs if they are more files, not
  // too large, and leave the lower inputs alone; otherwise just base.
  ghost predicate ExpandedFrom(v: Version, level: nat, base: seq<File>, wider: seq<File>, upper: seq<File>, lower: seq<File>,
                               maxFileSize: nat)
    requires |v.levels| == NUM_LEVELS && level + 1 < NUM_LEVELS
  {
    && ClosedInputs(v, level, base) && LowerInputs(v, level, base, lower)
    && (lower != [] ==> WiderInputs(v, level, base, lower, wider))
    && upper == if lower != [] && |wider| > |base| && TotalFileSize(lower) + TotalFileSize(wider) < 25 * maxFileSize
                   && LowerInputs(v, level, wider, lower) then wider else base
  }

  method CompleteInputs(v: Version, level: nat, start: seq<File>, maxFileSize: nat)
    returns (upper: seq<File>, lower: seq<File>, gps: seq<File>, largest: IKey, ghost base: seq<File>, ghost wider: seq<File>)
    requires Shaped(v) && level + 1 < NUM_LEVELS && StartInputs(v, level, start)
    ensures ClosedInputs(v, level, upper) && LowerInputs(v, level, upper, lower)
    ensures IsLargest(upper, largest)
    ensures Closure(v, level, start, base) && forall f :: f in start ==> f in upper
    ensures ExpandedFrom(v, level, base, wider, upper, lower, maxFileSize)
    ensures level + 2 < NUM_LEVELS ==> LowerInputs(v, level + 1, upper + lower, gps)
  {
    LevelsValid(v);
    hide Shaped, ClosedInputs, WiderInputs, Overlapping, ClosedOver, StartInputs, Closure, ExpandedFrom, IsSmallest, IsLargest;
    var closed := CloseInputs(v, level, start);
    base := closed;
    ClosedNotEmpty(v, level, closed);
    upper, lower, wider := LevelAndNext(v, level, closed, maxFileSize);
    var smallest;
    smallest, largest := GetRange(upper);
    var allStart, allLimit := GetRange(upper + lower);
    gps := [];
    if level + 2 < NUM_LEVELS {
      ghost var lo, hi;
      gps, lo, hi := GetOverlappingInputs(false, v.levels[level + 2], Some(allStart.ukey), Some(allLimit.ukey));
    }
  }

  method LevelAndNext(v: Version, level: nat, base: seq<File>, maxFileSize: nat)
    returns (upper: seq<File>, lower: seq<File>, ghost wider: seq<File>)
    requires Shaped(v) && level + 1 < NUM_LEVELS && ClosedInputs(v, level, base)
    ensures ClosedInputs(v, level, upper) && LowerInputs(v, level, upper, lower)
    ensures (forall f :: f in base ==> f in upper) && ExpandedFrom(v, level, base, wider, upper, lower, maxFileSize)
  {
    LevelsValid(v);
    ClosedNotEmpty(v, level, base);
    hide Shaped, ClosedInputs, WiderInputs, Overlapping, ClosedOver, LowerInputs, IsSmallest, IsLargest, ExpandedFrom;
    wider := base;
    var smallest, largest := GetRange(base);
    ghost var lo, hi;
    upper := base;
    lower, lo, hi := GetOverlappingInputs(false, v.levels[level + 1], Some(smallest.ukey), Some(largest.ukey));
    LowerIs(v, level, base, smallest, largest, lower);
    if lower != [] {
      var allStart, allLimit := GetRange(base + lower);
      upper, lower, wider := Expand(v, level, base, lower, allStart, allLimit, maxFileSize);
    }
    ExpandedIs(v, level, base, wider, upper, lower, maxFileSize);
  }

  lemma LowerIs(v: Version, level: nat, upper: seq<File>, smallest: IKey, largest: IKey, lower: seq<File>)
    requires |v.levels| == NUM_LEVELS && level + 1 < NUM_LEVELS && IsSmallest(upper, smallest) && IsLargest(upper, largest)
    requires lower == Overlapping(v.levels[level + 1], Some(smallest.ukey), Some(largest.ukey))
    ensures LowerInputs(v, level, upper, lower)
  {
  }

  lemma ExpandedIs(v: Version, level: nat, base: seq<File>, wider: seq<File>, upper: seq<File>, lower: seq<File>, maxFileSize: nat)
    requires |v.levels| == NUM_LEVELS && level + 1 < NUM_LEVELS
    requires ClosedInputs(v, level, base) && LowerInputs(v, level, base, lower)
    requires lower != [] ==> WiderInputs(v, level, base, lower, wider)
    requires upper == (if lower != [] && |wider| > |base| && TotalFileSize(lower) + TotalFileSize(wider) < 25 * maxFileSize
                          && LowerInputs(v, level, wider, lower) then wider else base)
    ensures ExpandedFrom(v, level, base, wider, upper, lower, maxFileSize)
  {
  }

  lemma LevelsValid(v: Version)
    requires Shaped(v)
    ensures |v.levels| == NUM_LEVELS && forall l :: 0 <= l < NUM_LEVELS ==> ValidFiles(v.levels[l])
  {
  }

  lemma ClosedNotEmpty(v: Version, level: nat, inputs: seq<File>)
    requires |v.levels| == NUM_LEVELS && level < NUM_LEVELS && ClosedInputs(v, level, inputs)
    ensures inputs != []
  {
  }

  // Grow the inputs of the level when that leaves the inputs of the next level alone.
  method Expand(v: Version, level: nat, inputs0: seq<File>, inputs1: seq<File>, allStart: IKey, allLimit: IKey, maxFileSize: nat)
    returns (upper: seq<File>, lower: seq<File>, ghost wider: seq<File>)
    requires Shaped(v) && level + 1 < NUM_LEVELS
    requires ClosedInputs(v, level, inputs0) && LowerInputs(v, level, inputs0, inputs1)
    requires IsSmallest(inputs0 + inputs1, allStart) && IsLargest(inputs0 + inputs1, allLimit)
    ensures ClosedInputs(v, level, upper) && LowerInputs(v, level, upper, lower)
    ensures lower == inputs1
    ensures forall f :: f in inputs0 ==> f in upper
    ensures WiderInputs(v, level, inputs0, inputs1, wider)
    ensures upper == if |wider| > |inputs0| && TotalFileSize(inputs1) + TotalFileSize(wider) < 25 * maxFileSize
                        && LowerInputs(v, level, wider, inputs1) then wider else inputs0
  {
    hide Shaped, ClosedInputs, LowerInputs, IsSmallest, IsLargest, StartInputs, ClosedOver, Selected, Closure;
    LevelsValid(v);
    ClosedNotEmpty(v, level, inputs0);
    upper, lower := inputs0, inputs1;
    var expanded0, lo, hi := GetOverlappingInputs(level == 0, v.levels[level], Some(allStart.ukey), Some(allLimit.ukey));
    InputsAreFound(v, level, inputs0, inputs1, allStart, allLimit, lo, hi);
    assert inputs0[0] in expanded0;
    OverlappingIsStart(v, level, lo, hi, expanded0);
    FoundIsSelected(v, level, Some(allStart.ukey), Some(allLimit.ukey), expanded0);
    ghost var found := expanded0;
    expanded0 := CloseInputs(v, level, expanded0);
    wider := expanded0;
    if |expanded0| > |inputs0|
       && TotalFileSize(inputs1) + TotalFileSize(expanded0) < ExpandedCompactionByteSizeLimit(maxFileSize) {
      var newStart, newLimit := GetRange(expanded0);
      var expanded1, _, _ := GetOverlappingInputs(false, v.levels[level + 1], Some(newStart.ukey), Some(newLimit.ukey));
      LowerOf(v, level, expanded0, newStart, newLimit);
      if |expanded1| == |inputs1| {
        SameLowerInputs(v, level, inputs0, inputs1, expanded0, newStart, newLimit);
        upper, lower := expanded0, expanded1;
      }
    }
  }

  lemma FoundIsSelected(v: Version, level: nat, begin: Option<UserKey>, end: Option<UserKey>, fs: seq<File>)
    requires |v.levels| == NUM_LEVELS && level < NUM_LEVELS
    requires level > 0 ==> fs == Overlapping(v.levels[level], begin, end)
    requires level == 0 ==> ClosedOver(v.levels[0], begin, end, Members(fs))
    requires level == 0 ==> forall t: set<File> :: ClosedOver(v.levels[0], begin, end, t) ==> Members(fs) <= t
    ensures Selected(v, level, begin, end, fs)
  {
  }

  lemma SmallestUnique(fs: seq<File>, j: IKey, k: IKey)
    requires IsSmallest(fs, j) && IsSmallest(fs, k)
    ensures j == k
  {
  }

  // The lower inputs belong to the range of the upper ones, whatever names it.
  lemma LowerOf(v: Version, level: nat, upper: seq<File>, smallest: IKey, largest: IKey)
    requires |v.levels| == NUM_LEVELS && level + 1 < NUM_LEVELS && IsSmallest(upper, smallest) && IsLargest(upper, largest)
    ensures forall lower :: LowerInputs(v, level, upper, lower) ==>
      lower == Overlapping(v.levels[level + 1], Some(smallest.ukey), Some(largest.ukey))
  {
    hide IsSmallest, IsLargest, Overlapping;
    forall lower | LowerInputs(v, level, upper, lower)
      ensures lower == Overlapping(v.levels[level + 1], Some(smallest.ukey), Some(largest.ukey))
    {
      var lo, hi :| IsSmallest(upper, lo) && IsLargest(upper, hi)
                    && lower == Overlapping(v.levels[level + 1], Some(lo.ukey), Some(hi.ukey));
      SmallestUnique(upper, lo, smallest);
      LargestUnique(upper, hi, largest);
    }
  }

  lemma InputsAreFound(v: Version, level: nat, inputs0: seq<File>, inputs1: seq<File>, allStart: IKey, allLimit: IKey,
                       lo: Option<UserKey>, hi: Option<UserKey>)
    requires Shaped(v) && level + 1 < NUM_LEVELS && ClosedInputs(v, level, inputs0)
    requires IsSmallest(inputs0 + inputs1, allStart) && IsLargest(inputs0 + inputs1, allLimit)
    requires Widens(lo, hi, Some(allStart.ukey), Some(allLimit.ukey))
    ensures forall f :: f in inputs0 ==> f in Overlapping(v.levels[level], lo, hi)
  {
    OverlappingElements(v.levels[level], lo, hi);
    forall f | f in inputs0
      ensures Overlaps(f, lo, hi)
    {
      assert f in inputs0 + inputs1 && ValidFile(f);
      FileBounds(f, f.table[0]);
    }
  }

  lemma SameLowerInputs(v: Version, level: nat, inputs0: seq<File>, inputs1: seq<File>, upper: seq<File>, newStart: IKey, newLimit: IKey)
    requires |v.levels| == NUM_LEVELS && level + 1 < NUM_LEVELS
    requires LowerInputs(v, level, inputs0, inputs1)
    requires forall f :: f in inputs0 ==> f in upper
    requires IsSmallest(upper, newStart) && IsLargest(upper, newLimit)
    requires |Overlapping(v.levels[level + 1], Some(newStart.ukey), Some(newLimit.ukey))| == |inputs1|
    ensures Overlapping(v.levels[level + 1], Some(newStart.ukey), Some(newLimit.ukey)) == inputs1
    ensures LowerInputs(v, level, upper, inputs1)
  {
    var lo, hi :| IsSmallest(inputs0, lo) && IsLargest(inputs0, hi)
                  && inputs1 == Overlapping(v.levels[level + 1], Some(lo.ukey), Some(hi.ukey));
    WiderOverlap(v.levels[level + 1], lo.ukey, hi.ukey, newStart.ukey, newLimit.ukey);
  }

  /** Where compactions start */

  // A size compaction: the first file past the compaction pointer, wrapping around;
  // a seek compaction: the given file. `seekFile` is None for a size compaction.
  method PickCompaction(v: Version, level: nat, pointer: Option<IKey>, seekFile: Option<File>, maxFileSize: nat)
    returns (c: Compaction, largest: IKey, picked: File, ghost start: seq<File>, ghost base: seq<File>, ghost wider: seq<File>)
    requires Shaped(v) && level + 1 < NUM_LEVELS
    requires seekFile == None ==> v.levels[level] != []
    requires seekFile.Some? ==> seekFile.value in v.levels[level]
    ensures fresh(c) && c.Ready() && c.version == v && c.level == level && c.levelPtrs == seq(NUM_LEVELS, _ => 0)
    ensures PickedIn(v.levels[level], pointer, seekFile, picked)
    ensures if level > 0 then start == [picked] else Selected(v, 0, Some(picked.smallest.ukey), Some(picked.largest.ukey), start)
    ensures Closure(v, level, start, base) && ExpandedFrom(v, level, base, wider, c.inputs0, c.inputs1, maxFileSize)
    ensures picked in c.inputs0 && IsLargest(c.inputs0, largest)
  {
    assert |v.levels| == NUM_LEVELS;
    hide Shaped, StartInputs, ClosedInputs, LowerInputs, Selected, Closure, ExpandedFrom, PickedIn, IsLargest;
    picked := PickFile(v.levels[level], pointer, seekFile);
    var inputs0 := StartWith(v, level, picked);
    start := inputs0;
    c := new Compaction(v, level, inputs0);
    largest, base, wider := c.SetupOtherInputs(maxFileSize);
  }

  // The seek file if there is one; otherwise the first file that ends past the pointer, or the first of all
  // when none does.
  ghost predicate PickedIn(files: seq<File>, pointer: Option<IKey>, seekFile: Option<File>, f: File) {
    if seekFile.Some? then f in files && f == seekFile.value
    else if pointer == None then files != [] && f == files[0]
    else if NonePast(files, pointer.value) then files != [] && f == files[0]
    else exists i :: 0 <= i < |files| && f == files[i] && Less(pointer.value, f.largest) && NonePast(files[..i], pointer.value)
  }

  ghost predicate NonePast(files: seq<File>, pointer: IKey) {
    forall f :: f in files ==> !Less(pointer, f.largest)
  }

  method PickFile(files: seq<File>, pointer: Option<IKey>, seekFile: Option<File>) returns (f: File)
    requires seekFile == None ==> files != []
    requires seekFile.Some? ==> seekFile.value in files
    ensures PickedIn(files, pointer, seekFile, f)
  {
    if seekFile == None {
      var pick := 0;
      while pick < |files| && !Past(files[pick], pointer)
        invariant 0 <= pick <= |files|
        invariant forall j :: 0 <= j < pick ==> !Past(files[j], pointer)
      {
        pick := pick + 1;
      }
      if pick == |files| {
        pick := 0;
      }
      f := files[pick];
      assert pointer.Some? ==> NonePast(files[..pick], pointer.value);
    } else {
      f := seekFile.value;
    }
  }

  predicate Past(f: File, pointer: Option<IKey>) {
    pointer == None || Less(pointer.value, f.largest)
  }

  // The compaction starts with one file, at level 0 with everything that overlaps it.
  method StartWith(v: Version, level: nat, picked: File) returns (inputs0: seq<File>)
    requires Shaped(v) && level + 1 < NUM_LEVELS && picked in v.levels[level]
    ensures StartInputs(v, level, inputs0) && picked in inputs0
    ensures if level > 0 then inputs0 == [picked] else Selected(v, 0, Some(picked.smallest.ukey), Some(picked.largest.ukey), inputs0)
  {
    inputs0 := [picked];
    if level == 0 {
      ghost var lo, hi;
      inputs0, lo, hi := GetOverlappingInputs(true, v.levels[0], Some(picked.smallest.ukey), Some(picked.largest.ukey));
      OverlappingElements(v.levels[0], lo, hi);
      assert ValidFile(picked);
      FileBounds(picked, picked.table[0]);
      OverlappingIsStart(v, level, lo, hi, inputs0);
    } else {
      ghost var at :| 0 <= at < |v.levels[level]| && v.levels[level][at] == picked;
      assert IsSlice(v.levels[level], at, at + 1, inputs0);
    }
  }

  // A manual compaction of [begin, end]; None when nothing in the level overlaps it.
  method CompactRange(v: Version, level: nat, begin: Option<UserKey>, end: Option<UserKey>, maxFileSize: nat)
    returns (c: Compaction?, largest: IKey, ghost start: seq<File>, ghost base: seq<File>, ghost wider: seq<File>)
    requires Shaped(v) && level + 1 < NUM_LEVELS
    ensures c == null <==> Overlapping(v.levels[level], begin, end) == []
    ensures c != null ==> fresh(c) && c.Ready() && c.version == v && c.level == level && c.levelPtrs == seq(NUM_LEVELS, _ => 0)
    ensures c != null ==> ManualStart(v, level, begin, end, maxFileSize, start) && Closure(v, level, start, base)
    ensures c != null ==> ExpandedFrom(v, level, base, wider, c.inputs0, c.inputs1, maxFileSize)
    ensures c != null ==> (forall f :: f in start ==> f in c.inputs0) && IsLargest(c.inputs0, largest)
  {
    start, base, wider := [], [], [];
    largest := IKey(0, 0, Deletion);
    var inputs := ManualInputs(v, level, begin, end, maxFileSize);
    if inputs == [] {
      return null, largest, start, base, wider;
    }
    hide StartInputs, ClosedInputs, LowerInputs, ExpandedFrom, Closure, ManualStart, IsLargest;
    start := inputs;
    c := new Compaction(v, level, inputs);
    largest, base, wider := c.SetupOtherInputs(maxFileSize);
  }

  // Outside level 0, the first of the files that meet the range, up to and including the one that reaches
  // the size limit.
  ghost predicate ManualStart(v: Version, level: nat, begin: Option<UserKey>, end: Option<UserKey>, limit: nat, start: seq<File>)
    requires |v.levels| == NUM_LEVELS && level < NUM_LEVELS
  {
    && start != [] && (level == 0 ==> Selected(v, 0, begin, end, start))
    && (level > 0 ==>
          var all := Overlapping(v.levels[level], begin, end);
          && |start| <= |all| && start == all[..|start|]
          && (|start| > 1 ==> TotalFileSize(start[..|start| - 1]) < limit)
          && (|start| < |all| ==> TotalFileSize(start) >= limit))
  }

  // What overlaps [begin, end]; outside level 0 no more than reaches the size limit.
  method ManualInputs(v: Version, level: nat, begin: Option<UserKey>, end: Option<UserKey>, maxFileSize: nat)
    returns (inputs: seq<File>)
    requires Shaped(v) && level + 1 < NUM_LEVELS
    ensures inputs == [] <==> Overlapping(v.levels[level], begin, end) == []
    ensures inputs != [] ==> StartInputs(v, level, inputs) && ManualStart(v, level, begin, end, maxFileSize, inputs)
  {
    ghost var lo, hi;
    inputs, lo, hi := GetOverlappingInputs(level == 0, v.levels[level], begin, end);
    if inputs == [] {
      OverlappingElements(v.levels[level], lo, hi);
      NothingOverlaps(v.levels[level], begin, end);
    } else {
      OverlappingIsStart(v, level, lo, hi, inputs);
      if level > 0 {
        var n := PrefixWithin(inputs, maxFileSize);
        StartPrefix(v, level, inputs, n);
        assert inputs[..n][..n - 1] == inputs[..n - 1];
        inputs := inputs[..n];
      } else {
        FoundMeansOverlap(v, begin, end, inputs);
      }
    }
  }

  lemma StartPrefix(v: Version, level: nat, inputs: seq<File>, n: nat)
    requires |v.levels| == NUM_LEVELS && 0 < level < NUM_LEVELS && StartInputs(v, level, inputs) && 0 < n <= |inputs|
    ensures StartInputs(v, level, inputs[..n])
  {
    var a: nat, b: nat :| IsSlice(v.levels[level], a, b, inputs);
    PrefixOfSlice(v.levels[level], a, b, n);
    assert IsSlice(v.levels[level], a, a + n, inputs[..n]);
  }

  lemma {:induction false} NothingOverlaps(files: seq<File>, lo: Option<UserKey>, hi: Option<UserKey>)
    requires forall f :: f in files ==> !Overlaps(f, lo, hi)
    ensures Overlapping(files, lo, hi) == []
  {
    if files != [] {
      NothingOverlaps(files[..|files| - 1], lo, hi);
    }
  }

  // The least closed set over an empty selection is empty.
  lemma FoundMeansOverlap(v: Version, begin: Option<UserKey>, end: Option<UserKey>, inputs: seq<File>)
    requires Shaped(v) && inputs != []
    requires forall t: set<File> :: ClosedOver(v.levels[0], begin, end, t) ==> Members(inputs) <= t
    ensures Overlapping(v.levels[0], begin, end) != []
  {
    assert inputs[0] in Members(inputs);
    if Overlapping(v.levels[0], begin, end) == [] {
      OverlappingElements(v.levels[0], begin, end);
      assert ClosedOver(v.levels[0], begin, end, {});
      assert false;
    }
  }

  // Number of files up to and including the one that reaches the size limit.
  method PrefixWithin(inputs: seq<File>, limit: nat) returns (n: nat)
    requires inputs != []
    ensures 1 <= n <= |inputs|
    ensures TotalFileSize(inputs[..n - 1]) < limit || n == 1
    ensures n < |inputs| ==> TotalFileSize(inputs[..n]) >= limit
  {
    var total := 0;
    for i := 0 to |inputs|
      invariant total == TotalFileSize(inputs[..i]) && (i > 0 ==> total < limit)
    {
      assert inputs[..i + 1][..i] == inputs[..i];
      total := total + inputs[i].size;
      if total >= limit {
        return i + 1;
      }
    }
    n := |inputs|;
    assert inputs[..n][..n - 1] == inputs[..n - 1];
  }
}
