/** The merging iterators of the store: over the inputs of a compaction, and over everything a reader
    can reach. The files of a level other than 0 are read as one concatenation. */
module InternalIterators {
  import opened Keys
  import opened Wrappers
  import opened Files
  import opened Versions
  import opened Compactions
  import opened CompactionInputs
  import opened CompactionWork
  import opened Merger

  ghost predicate KeysApart(a: set<Entry>, b: set<Entry>) {
    forall x, y :: x in a && y in b ==> x.key != y.key
  }

  lemma GoodTogether(a: seq<seq<Entry>>, b: seq<seq<Entry>>)
    requires GoodChildren(a) && GoodChildren(b) && KeysApart(Union(a), Union(b))
    ensures GoodChildren(a + b) && Union(a + b) == Union(a) + Union(b)
  {
    var all := a + b;
    forall x
      ensures x in Union(all) <==> x in Union(a) || x in Union(b)
    {
      if x in Union(all) {
        var i :| 0 <= i < |all| && x in all[i];
        assert i < |a| ==> x in a[i];
        assert i >= |a| ==> x in b[i - |a|];
      }
      if x in Union(a) {
        var i :| 0 <= i < |a| && x in a[i];
        assert x in all[i];
      }
      if x in Union(b) {
        var i :| 0 <= i < |b| && x in b[i];
        assert x in all[|a| + i];
      }
    }
    forall i, j, x: Entry, y: Entry | 0 <= i < j < |all| && x in all[i] && y in all[j]
      ensures x.key != y.key
    {
      ChildrenApart(a, b, i, j, x, y);
    }
  }

  lemma ChildrenApart(a: seq<seq<Entry>>, b: seq<seq<Entry>>, i: nat, j: nat, x: Entry, y: Entry)
    requires GoodChildren(a) && GoodChildren(b) && KeysApart(Union(a), Union(b))
    requires i < j < |a + b| && x in (a + b)[i] && y in (a + b)[j]
    ensures x.key != y.key
  {
    if j < |a| {
      assert x in a[i] && y in a[j];
    } else if i < |a| {
      assert x in a[i] && y in b[j - |a|];
      assert x in Union(a) && y in Union(b);
    } else {
      assert x in b[i - |a|] && y in b[j - |a|];
    }
  }

  /** The files of one level */

  method Concatenate(files: seq<File>) returns (r: seq<Entry>)
    ensures r == Flatten(files)
  {
    r := [];
    for i := 0 to |files|
      invariant r == Flatten(files[..i])
    {
      assert files[..i + 1][..i] == files[..i];
      r := r + files[i].table;
    }
    assert files[..|files|] == files;
  }

  lemma {:induction false} FlattenIsSorted(fs: seq<File>)
    requires SortedFiles(fs)
    ensures Sorted(Flatten(fs))
  {
    if fs != [] {
      var n := |fs| - 1;
      SortedPrefix(fs, n);
      FlattenIsSorted(fs[..n]);
      FlattenElements(fs[..n]);
      assert ValidFile(fs[n]);
      forall x, y | x in Flatten(fs[..n]) && y in fs[n].table
        ensures Less(x.key, y.key)
      {
        var i :| 0 <= i < n && x in fs[i].table;
        assert ValidFile(fs[i]);
        FileBounds(fs[i], x);
        FileBounds(fs[n], y);
        assert Less(fs[i].largest, fs[n].smallest);
      }
      SortedJoins(Flatten(fs[..n]), fs[n].table);
    }
  }

  lemma SortedJoins(a: seq<Entry>, b: seq<Entry>)
    requires Sorted(a) && Sorted(b) && forall x, y :: x in a && y in b ==> Less(x.key, y.key)
    ensures Sorted(a + b)
  {
    var all := a + b;
    forall i, j | 0 <= i < j < |all|
      ensures Less(all[i].key, all[j].key)
    {
      if j >= |a| && i < |a| {
        assert all[i] in a && all[j] in b;
      }
    }
  }

  method ConcatenatedChild(files: seq<File>) returns (children: seq<seq<Entry>>)
    requires SortedFiles(files)
    ensures GoodChildren(children) && Union(children) == TableEntries(files)
  {
    children := [];
    if files != [] {
      var all := Concatenate(files);
      children := [all];
      FlattenIsSorted(files);
      FlattenElements(files);
      hide Flatten, Sorted, SortedFiles;
      forall x
        ensures x in Union(children) <==> x in TableEntries(files)
      {
        assert x in all ==> x in children[0];
      }
    }
  }

  ghost predicate FilesApart(files: seq<File>) {
    && (forall f :: f in files ==> Sorted(f.table))
    && forall i, j, x, y :: 0 <= i < j < |files| && x in files[i].table && y in files[j].table ==> x.key != y.key
  }

  method SeparateChildren(files: seq<File>) returns (children: seq<seq<Entry>>)
    requires FilesApart(files)
    ensures GoodChildren(children) && Union(children) == TableEntries(files)
  {
    children := seq(|files|, i requires 0 <= i < |files| => files[i].table);
    assert forall i :: 0 <= i < |files| ==> files[i] in files;
    forall x
      ensures x in Union(children) <==> x in TableEntries(files)
    {
      if x in TableEntries(files) {
        var f :| f in files && x in f.table;
        var i :| 0 <= i < |files| && files[i] == f;
        assert x in children[i];
      }
    }
  }

  lemma LevelsApart(v: Version, l: nat, m: nat, f: File, g: File)
    requires LevelOrder(v) && l < m < |v.levels| && f in v.levels[l] && g in v.levels[m]
    ensures KeysApart(Elements(f.table), Elements(g.table))
  {
    hide Shaped, UniqueNumbers, Distinct;
    assert NewerThan(f, g);
  }

  lemma Level0Apart(v: Version, files: seq<File>)
    requires LevelOrder(v) && Unrepeated(files) && |v.levels| == NUM_LEVELS && forall f :: f in files ==> f in v.levels[0]
    ensures FilesApart(files)
  {
    forall i, j, x, y | 0 <= i < j < |files| && x in files[i].table && y in files[j].table
      ensures x.key != y.key
    {
      Level0FilesApart(v, files[i], files[j], x, y);
    }
    Level0Valid(v);
    hide LevelOrder;
  }

  lemma Level0Valid(v: Version)
    requires LevelOrder(v)
    ensures |v.levels| == NUM_LEVELS && (forall f :: f in v.levels[0] ==> ValidFile(f)) && BySmallestKey(v.levels[0])
  {
  }

  lemma Level0FilesApart(v: Version, f: File, g: File, x: Entry, y: Entry)
    requires LevelOrder(v) && |v.levels| == NUM_LEVELS && f in v.levels[0] && g in v.levels[0] && f != g && x in f.table && y in g.table
    ensures x.key != y.key
  {
    assert f.number != g.number;
    hide Shaped, UniqueNumbers, Distinct;
    if f.number > g.number {
      assert NewerThan(f, g);
    } else {
      assert NewerThan(g, f);
    }
  }

  /** The inputs of a compaction */

  lemma UpperIsSorted(v: Version, level: nat, inputs: seq<File>)
    requires Shaped(v) && 0 < level < NUM_LEVELS && ClosedInputs(v, level, inputs)
    ensures SortedFiles(inputs)
  {
    var a, b :| IsSlice(v.levels[level], a, b, inputs);
    SliceIsSorted(v.levels[level], a, b);
  }

  lemma SliceIsSorted(files: seq<File>, a: nat, b: nat)
    requires SortedFiles(files) && a <= b <= |files|
    ensures SortedFiles(files[a..b])
  {
  }

  lemma LowerIsSorted(v: Version, level: nat, inputs0: seq<File>, inputs1: seq<File>)
    requires Shaped(v) && level + 1 < NUM_LEVELS && LowerInputs(v, level, inputs0, inputs1)
    ensures SortedFiles(inputs1) && forall f :: f in inputs1 ==> f in v.levels[level + 1]
  {
    var files := v.levels[level + 1];
    var lo, hi :| IsSmallest(inputs0, lo) && IsLargest(inputs0, hi) && inputs1 == Overlapping(files, Some(lo.ukey), Some(hi.ukey));
    var a, b := OverlappingIsSlice(files, Some(lo.ukey), Some(hi.ukey));
    SliceIsSorted(files, a, b);
  }

  lemma InputsApart(v: Version, level: nat, inputs0: seq<File>, inputs1: seq<File>)
    requires LevelOrder(v) && level + 1 < |v.levels|
    requires forall f :: f in inputs0 ==> f in v.levels[level]
    requires forall f :: f in inputs1 ==> f in v.levels[level + 1]
    ensures KeysApart(TableEntries(inputs0), TableEntries(inputs1))
  {
    hide LevelOrder;
    forall x, y | x in TableEntries(inputs0) && y in TableEntries(inputs1)
      ensures x.key != y.key
    {
      var f :| f in inputs0 && x in f.table;
      var g :| g in inputs1 && y in g.table;
      LevelsApart(v, level, level + 1, f, g);
      assert x in Elements(f.table) && y in Elements(g.table);
    }
  }

  method MakeInputIterator(c: Compaction) returns (it: MergingIterator)
    requires c.Ready() && LevelOrder(c.version)
    ensures fresh(it) && it.Valid() && Union(it.children) == TableEntries(c.inputs0) + TableEntries(c.inputs1)
  {
    assert forall f :: f in c.inputs0 ==> f in c.version.levels[c.level];
    assert c.level == 0 ==> Unrepeated(c.inputs0);
    hide LevelOrder, ClosedInputs, LowerInputs, Shaped, GoodChildren, Union, TableEntries, FilesApart, SortedFiles, Merger.Settled, KeysApart;
    LowerIsSorted(c.version, c.level, c.inputs0, c.inputs1);
    InputsApart(c.version, c.level, c.inputs0, c.inputs1);
    var upper;
    if c.level == 0 {
      Level0Apart(c.version, c.inputs0);
      upper := SeparateChildren(c.inputs0);
    } else {
      UpperIsSorted(c.version, c.level, c.inputs0);
      upper := ConcatenatedChild(c.inputs0);
    }
    var lower := ConcatenatedChild(c.inputs1);
    GoodTogether(upper, lower);
    it := new MergingIterator(upper + lower);
  }

  /** Everything a reader can reach */

  ghost function LevelsBelow(v: Version, n: nat): set<Entry>
    requires n <= |v.levels|
  {
    set l: nat, f, e | l < n && f in v.levels[l] && e in f.table :: e
  }

  lemma NextLevel(v: Version, n: nat)
    requires LevelOrder(v) && n < |v.levels|
    ensures LevelsBelow(v, n + 1) == LevelsBelow(v, n) + TableEntries(v.levels[n])
    ensures KeysApart(LevelsBelow(v, n), TableEntries(v.levels[n]))
  {
    hide LevelOrder;
    forall x, y | x in LevelsBelow(v, n) && y in TableEntries(v.levels[n])
      ensures x.key != y.key
    {
      var l: nat, f :| l < n && f in v.levels[l] && x in f.table;
      var g :| g in v.levels[n] && y in g.table;
      LevelsApart(v, l, n, f, g);
      assert x in Elements(f.table) && y in Elements(g.table);
    }
  }

  lemma LevelIsSorted(v: Version, l: nat)
    requires LevelOrder(v) && 0 < l < NUM_LEVELS
    ensures |v.levels| == NUM_LEVELS && SortedFiles(v.levels[l])
  {
  }

  lemma AllLevels(v: Version)
    requires LevelOrder(v)
    ensures |v.levels| == NUM_LEVELS && LevelsBelow(v, NUM_LEVELS) == Entries(v) && LevelsBelow(v, 0) == {}
  {
  }

  // Version::AddIterators: the files of level 0 one by one, every other level as a whole.
  method TableChildren(v: Version) returns (children: seq<seq<Entry>>)
    requires LevelOrder(v)
    ensures GoodChildren(children) && Union(children) == Entries(v)
  {
    hide LevelOrder, GoodChildren, Union, TableEntries, FilesApart, SortedFiles, KeysApart, LevelsBelow, Entries;
    AllLevels(v);
    Level0Valid(v);
    FilesDiffer(v.levels[0]);
    Level0Apart(v, v.levels[0]);
    NextLevel(v, 0);
    children := SeparateChildren(v.levels[0]);
    for l := 1 to NUM_LEVELS
      invariant GoodChildren(children) && Union(children) == LevelsBelow(v, l)
    {
      LevelIsSorted(v, l);
      NextLevel(v, l);
      var more := ConcatenatedChild(v.levels[l]);
      GoodTogether(children, more);
      children := children + more;
    }
  }

  lemma OneChild(es: seq<Entry>)
    requires Sorted(es)
    ensures GoodChildren([es]) && Union([es]) == Elements(es)
  {
    forall x
      ensures x in Union([es]) <==> x in Elements(es)
    {
      assert x in es ==> x in [es][0];
    }
  }

  function ListElements(es: Option<seq<Entry>>): set<Entry> {
    match es case None => {} case Some(list) => Elements(list)
  }

  // NewInternalIterator: the memtable, the immutable one if there is one, and the tables.
  method ReachableChildren(mem: seq<Entry>, imm: Option<seq<Entry>>, v: Version) returns (children: seq<seq<Entry>>)
    requires Sorted(mem) && (imm.Some? ==> Sorted(imm.value)) && LevelOrder(v)
    requires KeysApart(Elements(mem), ListElements(imm)) && KeysApart(Elements(mem) + ListElements(imm), Entries(v))
    ensures GoodChildren(children) && Union(children) == Elements(mem) + ListElements(imm) + Entries(v)
  {
    hide LevelOrder, GoodChildren, Union, KeysApart, Entries, Sorted, Elements;
    children := [mem];
    OneChild(mem);
    if imm.Some? {
      OneChild(imm.value);
      GoodTogether(children, [imm.value]);
      children := children + [imm.value];
    }
    assert Union(children) == Elements(mem) + ListElements(imm);
    var tables := TableChildren(v);
    GoodTogether(children, tables);
    children := children + tables;
  }
}
