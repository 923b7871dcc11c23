/** VersionSet::Builder: applying edits to a version, live and when a manifest is replayed. */
module Builder {
  import opened Keys
  import opened Files
  import opened Versions

  // The file changes of a version edit: (level, number) pairs deleted, (level, file) pairs added.
  datatype FileEdit = FileEdit(deleted: set<(nat, nat)>, added: seq<(nat, File)>)

  predicate ValidEdit(e: FileEdit) {
    && (forall d :: d in e.deleted ==> d.0 < NUM_LEVELS)
    && (forall a :: a in e.added ==> a.0 < NUM_LEVELS)
  }

  ghost function AddedAt(e: FileEdit, l: nat): set<File> {
    set i | 0 <= i < |e.added| && e.added[i].0 == l :: e.added[i].1
  }

  ghost function Numbers(fs: set<File>): set<nat> {
    set f | f in fs :: f.number
  }

  ghost function DeletedAt(e: FileEdit, l: nat): set<nat> {
    set d | d in e.deleted && d.0 == l :: d.1
  }

  // What one edit does to the set of files of a level.
  ghost function ApplyToLevel(fs: set<File>, e: FileEdit, l: nat): set<File> {
    set f | f in fs + AddedAt(e, l) && f.number !in DeletedAt(e, l) - Numbers(AddedAt(e, l))
  }

  // v2 lists, in order, exactly the files the edit leaves in each level of v1.
  ghost predicate Applied(v1: Version, e: FileEdit, v2: Version) {
    && |v1.levels| == NUM_LEVELS && |v2.levels| == NUM_LEVELS
    && forall l: nat :: l < NUM_LEVELS ==>
         BySmallestKey(v2.levels[l]) && Members(v2.levels[l]) == ApplyToLevel(Members(v1.levels[l]), e, l)
  }

  // A file number names one file.
  ghost predicate Coherent(fs: set<File>) {
    forall f, g :: f in fs && g in fs && f.number == g.number ==> f == g
  }

  lemma NoMembers(a: seq<File>)
    ensures Members(a) == {} ==> a == []
  {
    if a != [] {
      assert a[0] in Members(a);
    }
  }

  lemma MembersOfAppend(fs: seq<File>, f: File)
    ensures Members(fs + [f]) == Members(fs) + {f}
  {
  }

  // A strictly ordered list is determined by its members.
  lemma BySmallestKeyIsUnique(a: seq<File>, b: seq<File>)
    requires BySmallestKey(a) && BySmallestKey(b) && Members(a) == Members(b)
    ensures a == b
  {
    if a == [] {
      NoMembers(b);
    } else {
      assert a[0] in Members(b);
      assert b[0] in Members(b);
      var i :| 0 <= i < |b| && b[i] == a[0];
      var j :| 0 <= j < |a| && a[j] == b[0];
      assert a[0] == b[0];
      forall f
        ensures f in Members(a[1..]) <==> f in Members(b[1..])
      {
        TailMembers(a, f);
        TailMembers(b, f);
      }
      BySmallestKeyIsUnique(a[1..], b[1..]);
      assert a == [a[0]] + a[1..] && b == [b[0]] + b[1..];
    }
  }

  lemma TailMembers(a: seq<File>, f: File)
    requires BySmallestKey(a) && a != []
    ensures f in Members(a[1..]) <==> f in Members(a) && f != a[0]
  {
  }

  /** The builder */

  class Builder {
    const base: Version
    var deleted: seq<set<nat>>
    var added: seq<seq<File>>

    ghost predicate Valid()
      reads this
    {
      && |base.levels| == NUM_LEVELS && |deleted| == NUM_LEVELS && |added| == NUM_LEVELS
      && forall l: nat :: l < NUM_LEVELS ==> BySmallestKey(added[l]) && Coherent(Members(added[l]))
    }

    constructor (base: Version)
      requires |base.levels| == NUM_LEVELS
      ensures Valid() && this.base == base
      ensures forall l: nat :: l < NUM_LEVELS ==> deleted[l] == {} && added[l] == []
    {
      this.base := base;
      deleted := seq(NUM_LEVELS, _ => {});
      added := seq(NUM_LEVELS, _ => []);
    }

    // Deletions first, then additions, each of which takes its number back out of the deletions.
    method Apply(e: FileEdit)
      requires Valid() && ValidEdit(e)
      requires forall l: nat :: l < NUM_LEVELS ==> Coherent(Members(added[l]) + AddedAt(e, l))
      modifies this
      ensures Valid()
      ensures forall l: nat :: l < NUM_LEVELS ==>
        Members(added[l]) == old(Members(added[l])) + AddedAt(e, l)
        && deleted[l] == old(deleted[l]) + DeletedAt(e, l) - Numbers(AddedAt(e, l))
    {
      MarkDeleted(e);
      AddFiles(e);
    }

    method MarkDeleted(e: FileEdit)
      requires Valid() && ValidEdit(e)
      modifies this`deleted
      ensures Valid()
      ensures forall l: nat :: l < NUM_LEVELS ==> deleted[l] == old(deleted[l]) + DeletedAt(e, l)
    {
      var todo := e.deleted;
      while todo != {}
        invariant todo <= e.deleted && Valid()
        invariant forall l: nat :: l < NUM_LEVELS ==> deleted[l] == old(deleted[l]) + DeletedAt(FileEdit(e.deleted - todo, []), l)
        decreases todo
      {
        var d :| d in todo;
        DeletedStep(e.deleted - todo, d);
        todo := todo - {d};
        deleted := deleted[d.0 := deleted[d.0] + {d.1}];
        assert e.deleted - todo == (e.deleted - (todo + {d})) + {d};
      }
    }

    method AddFiles(e: FileEdit)
      requires Valid() && ValidEdit(e)
      requires forall l: nat :: l < NUM_LEVELS ==> Coherent(Members(added[l]) + AddedAt(e, l))
      modifies this
      ensures Valid()
      ensures forall l: nat :: l < NUM_LEVELS ==>
        Members(added[l]) == old(Members(added[l])) + AddedAt(e, l)
        && deleted[l] == old(deleted[l]) - Numbers(AddedAt(e, l))
    {
      hide AddedAt, BySmallestKey, Coherent;
      NothingAdded();
      AddedOnly(e);
      for i := 0 to |e.added|
        invariant Valid()
        invariant forall l: nat :: l < NUM_LEVELS ==>
          Members(added[l]) == old(Members(added[l])) + AddedAt(FileEdit({}, e.added[..i]), l)
          && deleted[l] == old(deleted[l]) - Numbers(AddedAt(FileEdit({}, e.added[..i]), l))
      {
        var l, f := e.added[i].0, e.added[i].1;
        assert e.added[i] in e.added;
        AddedStep(e, i);
        deleted := deleted[l := deleted[l] - {f.number}];
        CoherentPart(old(Members(added[l])) + AddedAt(e, l), Members(added[l]) + {f});
        var files := InsertFile(added[l], f);
        added := added[l := files];
      }
      assert e.added[..|e.added|] == e.added;
    }

    // MaybeAddFile over the merge of the base files and the added files of each level.
    method SaveTo() returns (v: Version)
      requires Valid()
      requires forall l: nat :: l < NUM_LEVELS ==> BySmallestKey(base.levels[l]) && NoClash(base.levels[l], added[l], deleted[l])
      ensures |v.levels| == NUM_LEVELS
      ensures forall l: nat :: l < NUM_LEVELS ==>
        BySmallestKey(v.levels[l]) && Members(v.levels[l]) == Surviving(base.levels[l], added[l], deleted[l])
    {
      var levels: seq<seq<File>> := [];
      for l := 0 to NUM_LEVELS
        invariant |levels| == l
        invariant forall k: nat :: k < l ==>
          BySmallestKey(levels[k]) && Members(levels[k]) == Surviving(base.levels[k], added[k], deleted[k])
      {
        var files := MergeLevel(base.levels[l], added[l], deleted[l]);
        levels := levels + [files];
      }
      v := Version(levels);
    }
  }

  lemma DeletedStep(ds: set<(nat, nat)>, d: (nat, nat))
    ensures forall l: nat :: DeletedAt(FileEdit(ds + {d}, []), l) == DeletedAt(FileEdit(ds, []), l) + if l == d.0 then {d.1} else {}
  {
  }

  ghost function Surviving(baseFiles: seq<File>, added: seq<File>, deleted: set<nat>): set<File> {
    set f | f in Members(baseFiles) + Members(added) && f.number !in deleted
  }

  // No file survives both in the base and among the additions.
  ghost predicate NoClash(baseFiles: seq<File>, added: seq<File>, deleted: set<nat>) {
    forall f, g :: f in baseFiles && g in added && f.number !in deleted ==> FileBefore(f, g) || FileBefore(g, f)
  }

  // files, followed by anything that survives of rest, is still in order.
  ghost predicate ReadyFor(files: seq<File>, rest: seq<File>, deleted: set<nat>) {
    forall f, g :: f in files && g in rest && g.number !in deleted ==> FileBefore(f, g)
  }

  function MaybeAddFile(files: seq<File>, f: File, deleted: set<nat>): seq<File> {
    if f.number in deleted then files else files + [f]
  }

  lemma MaybeAddKeepsOrder(files: seq<File>, f: File, rest: seq<File>, other: seq<File>, deleted: set<nat>)
    requires BySmallestKey(files) && ReadyFor(files, [f] + rest, deleted) && ReadyFor(files, other, deleted)
    requires f.number !in deleted ==> forall g :: (g in rest || g in other) && g.number !in deleted ==> FileBefore(f, g)
    ensures BySmallestKey(MaybeAddFile(files, f, deleted))
    ensures ReadyFor(MaybeAddFile(files, f, deleted), rest, deleted)
    ensures ReadyFor(MaybeAddFile(files, f, deleted), other, deleted)
  {
  }

  lemma HeadBeforeTail(fs: seq<File>, i: nat)
    requires BySmallestKey(fs) && i < |fs|
    ensures fs[i..] == [fs[i]] + fs[i + 1..]
    ensures forall g :: g in fs[i + 1..] ==> FileBefore(fs[i], g)
  {
  }

  method MergeLevel(baseFiles: seq<File>, added: seq<File>, deleted: set<nat>) returns (files: seq<File>)
    requires BySmallestKey(baseFiles) && BySmallestKey(added) && NoClash(baseFiles, added, deleted)
    ensures BySmallestKey(files) && Members(files) == Surviving(baseFiles, added, deleted)
  {
    files := [];
    var b := 0;
    for a := 0 to |added|
      invariant 0 <= b <= |baseFiles|
      invariant BySmallestKey(files)
      invariant ReadyFor(files, baseFiles[b..], deleted) && ReadyFor(files, added[a..], deleted)
      invariant Members(files) == Surviving(baseFiles[..b], added[..a], deleted)
    {
      // Add all smaller files of the base.
      while b < |baseFiles| && !FileBefore(added[a], baseFiles[b])
        invariant 0 <= b <= |baseFiles|
        invariant BySmallestKey(files)
        invariant ReadyFor(files, baseFiles[b..], deleted) && ReadyFor(files, added[a..], deleted)
        invariant Members(files) == Surviving(baseFiles[..b], added[..a], deleted)
      {
        BaseStep(files, baseFiles, b, added, a, deleted);
        files := MaybeAddFile(files, baseFiles[b], deleted);
        b := b + 1;
      }
      AddStep(files, baseFiles, b, added, a, deleted);
      files := MaybeAddFile(files, added[a], deleted);
    }
    assert added[..|added|] == added;
    while b < |baseFiles|
      invariant 0 <= b <= |baseFiles|
      invariant BySmallestKey(files)
      invariant ReadyFor(files, baseFiles[b..], deleted)
      invariant Members(files) == Surviving(baseFiles[..b], added, deleted)
    {
      BaseStep(files, baseFiles, b, added, |added|, deleted);
      files := MaybeAddFile(files, baseFiles[b], deleted);
      b := b + 1;
    }
    assert baseFiles[..b] == baseFiles;
  }

  lemma BaseStep(files: seq<File>, baseFiles: seq<File>, b: nat, added: seq<File>, a: nat, deleted: set<nat>)
    requires BySmallestKey(baseFiles) && BySmallestKey(added) && NoClash(baseFiles, added, deleted)
    requires b < |baseFiles| && a <= |added| && (a < |added| ==> !FileBefore(added[a], baseFiles[b]))
    requires BySmallestKey(files) && ReadyFor(files, baseFiles[b..], deleted) && ReadyFor(files, added[a..], deleted)
    requires Members(files) == Surviving(baseFiles[..b], added[..a], deleted)
    ensures var r := MaybeAddFile(files, baseFiles[b], deleted);
            BySmallestKey(r) && ReadyFor(r, baseFiles[b + 1..], deleted) && ReadyFor(r, added[a..], deleted)
            && Members(r) == Surviving(baseFiles[..b + 1], added[..a], deleted)
  {
    HeadBeforeTail(baseFiles, b);
    if a < |added| {
      HeadBeforeTail(added, a);
    }
    MaybeAddKeepsOrder(files, baseFiles[b], baseFiles[b + 1..], added[a..], deleted);
    assert baseFiles[..b + 1] == baseFiles[..b] + [baseFiles[b]];
    MembersOfAppend(baseFiles[..b], baseFiles[b]);
    MembersOfAppend(files, baseFiles[b]);
  }

  lemma AddStep(files: seq<File>, baseFiles: seq<File>, b: nat, added: seq<File>, a: nat, deleted: set<nat>)
    requires BySmallestKey(baseFiles) && BySmallestKey(added)
    requires b <= |baseFiles| && a < |added| && (b < |baseFiles| ==> FileBefore(added[a], baseFiles[b]))
    requires BySmallestKey(files) && ReadyFor(files, baseFiles[b..], deleted) && ReadyFor(files, added[a..], deleted)
    requires Members(files) == Surviving(baseFiles[..b], added[..a], deleted)
    ensures var r := MaybeAddFile(files, added[a], deleted);
            BySmallestKey(r) && ReadyFor(r, baseFiles[b..], deleted) && ReadyFor(r, added[a + 1..], deleted)
            && Members(r) == Surviving(baseFiles[..b], added[..a + 1], deleted)
  {
    HeadBeforeTail(added, a);
    if b < |baseFiles| {
      HeadBeforeTail(baseFiles, b);
    }
    MaybeAddKeepsOrder(files, added[a], added[a + 1..], baseFiles[b..], deleted);
    assert added[..a + 1] == added[..a] + [added[a]];
    MembersOfAppend(added[..a], added[a]);
    MembersOfAppend(files, added[a]);
  }

  lemma CoherentPart(all: set<File>, part: set<File>)
    requires Coherent(all) && part <= all
    ensures Coherent(part)
  {
  }

  lemma NothingAdded()
    ensures forall l: nat :: AddedAt(FileEdit({}, []), l) == {}
  {
  }

  lemma AddedOnly(e: FileEdit)
    ensures forall l: nat :: AddedAt(FileEdit({}, e.added), l) == AddedAt(e, l)
  {
  }

  lemma AddedStep(e: FileEdit, i: nat)
    requires i < |e.added|
    ensures forall l: nat :: AddedAt(FileEdit({}, e.added[..i + 1]), l)
              == AddedAt(FileEdit({}, e.added[..i]), l) + if l == e.added[i].0 then {e.added[i].1} else {}
    ensures forall l: nat :: AddedAt(FileEdit({}, e.added[..i + 1]), l) <= AddedAt(e, l)
  {
    var a, b := e.added[..i], e.added[..i + 1];
    assert forall j :: 0 <= j < i ==> a[j] == b[j] == e.added[j];
    assert b[i] == e.added[i];
  }

  // std::set insertion: a file that compares equal to one already present is not inserted.
  method InsertFile(fs: seq<File>, f: File) returns (r: seq<File>)
    requires BySmallestKey(fs) && Coherent(Members(fs) + {f})
    ensures BySmallestKey(r) && Members(r) == Members(fs) + {f}
  {
    var k := 0;
    while k < |fs| && FileBefore(fs[k], f)
      invariant 0 <= k <= |fs|
      invariant forall j :: 0 <= j < k ==> FileBefore(fs[j], f)
    {
      k := k + 1;
    }
    if k < |fs| && !FileBefore(f, fs[k]) {
      assert fs[k] in Members(fs);
      return fs;
    }
    r := fs[..k] + [f] + fs[k..];
    InsertedInOrder(fs, k, f);
  }

  lemma InsertedInOrder(fs: seq<File>, k: nat, f: File)
    requires BySmallestKey(fs) && k <= |fs|
    requires forall j :: 0 <= j < k ==> FileBefore(fs[j], f)
    requires k < |fs| ==> FileBefore(f, fs[k])
    ensures BySmallestKey(fs[..k] + [f] + fs[k..]) && Members(fs[..k] + [f] + fs[k..]) == Members(fs) + {f}
  {
  }

  /** Versions made from edits, one at a time and all at once */

  // The edit adds no number that the level already lists.
  ghost predicate NewNumbers(v: Version, e: FileEdit) {
    && |v.levels| == NUM_LEVELS
    && (forall l: nat :: l < NUM_LEVELS ==> Coherent(AddedAt(e, l)))
    && (forall l: nat, f, g :: l < NUM_LEVELS && f in v.levels[l] && g in AddedAt(e, l) ==> f.number != g.number)
  }

  // The version that an edit makes of the current one.
  method BuildVersion(v: Version, e: FileEdit) returns (next: Version)
    requires ValidEdit(e) && NewNumbers(v, e)
    requires forall l: nat :: l < NUM_LEVELS ==> BySmallestKey(v.levels[l])
    ensures Applied(v, e, next)
    // by smallest key, then by number
    ensures forall l: nat, i, j :: l < 7 && 0 <= i < j < |next.levels[l]| ==>
      var f, g := next.levels[l][i], next.levels[l][j];
      !Less(g.smallest, f.smallest) && (f.smallest == g.smallest ==> f.number < g.number)
  {
    var builder := new Builder(v);
    builder.Apply(e);
    forall l: nat | l < NUM_LEVELS
      ensures NoClash(v.levels[l], builder.added[l], builder.deleted[l])
    {
      forall f, g | f in v.levels[l] && g in builder.added[l]
        ensures FileBefore(f, g) || FileBefore(g, f)
      {
        assert g in Members(builder.added[l]);
      }
    }
    next := builder.SaveTo();
  }

  lemma AddedAppend(e: FileEdit, l: nat, f: File)
    ensures forall m: nat :: AddedAt(FileEdit({}, e.added + [(l, f)]), m) == AddedAt(e, m) + if m == l then {f} else {}
  {
    var e' := FileEdit({}, e.added + [(l, f)]);
    forall m: nat, g
      ensures g in AddedAt(e', m) <==> g in AddedAt(e, m) || (m == l && g == f)
    {
      assert e'.added[|e.added|] == (l, f);
      assert forall i :: 0 <= i < |e.added| ==> e'.added[i] == e.added[i];
    }
  }

  // The edit that lists every file of the version.
  method WriteSnapshot(v: Version) returns (e: FileEdit)
    requires |v.levels| == NUM_LEVELS
    ensures ValidEdit(e) && e.deleted == {}
    ensures forall l: nat :: l < NUM_LEVELS ==> AddedAt(e, l) == Members(v.levels[l])
  {
    e := FileEdit({}, []);
    for l := 0 to NUM_LEVELS
      invariant ValidEdit(e) && e.deleted == {}
      invariant forall m: nat :: m < NUM_LEVELS ==> AddedAt(e, m) == if m < l then Members(v.levels[m]) else {}
    {
      var files := v.levels[l];
      for i := 0 to |files|
        invariant ValidEdit(e) && e.deleted == {}
        invariant forall m: nat :: m < NUM_LEVELS ==>
          AddedAt(e, m) == if m < l then Members(v.levels[m]) else if m == l then Members(files[..i]) else {}
      {
        AddedAppend(e, l, files[i]);
        MembersOfAppend(files[..i], files[i]);
        assert files[..i + 1] == files[..i] + [files[i]];
        e := FileEdit({}, e.added + [(l, files[i])]);
      }
      assert files[..|files|] == files;
    }
  }

  ghost function ReplayAdded(records: seq<FileEdit>, l: nat): set<File> {
    if records == [] then {} else ReplayAdded(records[..|records| - 1], l) + AddedAt(records[|records| - 1], l)
  }

  ghost function ReplayDeleted(records: seq<FileEdit>, l: nat): set<nat> {
    if records == [] then {}
    else
      var e := records[|records| - 1];
      ReplayDeleted(records[..|records| - 1], l) + DeletedAt(e, l) - Numbers(AddedAt(e, l))
  }

  ghost function Replayed(records: seq<FileEdit>, l: nat): set<File> {
    set f | f in ReplayAdded(records, l) && f.number !in ReplayDeleted(records, l)
  }

  lemma {:induction false} ReplayAddedGrows(records: seq<FileEdit>, n: nat, l: nat)
    requires n <= |records|
    ensures ReplayAdded(records[..n], l) <= ReplayAdded(records, l)
    ensures n < |records| ==> AddedAt(records[n], l) <= ReplayAdded(records, l)
  {
    if n < |records| {
      var m := |records| - 1;
      if n < m {
        ReplayAddedGrows(records[..m], n, l);
      }
      assert records[..m][..n] == records[..n];
    } else {
      assert records[..n] == records;
    }
  }

  // A run of the live version set: vs[k + 1] is vs[k] after edits[k].
  ghost predicate LiveRun(vs: seq<Version>, edits: seq<FileEdit>) {
    && |vs| == |edits| + 1
    && (forall v :: v in vs ==> |v.levels| == NUM_LEVELS && forall l: nat :: l < NUM_LEVELS ==> BySmallestKey(v.levels[l]))
    && forall k :: 0 <= k < |edits| ==> Applied(vs[k], edits[k], vs[k + 1])
  }

  ghost predicate IsSnapshotOf(e: FileEdit, v: Version) {
    && |v.levels| == NUM_LEVELS && e.deleted == {}
    && forall l: nat :: l < NUM_LEVELS ==> AddedAt(e, l) == Members(v.levels[l])
  }

  // One more record does to what a replay leaves what the edit does to a version.
  lemma ReplayStep(before: seq<FileEdit>, e: FileEdit, l: nat)
    requires Coherent(ReplayAdded(before + [e], l))
    ensures Replayed(before + [e], l) == ApplyToLevel(Replayed(before, l), e, l)
  {
    var records := before + [e];
    assert records[..|records| - 1] == before;
    forall f
      ensures f in Replayed(records, l) <==> f in ApplyToLevel(Replayed(before, l), e, l)
    {
      if f in ReplayAdded(before, l) && f.number in Numbers(AddedAt(e, l)) {
        assert f in AddedAt(e, l);
      }
    }
  }

  lemma {:induction false} ReplayedIsLive(snapshot: FileEdit, vs: seq<Version>, edits: seq<FileEdit>, n: nat, l: nat)
    requires LiveRun(vs, edits) && IsSnapshotOf(snapshot, vs[0]) && n <= |edits| && l < NUM_LEVELS
    requires Coherent(ReplayAdded([snapshot] + edits, l))
    ensures Replayed([snapshot] + edits[..n], l) == Members(vs[n].levels[l])
  {
    var records := [snapshot] + edits[..n];
    if n == 0 {
      assert records == [snapshot] && records[..0] == [];
      assert ReplayAdded([], l) == {} && ReplayDeleted([], l) == {};
    } else {
      ReplayedIsLive(snapshot, vs, edits, n - 1, l);
      assert Applied(vs[n - 1], edits[n - 1], vs[n]);
      hide Replayed, ReplayAdded, Coherent, LiveRun, IsSnapshotOf, ApplyToLevel;
      assert records == [snapshot] + edits[..n - 1] + [edits[n - 1]];
      ReplayAddedGrows([snapshot] + edits, n + 1, l);
      assert ([snapshot] + edits)[..n + 1] == records;
      CoherentPart(ReplayAdded([snapshot] + edits, l), ReplayAdded(records, l));
      ReplayStep([snapshot] + edits[..n - 1], edits[n - 1], l);
    }
  }

  /** Replaying any prefix of a manifest gives the live file lists after that prefix, in order. */
  lemma ReplayEqualsLive(snapshot: FileEdit, vs: seq<Version>, edits: seq<FileEdit>, n: nat, v: Version)
    requires LiveRun(vs, edits) && IsSnapshotOf(snapshot, vs[0]) && n <= |edits|
    requires forall l: nat :: l < NUM_LEVELS ==> Coherent(ReplayAdded([snapshot] + edits, l))
    // v is what Recover returns for the first n edits
    requires |v.levels| == NUM_LEVELS
    requires forall l: nat :: l < NUM_LEVELS ==>
      BySmallestKey(v.levels[l]) && Members(v.levels[l]) == Replayed([snapshot] + edits[..n], l)
    ensures v == vs[n]
  {
    assert vs[n] in vs;
    forall l: nat | l < NUM_LEVELS
      ensures v.levels[l] == vs[n].levels[l]
    {
      ReplayedIsLive(snapshot, vs, edits, n, l);
      BySmallestKeyIsUnique(v.levels[l], vs[n].levels[l]);
    }
    assert v.levels == vs[n].levels;
  }
}
