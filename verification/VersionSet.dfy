/** VersionSet: the current version and its numbers, logged to a manifest and recovered from it. */
module VersionSets {
  import opened Keys
  import opened Wrappers
  import opened Coding
  import opened Files
  import opened Versions
  import B = Builder
  import E = EditCodec
  import opened LogFormat
  import opened LogWriter
  import LogReader
  import LogTheorems

  type FileEdit = B.FileEdit
  type Written = E.Written

  /** Edits on disk carry metadata only; what a file is follows from it. */

  // meta gives the metadata that a file is listed with, file the file that metadata stands for.
  datatype Naming = Naming(file: E.NewFile -> File, meta: File -> E.NewFile)
  {
    ghost predicate Good() {
      && (forall x :: file(meta(file(x))) == file(x))
      && (forall f :: E.Fits(E.AddedFile(0, meta(f))))
    }

    // Every file of the version is one that metadata stands for.
    ghost predicate Covers(v: Version) {
      forall l: nat, f :: l < |v.levels| && f in v.levels[l] ==> file(meta(f)) == f
    }

    function EditOf(e: E.Edit): FileEdit {
      B.FileEdit(e.deleted, seq(|e.added|, i requires 0 <= i < |e.added| => (e.added[i].0, file(e.added[i].1))))
    }

    function EditsOf(ws: seq<Written>): (r: seq<FileEdit>)
      ensures |r| == |ws| && forall i :: 0 <= i < |r| ==> r[i] == EditOf(ws[i].edit)
    {
      seq(|ws|, i requires 0 <= i < |ws| => EditOf(ws[i].edit))
    }
  }

  /** The history in a manifest: a snapshot, then one edit after the other */

  ghost predicate Counted(e: E.Edit) {
    e.logNumber.Some? && e.prevLogNumber.Some? && e.nextFile.Some? && e.lastSequence.Some?
  }

  ghost predicate Uncounted(e: E.Edit) {
    e.logNumber.None? && e.prevLogNumber.None? && e.nextFile.None? && e.lastSequence.None?
  }

  ghost predicate Readable(w: Written, names: Naming, comparator: Bytes) {
    && E.FitsEdit(w.edit, w.order) && (w.edit.comparator.Some? ==> w.edit.comparator.value == comparator)
    && B.ValidEdit(names.EditOf(w.edit))
  }

  // versions[i] is the version after record i.
  ghost predicate History(names: Naming, comparator: Bytes, ws: seq<Written>, versions: seq<Version>) {
    && |ws| == |versions| > 0
    && (forall w :: w in ws ==> Readable(w, names, comparator))
    && B.IsSnapshotOf(names.EditOf(ws[0].edit), versions[0]) && B.LiveRun(versions, names.EditsOf(ws[1..]))
    && (forall l: nat :: l < NUM_LEVELS ==> B.Coherent(B.ReplayAdded(names.EditsOf(ws), l)))
    && Uncounted(ws[0].edit) && (forall i :: 0 < i < |ws| ==> Counted(ws[i].edit))
  }

  datatype Recovery =
    | Recovered(version: Version, logNumber: nat, prevLogNumber: nat, nextFile: nat, lastSequence: nat)
    | Failed(message: string)

  // What a recovery has to find when n records are complete. A manifest whose first edit is not
  // complete is never made current.
  function Expected(ws: seq<Written>, versions: seq<Version>, n: nat): Recovery
    requires n <= |ws| == |versions| && forall i :: 0 < i < |ws| ==> Counted(ws[i].edit)
  {
    if n < 2 then Failed("no meta-nextfile entry in descriptor")
    else
      assert Counted(ws[n - 1].edit);
      var e := ws[n - 1].edit;
      Recovered(versions[n - 1], e.logNumber.value, e.prevLogNumber.value, e.nextFile.value + 1, e.lastSequence.value)
  }

  class VersionSet {
    const crc: Checksum
    const comparator: Bytes
    const names: Naming
    var current: Version
    var logNumber: nat
    var prevLogNumber: nat
    var nextFile: nat
    var lastSequence: nat
    // descriptor_log_
    var log: Writer?
    // what the manifest holds, and the version after each record
    ghost var written: seq<Written>
    ghost var versions: seq<Version>

    ghost predicate Sound()
      reads this`current
    {
      names.Good() && |comparator| < TWO32 && Listed(current) && names.Covers(current)
    }

    // The manifest holds the history of the current version.
    ghost predicate Logging()
      reads this`current, this`log, this`written, this`versions, log
    {
      && log != null && log.Valid() && log.crc == crc && log.dest == Log(crc, 0, E.ManifestRecords(written))
      && History(names, comparator, written, versions) && current == versions[|versions| - 1]
    }

    ghost predicate Valid()
      reads this, log
    {
      && Sound()
      && (log == null ==> written == [] && versions == [])
      && (log != null ==>
            && Logging() && |written| >= 2
            && written[|written| - 1].edit.logNumber == Some(logNumber)
            && written[|written| - 1].edit.prevLogNumber == Some(prevLogNumber))
    }

    // A new version set, or one that has just been recovered: the next edit starts a new manifest.
    constructor (crc: Checksum, comparator: Bytes, names: Naming, current: Version,
                 logNumber: nat, prevLogNumber: nat, nextFile: nat, lastSequence: nat)
      requires names.Good() && |comparator| < TWO32 && Listed(current) && names.Covers(current)
      ensures Valid() && log == null && this.crc == crc && this.comparator == comparator && this.names == names
      ensures this.current == current && this.logNumber == logNumber && this.prevLogNumber == prevLogNumber
      ensures this.nextFile == nextFile && this.lastSequence == lastSequence
    {
      this.crc, this.comparator, this.names, this.current := crc, comparator, names, current;
      this.logNumber, this.prevLogNumber, this.nextFile, this.lastSequence := logNumber, prevLogNumber, nextFile, lastSequence;
      log, written, versions := null, [], [];
    }

    // The edit with the numbers that are logged with it.
    function Filled(e: E.Edit): E.Edit
      reads this
    {
      e.(logNumber := if e.logNumber.Some? then e.logNumber else Some(logNumber),
         prevLogNumber := if e.prevLogNumber.Some? then e.prevLogNumber else Some(prevLogNumber),
         nextFile := Some(nextFile), lastSequence := Some(lastSequence))
    }

    // All files of the level that the manifest names so far.
    ghost function Named(l: nat): set<File>
      reads this
      requires l < |current.levels|
    {
      if log == null then Members(current.levels[l]) else B.ReplayAdded(names.EditsOf(written), l)
    }

    // The edit can be written, and the numbers of its files are new or name the same files.
    ghost predicate Acceptable(e: E.Edit)
      reads this
    {
      && e.comparator.None? && E.Encodable(Filled(e))
      && (e.logNumber.Some? ==> logNumber <= e.logNumber.value < nextFile)
      && |current.levels| == NUM_LEVELS && B.ValidEdit(names.EditOf(e)) && B.NewNumbers(current, names.EditOf(e))
      && forall l: nat :: l < NUM_LEVELS ==> B.Coherent(Named(l) + B.AddedAt(names.EditOf(e), l))
    }

    // The new version and the numbers take effect once the record is in the manifest; the first edit
    // starts a manifest with a snapshot of the version before.
    method LogAndApply(e: E.Edit)
      requires Valid() && Acceptable(e)
      modifies this, log
      ensures Valid() && log != null && (if old(log) == null then fresh(log) else log == old(log))
      ensures B.Applied(old(current), names.EditOf(e), current)
      ensures if old(log) == null then |written| == 2 && versions == [old(current), current]
              else |written| == |old(written)| + 1 && old(written) <= written && versions == old(versions) + [current]
      ensures var last := written[|written| - 1].edit;
        && last.nextFile == Some(old(nextFile)) && last.lastSequence == Some(old(lastSequence))
        && last.logNumber == Some(if e.logNumber.Some? then e.logNumber.value else old(logNumber))
        && last.prevLogNumber == Some(if e.prevLogNumber.Some? then e.prevLogNumber.value else old(prevLogNumber))
        && last.comparator == e.comparator && last.compactPointers == e.compactPointers
        && last.deleted == e.deleted && last.added == e.added
      ensures logNumber == if e.logNumber.Some? then e.logNumber.value else old(logNumber)
      ensures prevLogNumber == if e.prevLogNumber.Some? then e.prevLogNumber.value else old(prevLogNumber)
      ensures nextFile == old(nextFile) && lastSequence == old(lastSequence)
    {
      hide Sound, Logging, Listed, Naming.EditOf, Naming.EditsOf, E.Encodable, B.Coherent, B.Applied, B.ReplayAdded, B.AddedAt,
           B.NewNumbers, B.ValidEdit;
      var filled := Filled(e);
      SameFiles(names, e, filled);
      SoundLevels();
      var v := B.BuildVersion(current, names.EditOf(e));
      if log == null {
        WriteSnapshot();
      }
      AppendEdit(filled, v);
      logNumber, prevLogNumber := filled.logNumber.value, filled.prevLogNumber.value;
    }

    lemma SoundLevels()
      requires Sound()
      ensures |current.levels| == NUM_LEVELS && forall l: nat :: l < NUM_LEVELS ==> BySmallestKey(current.levels[l])
    {
    }

    // One more record, and its version becomes the current one.
    method AppendEdit(e: E.Edit, v: Version)
      requires Sound() && Logging() && Counted(e) && E.Encodable(e) && e.comparator.None?
      requires B.ValidEdit(names.EditOf(e)) && B.Applied(current, names.EditOf(e), v)
      requires forall l: nat :: l < NUM_LEVELS ==> B.Coherent(B.ReplayAdded(names.EditsOf(written), l) + B.AddedAt(names.EditOf(e), l))
      modifies this`current, this`written, this`versions, log
      ensures Sound() && Logging() && current == v && versions == old(versions) + [v]
      ensures |written| == |old(written)| + 1 && old(written) <= written && written[|written| - 1].edit == e
    {
      hide History, Listed, Naming.Good, Naming.Covers, Naming.EditOf, Naming.EditsOf, E.EncodeEdit, E.Decode, E.FitsEdit, E.Lists,
           E.Encodable, B.Coherent, B.Applied, B.ReplayAdded, B.AddedAt, B.ValidEdit, Counted;
      var record; ghost var order;
      record, order := E.EncodeTo(e);
      ghost var w := E.Written(e, order);
      ManifestGrows(crc, written, w);
      log.AddRecord(record);
      NextRecord(names, comparator, written, versions, w, v);
      current, versions, written := v, versions + [v], written + [w];
    }

    // The first record: the comparator's name and every file.
    method WriteSnapshot()
      requires Sound() && log == null
      modifies this`log, this`written, this`versions
      ensures Logging() && fresh(log) && |written| == 1 && versions == [current]
      ensures forall l: nat :: l < |current.levels| && l < NUM_LEVELS ==> B.ReplayAdded(names.EditsOf(written), l) == Members(current.levels[l])
    {
      hide History, Listed, Naming.Good, Naming.Covers, Naming.EditOf, Naming.EditsOf, E.EncodeEdit, E.Decode, E.FitsEdit, E.Lists,
           E.Encodable, B.Coherent, B.ReplayAdded, B.AddedAt, B.ValidEdit;
      SoundLevels();
      log := new Writer(crc, []);
      var files := B.WriteSnapshot(current);
      var edit := SnapshotEdit(names, comparator, files);
      SnapshotFacts(names, comparator, current, files);
      var record; ghost var order;
      record, order := E.EncodeTo(edit);
      ghost var w := E.Written(edit, order);
      LogTheorems.NoRecords(crc);
      ManifestGrows(crc, [], w);
      log.AddRecord(record);
      assert [] + [w] == [w];
      written, versions := [w], [current];
      IsReadable(w, names, comparator);
      SnapshotHistory(names, comparator, w, current);
    }
  }

  // Seven levels in order.
  ghost predicate Listed(v: Version) {
    |v.levels| == NUM_LEVELS && forall l: nat :: l < NUM_LEVELS ==> BySmallestKey(v.levels[l]) && B.Coherent(Members(v.levels[l]))
  }

  lemma NextRecord(names: Naming, comparator: Bytes, ws: seq<Written>, versions: seq<Version>, w: Written, v: Version)
    requires names.Good() && History(names, comparator, ws, versions) && names.Covers(versions[|versions| - 1])
    requires Counted(w.edit) && E.Encodable(w.edit) && E.Lists(w.order, w.edit.deleted) && w.edit.comparator.None?
    requires B.ValidEdit(names.EditOf(w.edit)) && B.Applied(versions[|versions| - 1], names.EditOf(w.edit), v)
    requires forall l: nat :: l < NUM_LEVELS ==> B.Coherent(B.ReplayAdded(names.EditsOf(ws), l) + B.AddedAt(names.EditOf(w.edit), l))
    ensures History(names, comparator, ws + [w], versions + [v]) && Listed(v) && names.Covers(v)
  {
    IsReadable(w, names, comparator);
    StillListed(names, comparator, ws, versions, w, v);
    HistoryGrows(names, comparator, ws, versions, w, v);
  }

  lemma SameFiles(names: Naming, a: E.Edit, b: E.Edit)
    requires a.deleted == b.deleted && a.added == b.added
    ensures names.EditOf(a) == names.EditOf(b)
  {
  }

  lemma IsReadable(w: Written, names: Naming, comparator: Bytes)
    requires E.Encodable(w.edit) && E.Lists(w.order, w.edit.deleted) && B.ValidEdit(names.EditOf(w.edit))
    requires w.edit.comparator.Some? ==> w.edit.comparator.value == comparator
    ensures Readable(w, names, comparator)
  {
  }

  lemma ManifestGrows(crc: Checksum, ws: seq<Written>, w: Written)
    ensures Log(crc, 0, E.ManifestRecords(ws + [w]))
         == Log(crc, 0, E.ManifestRecords(ws))
          + Encode(crc, |Log(crc, 0, E.ManifestRecords(ws))|, E.EncodeEdit(w.edit, w.order), true)
  {
    hide Log, Encode, E.EncodeEdit;
    var rs := E.ManifestRecords(ws + [w]);
    assert rs[..|ws|] == E.ManifestRecords(ws) && rs[..|ws| + 1] == rs;
    LogTheorems.LogGrows(crc, rs, |ws|);
  }

  /** The snapshot */

  function SnapshotEdit(names: Naming, comparator: Bytes, files: FileEdit): E.Edit {
    E.EMPTY.(comparator := Some(comparator),
             added := seq(|files.added|, i requires 0 <= i < |files.added| => (files.added[i].0, names.meta(files.added[i].1))))
  }

  lemma SnapshotFacts(names: Naming, comparator: Bytes, v: Version, files: FileEdit)
    requires names.Good() && |comparator| < TWO32 && names.Covers(v) && |v.levels| == NUM_LEVELS
    requires B.ValidEdit(files) && files.deleted == {}
    requires forall l: nat :: l < NUM_LEVELS ==> B.AddedAt(files, l) == Members(v.levels[l])
    ensures names.EditOf(SnapshotEdit(names, comparator, files)) == files
    ensures E.Encodable(SnapshotEdit(names, comparator, files))
    ensures Uncounted(SnapshotEdit(names, comparator, files))
  {
    var e := SnapshotEdit(names, comparator, files);
    forall i | 0 <= i < |files.added|
      ensures names.file(names.meta(files.added[i].1)) == files.added[i].1
    {
      assert files.added[i].1 in B.AddedAt(files, files.added[i].0);
      assert files.added[i].1 in v.levels[files.added[i].0];
    }
    SnapshotFits(names, comparator, files);
  }

  lemma SnapshotFits(names: Naming, comparator: Bytes, files: FileEdit)
    requires names.Good() && |comparator| < TWO32 && B.ValidEdit(files)
    ensures E.Encodable(SnapshotEdit(names, comparator, files))
  {
    var e := SnapshotEdit(names, comparator, files);
    forall order, f | E.Lists(order, e.deleted) && f in E.FieldsOf(e, order)
      ensures E.Fits(f)
    {
      HeadIsIn(order);
      if f.AddedFile? {
        var i :| 0 <= i < |e.added| && f == E.AddedFile(e.added[i].0, e.added[i].1);
        assert E.Fits(E.AddedFile(0, names.meta(files.added[i].1)));
      }
    }
  }

  lemma HeadIsIn<T>(s: seq<T>)
    ensures s == [] || s[0] in s
  {
  }

  lemma SnapshotHistory(names: Naming, comparator: Bytes, w: Written, v: Version)
    requires Listed(v) && Readable(w, names, comparator) && Uncounted(w.edit)
    requires w.edit.deleted == {} && forall l: nat :: l < NUM_LEVELS ==> B.AddedAt(names.EditOf(w.edit), l) == Members(v.levels[l])
    ensures History(names, comparator, [w], [v])
    ensures forall l: nat :: l < NUM_LEVELS ==> B.ReplayAdded(names.EditsOf([w]), l) == Members(v.levels[l])
  {
    hide Readable, B.AddedAt;
    forall l: nat | l < NUM_LEVELS
      ensures B.ReplayAdded(names.EditsOf([w]), l) == Members(v.levels[l])
    {
      assert names.EditsOf([w])[..0] == [];
    }
  }

  /** One more edit */

  lemma ReplayGrows(names: Naming, ws: seq<Written>, w: Written, l: nat)
    ensures B.ReplayAdded(names.EditsOf(ws + [w]), l) == B.ReplayAdded(names.EditsOf(ws), l) + B.AddedAt(names.EditOf(w.edit), l)
  {
    assert names.EditsOf(ws + [w])[..|ws|] == names.EditsOf(ws);
  }

  lemma HistoryGrows(names: Naming, comparator: Bytes, ws: seq<Written>, versions: seq<Version>, w: Written, v: Version)
    requires History(names, comparator, ws, versions) && Readable(w, names, comparator) && Counted(w.edit)
    requires B.Applied(versions[|versions| - 1], names.EditOf(w.edit), v)
    requires forall l: nat :: l < NUM_LEVELS ==> B.Coherent(B.ReplayAdded(names.EditsOf(ws), l) + B.AddedAt(names.EditOf(w.edit), l))
    ensures History(names, comparator, ws + [w], versions + [v])
  {
    hide Readable, B.Coherent, B.ReplayAdded, B.AddedAt, B.IsSnapshotOf;
    forall l: nat | l < NUM_LEVELS
      ensures B.Coherent(B.ReplayAdded(names.EditsOf(ws + [w]), l))
    {
      ReplayGrows(names, ws, w, l);
    }
    assert names.EditsOf((ws + [w])[1..]) == names.EditsOf(ws[1..]) + [names.EditOf(w.edit)];
    RunGrows(versions, names.EditsOf(ws[1..]), names.EditOf(w.edit), v);
  }

  lemma RunGrows(versions: seq<Version>, edits: seq<FileEdit>, e: FileEdit, v: Version)
    requires B.LiveRun(versions, edits) && B.Applied(versions[|versions| - 1], e, v)
    ensures B.LiveRun(versions + [v], edits + [e])
  {
    hide B.ApplyToLevel;
  }

  // What the current version lists has been named in the manifest.
  lemma CurrentIsNamed(names: Naming, comparator: Bytes, ws: seq<Written>, versions: seq<Version>, l: nat)
    requires History(names, comparator, ws, versions) && l < NUM_LEVELS
    ensures var v := versions[|versions| - 1]; |v.levels| == NUM_LEVELS && Members(v.levels[l]) <= B.ReplayAdded(names.EditsOf(ws), l)
  {
    var n := |ws| - 1;
    var snapshot, edits := names.EditOf(ws[0].edit), names.EditsOf(ws[1..]);
    assert [snapshot] + edits == names.EditsOf(ws) && edits[..n] == edits;
    assert versions[n] in versions;
    hide History, B.LiveRun, B.ReplayAdded, B.IsSnapshotOf, B.Coherent;
    HistoryRun(names, comparator, ws, versions);
    B.ReplayedIsLive(snapshot, versions, edits, n, l);
  }

  lemma HistoryRun(names: Naming, comparator: Bytes, ws: seq<Written>, versions: seq<Version>)
    requires History(names, comparator, ws, versions)
    ensures |ws| == |versions| > 0
    ensures B.LiveRun(versions, names.EditsOf(ws[1..])) && B.IsSnapshotOf(names.EditOf(ws[0].edit), versions[0])
    ensures [names.EditOf(ws[0].edit)] + names.EditsOf(ws[1..]) == names.EditsOf(ws)
    ensures forall l: nat :: l < NUM_LEVELS ==> B.Coherent(B.ReplayAdded(names.EditsOf(ws), l))
  {
  }

  lemma StillListed(names: Naming, comparator: Bytes, ws: seq<Written>, versions: seq<Version>, w: Written, v: Version)
    requires names.Good() && History(names, comparator, ws, versions) && names.Covers(versions[|versions| - 1])
    requires B.Applied(versions[|versions| - 1], names.EditOf(w.edit), v)
    requires forall l: nat :: l < NUM_LEVELS ==> B.Coherent(B.ReplayAdded(names.EditsOf(ws), l) + B.AddedAt(names.EditOf(w.edit), l))
    ensures Listed(v) && names.Covers(v)
  {
    HistoryRun(names, comparator, ws, versions);
    hide History, B.ReplayAdded;
    var before := versions[|versions| - 1];
    forall l: nat | l < NUM_LEVELS
      ensures B.Coherent(Members(v.levels[l])) && BySmallestKey(v.levels[l])
      ensures forall f :: f in v.levels[l] ==> names.file(names.meta(f)) == f
    {
      CurrentIsNamed(names, comparator, ws, versions, l);
      LevelAfter(names, before, w.edit, v, l);
      B.CoherentPart(B.ReplayAdded(names.EditsOf(ws), l) + B.AddedAt(names.EditOf(w.edit), l), Members(v.levels[l]));
    }
  }

  lemma LevelAfter(names: Naming, before: Version, e: E.Edit, v: Version, l: nat)
    requires names.Good() && names.Covers(before) && B.Applied(before, names.EditOf(e), v) && l < NUM_LEVELS
    ensures BySmallestKey(v.levels[l]) && Members(v.levels[l]) <= Members(before.levels[l]) + B.AddedAt(names.EditOf(e), l)
    ensures forall f :: f in v.levels[l] ==> names.file(names.meta(f)) == f
  {
    forall f | f in v.levels[l]
      ensures names.file(names.meta(f)) == f
    {
      assert f in Members(v.levels[l]);
      if f in B.AddedAt(names.EditOf(e), l) {
        var i :| 0 <= i < |e.added| && f == names.file(e.added[i].1);
        assert names.file(names.meta(names.file(e.added[i].1))) == f;
      } else {
        assert f in Members(before.levels[l]) && f in before.levels[l];
      }
    }
  }

  /** Recovery: one builder over the empty version for the whole manifest */

  // The numbers that the records read so far have set.
  datatype Counters = Counters(logNumber: Option<nat>, prevLogNumber: Option<nat>, nextFile: Option<nat>, lastSequence: Option<nat>)
  {
    function After(e: E.Edit): Counters {
      Counters(if e.logNumber.Some? then e.logNumber else logNumber, if e.prevLogNumber.Some? then e.prevLogNumber else prevLogNumber,
               if e.nextFile.Some? then e.nextFile else nextFile, if e.lastSequence.Some? then e.lastSequence else lastSequence)
    }
  }

  const NO_COUNTERS := Counters(None, None, None, None)

  // What the records before i leave of the numbers.
  function CountersBefore(ws: seq<Written>, i: nat): Counters
    requires i <= |ws|
  {
    if i < 2 then NO_COUNTERS
    else
      var e := ws[i - 1].edit;
      Counters(e.logNumber, e.prevLogNumber, e.nextFile, e.lastSequence)
  }

  lemma CountersNext(names: Naming, comparator: Bytes, ws: seq<Written>, versions: seq<Version>, i: nat)
    requires History(names, comparator, ws, versions) && i < |ws|
    ensures CountersBefore(ws, i).After(ws[i].edit) == CountersBefore(ws, i + 1)
  {
    RecordFacts(names, comparator, ws, versions, i);
    hide History, E.Decode, E.ManifestRecords;
  }

  // The builder has seen these edits.
  ghost predicate Replays(b: B.Builder, edits: seq<FileEdit>)
    reads b
  {
    && b.Valid() && b.base == NoFiles()
    && forall l: nat :: l < NUM_LEVELS ==>
         Members(b.added[l]) == B.ReplayAdded(edits, l) && b.deleted[l] == B.ReplayDeleted(edits, l)
  }

  function NoFiles(): Version {
    Version(seq(NUM_LEVELS, _ => []))
  }

  // The first n records of the manifest are the complete ones in its first bytes, the image.
  ghost predicate Completes(crc: Checksum, ws: seq<Written>, image: Bytes, n: nat) {
    && image <= Log(crc, 0, E.ManifestRecords(ws)) && n <= |ws|
    && forall i :: 0 <= i <= |ws| ==> (i <= n <==> |Log(crc, 0, E.ManifestRecords(ws)[..i])| <= |image|)
  }

  // What the last complete record says; the snapshot alone says too little.
  ghost predicate LastNumbers(ws: seq<Written>, versions: seq<Version>, n: nat, r: Recovery) {
    && n <= |ws| == |versions|
    && if n < 2 then r == Failed("no meta-nextfile entry in descriptor")
       else
         && r.Recovered? && r.version == versions[n - 1]
         && ws[n - 1].edit.logNumber == Some(r.logNumber) && ws[n - 1].edit.prevLogNumber == Some(r.prevLogNumber)
         && ws[n - 1].edit.nextFile == Some(r.nextFile - 1) && ws[n - 1].edit.lastSequence == Some(r.lastSequence)
  }

  lemma ExpectedIs(names: Naming, comparator: Bytes, ws: seq<Written>, versions: seq<Version>, n: nat)
    requires History(names, comparator, ws, versions) && n <= |ws| == |versions|
    ensures LastNumbers(ws, versions, n, Expected(ws, versions, n))
  {
    hide Readable, B.LiveRun, B.Coherent;
  }

  // From any first part of the manifest.
  method Recover(crc: Checksum, comparator: Bytes, names: Naming, image: Bytes, ghost ws: seq<Written>, ghost versions: seq<Version>)
    returns (r: Recovery, ghost n: nat)
    requires History(names, comparator, ws, versions) && image <= Log(crc, 0, E.ManifestRecords(ws))
    ensures Completes(crc, ws, image, n) && r == Expected(ws, versions, n)
    ensures forall i: nat :: Completes(crc, ws, image, i) ==> r == Expected(ws, versions, i)
    ensures LastNumbers(ws, versions, n, r)
  {
    hide History, Replays, Log, LogReader.ReadAll, LogReader.ReadLogical, LogTheorems.ReadSoFar, LogReader.Within, E.Decode,
         Naming.EditOf, Naming.EditsOf, B.ValidEdit, CountersBefore, Counters.After, Expected, Completes, LastNumbers, E.EncodeEdit;
    SameLength(names, comparator, ws, versions);
    ghost var rs := E.ManifestRecords(ws);
    ghost var edits := names.EditsOf(ws);
    n := CompleteRecords(crc, ws, image);
    ExpectedIs(names, comparator, ws, versions, n);
    var reader := new LogReader.Reader(crc, true, image);
    var builder := new B.Builder(NoFiles());
    ReplaysNothing(builder, edits);
    var counters := NO_COUNTERS;
    assert CountersBefore(ws, 0) == NO_COUNTERS by { NoneBefore(ws); }
    var status: Option<string> := None;
    ghost var i := 0;
    while true
      invariant reader.Valid() && reader.crc == crc && reader.checksum && reader.file == image
      invariant i <= n <= |ws| && LogTheorems.ReadSoFar(crc, image, reader.Abs(), rs[i..n])
      invariant fresh(builder) && Replays(builder, edits[..i]) && counters == CountersBefore(ws, i) && status.None?
      decreases n - i
    {
      LogTheorems.ReadsNext(crc, image, reader.Abs(), rs[i..n]);
      var more, record := reader.ReadRecord();
      if reader.drops != [] {
        status := Some("corruption");
      }
      if !more || status.Some? {
        break;
      }
      RecordFacts(names, comparator, ws, versions, i);
      var edit;
      edit, status := ReadEdit(record, comparator);
      if status.None? {
        ApplyNext(builder, names, comparator, edit, ws, versions, i);
      }
      counters := counters.After(edit);
      CountersNext(names, comparator, ws, versions, i);
      i := i + 1;
    }
    assert rs[i..n] == [] && i == n;
    r := Conclude(builder, counters, names, comparator, ws, versions, n);
    CompletesOnce(crc, ws, image, n);
  }

  lemma CompletesOnce(crc: Checksum, ws: seq<Written>, image: Bytes, n: nat)
    requires Completes(crc, ws, image, n)
    ensures forall i: nat :: Completes(crc, ws, image, i) ==> i == n
  {
    hide Log, E.ManifestRecords;
    forall i: nat | Completes(crc, ws, image, i)
      ensures i == n
    {
      assert |Log(crc, 0, E.ManifestRecords(ws)[..i])| <= |image| && |Log(crc, 0, E.ManifestRecords(ws)[..n])| <= |image|;
    }
  }

  lemma NoneBefore(ws: seq<Written>)
    ensures CountersBefore(ws, 0) == NO_COUNTERS
  {
  }

  method ReadEdit(record: Bytes, comparator: Bytes) returns (edit: E.Edit, status: Option<string>)
    ensures var d := E.Decode(E.EMPTY, record);
      && (d.Ok? ==> edit == d.edit)
      && (status.None? <==> d.Ok? && (d.edit.comparator.Some? ==> d.edit.comparator.value == comparator))
  {
    var decoded := E.DecodeFrom(record);
    match decoded {
      case Corruption(message) => edit, status := E.EMPTY, Some(message);
      case Ok(e) =>
        edit, status := e, None;
        if e.comparator.Some? && e.comparator.value != comparator {
          status := Some("does not match existing comparator");
        }
    }
  }

  // The end of a recovery without errors.
  method Conclude(b: B.Builder, c: Counters, names: Naming, comparator: Bytes, ghost ws: seq<Written>, ghost versions: seq<Version>, ghost n: nat)
    returns (r: Recovery)
    requires History(names, comparator, ws, versions) && n <= |ws| == |versions|
    requires Replays(b, names.EditsOf(ws)[..n]) && c == CountersBefore(ws, n)
    ensures r == Expected(ws, versions, n)
  {
    hide History, Replays, Naming.EditsOf;
    EnoughRecords(names, comparator, ws, versions, n);
    if c.nextFile.None? {
      r := Failed("no meta-nextfile entry in descriptor");
    } else if c.logNumber.None? {
      r := Failed("no meta-lognumber entry in descriptor");
    } else if c.lastSequence.None? {
      r := Failed("no last-sequence-number entry in descriptor");
    } else {
      var prev := if c.prevLogNumber.Some? then c.prevLogNumber.value else 0;
      var v := SaveRecovered(b, names, comparator, ws, versions, n);
      r := Recovered(v, c.logNumber.value, prev, c.nextFile.value + 1, c.lastSequence.value);
    }
  }

  lemma CompleteRecords(crc: Checksum, ws: seq<Written>, image: Bytes) returns (n: nat)
    requires image <= Log(crc, 0, E.ManifestRecords(ws))
    ensures Completes(crc, ws, image, n) && n <= |ws|
    ensures LogTheorems.ReadSoFar(crc, image, LogReader.START, E.ManifestRecords(ws)[0..n])
  {
    hide Log, LogReader.ReadAll, E.EncodeEdit;
    var rs := E.ManifestRecords(ws);
    LogTheorems.CrashPrefix(crc, true, rs, |image|);
    assert image == Log(crc, 0, rs)[..|image|];
    n := |LogReader.ReadAll(crc, true, image, LogReader.START).records|;
  }

  lemma ReplaysNothing(b: B.Builder, edits: seq<FileEdit>)
    requires b.Valid() && b.base == NoFiles() && forall l: nat :: l < NUM_LEVELS ==> b.deleted[l] == {} && b.added[l] == []
    ensures Replays(b, edits[..0])
  {
  }

  // What is known about record i when it is read.
  lemma RecordFacts(names: Naming, comparator: Bytes, ws: seq<Written>, versions: seq<Version>, i: nat)
    requires History(names, comparator, ws, versions) && i < |ws|
    ensures E.Decode(E.EMPTY, E.ManifestRecords(ws)[i]) == E.Ok(ws[i].edit)
    ensures ws[i].edit.comparator.Some? ==> ws[i].edit.comparator.value == comparator
    ensures if i == 0 then Uncounted(ws[i].edit) else Counted(ws[i].edit)
  {
    assert Readable(ws[i], names, comparator);
    hide History, E.Decode, E.EncodeEdit;
    E.RoundTrip(ws[i].edit, ws[i].order);
  }

  method ApplyNext(b: B.Builder, names: Naming, comparator: Bytes, e: E.Edit, ghost ws: seq<Written>, ghost versions: seq<Version>, ghost i: nat)
    requires History(names, comparator, ws, versions) && i < |ws| && e == ws[i].edit && Replays(b, names.EditsOf(ws)[..i])
    modifies b
    ensures Replays(b, names.EditsOf(ws)[..i + 1])
  {
    hide History, Naming.EditOf;
    ghost var edits := names.EditsOf(ws);
    EditFacts(names, comparator, ws, versions, i);
    assert edits[..i + 1][..i] == edits[..i];
    b.Apply(names.EditOf(e));
  }

  lemma EditFacts(names: Naming, comparator: Bytes, ws: seq<Written>, versions: seq<Version>, i: nat)
    requires History(names, comparator, ws, versions) && i < |ws|
    ensures B.ValidEdit(names.EditOf(ws[i].edit)) && names.EditsOf(ws)[i] == names.EditOf(ws[i].edit)
    ensures forall l: nat :: l < NUM_LEVELS ==>
      B.Coherent(B.ReplayAdded(names.EditsOf(ws)[..i], l) + B.AddedAt(names.EditOf(ws[i].edit), l))
  {
    assert Readable(ws[i], names, comparator);
    HistoryRun(names, comparator, ws, versions);
    hide History, Readable, B.ReplayAdded, B.Coherent, B.AddedAt;
    forall l: nat | l < NUM_LEVELS
      ensures B.Coherent(B.ReplayAdded(names.EditsOf(ws)[..i], l) + B.AddedAt(names.EditOf(ws[i].edit), l))
    {
      B.ReplayAddedGrows(names.EditsOf(ws), i, l);
      B.CoherentPart(B.ReplayAdded(names.EditsOf(ws), l),
                     B.ReplayAdded(names.EditsOf(ws)[..i], l) + B.AddedAt(names.EditOf(ws[i].edit), l));
    }
  }

  lemma EnoughRecords(names: Naming, comparator: Bytes, ws: seq<Written>, versions: seq<Version>, n: nat)
    requires History(names, comparator, ws, versions) && n <= |ws|
    ensures |versions| == |ws| && (n >= 2 ==> Counted(ws[n - 1].edit))
    ensures forall i :: 0 < i < |ws| ==> Counted(ws[i].edit)
  {
  }

  method SaveRecovered(b: B.Builder, names: Naming, comparator: Bytes, ghost ws: seq<Written>, ghost versions: seq<Version>, ghost n: nat)
    returns (v: Version)
    requires History(names, comparator, ws, versions) && 0 < n <= |ws| && Replays(b, names.EditsOf(ws)[..n])
    ensures |versions| == |ws| && v == versions[n - 1]
  {
    v := b.SaveTo();
    HistoryRun(names, comparator, ws, versions);
    ghost var edits := names.EditsOf(ws);
    assert edits[..n] == [edits[0]] + edits[1..][..n - 1];
    hide History, Naming.EditOf, Naming.EditsOf;
    B.ReplayEqualsLive(edits[0], versions, edits[1..], n - 1, v);
  }

  // Opening the whole manifest gives the live version and numbers back.
  method Reopen(live: VersionSet) returns (r: VersionSet)
    requires live.Valid() && live.log != null
    ensures fresh(r) && r.Valid() && r.log == null && r.names == live.names && r.comparator == live.comparator
    ensures r.current == live.current && r.logNumber == live.logNumber && r.prevLogNumber == live.prevLogNumber
    ensures var e := live.written[|live.written| - 1].edit;
      e.nextFile.Some? && e.lastSequence.Some? && r.nextFile == e.nextFile.value + 1 && r.lastSequence == e.lastSequence.value
  {
    hide *;
    LiveNumbers(live);
    LiveHistory(live);
    SoundParts(live);
    ghost var ws := live.written;
    LastExpected(live.names, live.comparator, ws, live.versions);
    var found; ghost var n;
    found, n := Recover(live.crc, live.comparator, live.names, live.log.dest, ws, live.versions);
    WholeLog(live.crc, ws, n);
    r := new VersionSet(live.crc, live.comparator, live.names, found.version, found.logNumber, found.prevLogNumber, found.nextFile, found.lastSequence);
  }

  // A process that stops right after an edit and is opened again goes on with the same numbers, file
  // numbers above every one handed out before.
  method LogAndReopen(live: VersionSet, e: E.Edit) returns (r: VersionSet)
    requires live.Valid() && live.Acceptable(e)
    modifies live, live.log
    ensures fresh(r) && r.Valid() && r.current == live.current && B.Applied(old(live.current), live.names.EditOf(e), r.current)
    ensures r.lastSequence == old(live.lastSequence) && r.nextFile == old(live.nextFile) + 1
    ensures r.logNumber == if e.logNumber.Some? then e.logNumber.value else old(live.logNumber)
    ensures r.prevLogNumber == if e.prevLogNumber.Some? then e.prevLogNumber.value else old(live.prevLogNumber)
  {
    hide VersionSet.Valid, VersionSet.Acceptable, B.Applied, Naming.EditOf;
    live.LogAndApply(e);
    r := Reopen(live);
  }

  lemma WholeLog(crc: Checksum, ws: seq<Written>, n: nat)
    requires Completes(crc, ws, Log(crc, 0, E.ManifestRecords(ws)), n)
    ensures n == |ws|
  {
    hide Log;
    assert E.ManifestRecords(ws)[..|ws|] == E.ManifestRecords(ws);
  }

  lemma LiveNumbers(live: VersionSet)
    requires live.Valid() && live.log != null
    ensures live.Sound() && live.Logging() && |live.written| >= 2
    ensures live.written[|live.written| - 1].edit.logNumber == Some(live.logNumber)
    ensures live.written[|live.written| - 1].edit.prevLogNumber == Some(live.prevLogNumber)
  {
    hide VersionSet.Sound, VersionSet.Logging;
  }

  lemma LiveHistory(live: VersionSet)
    requires live.Logging()
    ensures live.log != null && live.log.dest == Log(live.crc, 0, E.ManifestRecords(live.written))
    ensures History(live.names, live.comparator, live.written, live.versions)
    ensures |live.written| == |live.versions| > 0 && live.current == live.versions[|live.versions| - 1]
  {
    hide History, Log, E.ManifestRecords;
    SameLength(live.names, live.comparator, live.written, live.versions);
  }

  lemma SoundParts(live: VersionSet)
    requires live.Sound()
    ensures live.names.Good() && |live.comparator| < TWO32 && Listed(live.current) && live.names.Covers(live.current)
  {
  }

  lemma SameLength(names: Naming, comparator: Bytes, ws: seq<Written>, versions: seq<Version>)
    requires History(names, comparator, ws, versions)
    ensures |ws| == |versions| > 0
  {
  }

  lemma LastExpected(names: Naming, comparator: Bytes, ws: seq<Written>, versions: seq<Version>)
    requires History(names, comparator, ws, versions) && |ws| == |versions| >= 2
    ensures forall i :: 0 < i < |ws| ==> Counted(ws[i].edit)
    ensures var e := ws[|ws| - 1].edit;
      && e.logNumber.Some? && e.prevLogNumber.Some? && e.nextFile.Some? && e.lastSequence.Some?
      && Expected(ws, versions, |ws|)
           == Recovered(versions[|ws| - 1], e.logNumber.value, e.prevLogNumber.value, e.nextFile.value + 1, e.lastSequence.value)
  {
    EnoughRecords(names, comparator, ws, versions, |ws|);
    hide History;
    assert Counted(ws[|ws| - 1].edit);
  }
}
