/** Cleanup of the database directory. */
module ObsoleteFiles {
  import opened Durability

  datatype FileName =
    | LogFile(number: nat) | DescriptorFile(number: nat) | TableFile(number: nat) | TempFile(number: nat)
    | CurrentFile | LockFile | InfoLogFile

  // The numbers that decide; prevLogNumber is zero in every store this version has written to.
  datatype Marks = Marks(live: set<nat>, logNumber: nat, prevLogNumber: nat, manifestNumber: nat)

  predicate Keep(m: Marks, f: FileName) {
    match f
    case LogFile(n) => n >= m.logNumber || n == m.prevLogNumber
    case DescriptorFile(n) => n >= m.manifestNumber
    case TableFile(n) => n in m.live
    case TempFile(n) => n in m.live
    case _ => true
  }

  function Kept(names: set<FileName>, m: Marks): set<FileName> {
    set f | f in names && Keep(m, f)
  }

  class Directory {
    var names: set<FileName>

    // files is the listing of the directory; an error recorded in the background stops cleanup.
    method DeleteObsoleteFiles(files: seq<FileName>, m: Marks, backgroundError: bool)
      requires forall f :: f in files <==> f in names
      modifies this
      ensures names == if backgroundError then old(names) else Kept(old(names), m)
      ensures names <= old(names) && (backgroundError ==> names == old(names))
      // the manifest in use and newer ones stay, older ones go
      ensures !backgroundError ==> forall n: nat :: DescriptorFile(n) in names <==> DescriptorFile(n) in old(names) && n >= m.manifestNumber
      ensures !backgroundError ==>
        forall n: nat :: LogFile(n) in names <==> LogFile(n) in old(names) && (n >= m.logNumber || n == m.prevLogNumber)
      ensures !backgroundError ==> forall n: nat :: TableFile(n) in names <==> TableFile(n) in old(names) && n in m.live
      ensures !backgroundError ==> forall n: nat :: TempFile(n) in names <==> TempFile(n) in old(names) && n in m.live
      ensures CurrentFile in names <==> CurrentFile in old(names)
      ensures LockFile in names <==> LockFile in old(names)
      ensures InfoLogFile in names <==> InfoLogFile in old(names)
    {
      if backgroundError {
        return;
      }
      for i := 0 to |files|
        invariant names == set f | f in old(names) && (f in files[..i] ==> Keep(m, f))
      {
        var keep := true;
        match files[i] {
          case LogFile(n) => keep := n >= m.logNumber || n == m.prevLogNumber;
          case DescriptorFile(n) => keep := n >= m.manifestNumber;
          case TableFile(n) => keep := n in m.live;
          case TempFile(n) => keep := n in m.live;
          case CurrentFile => keep := true;
          case LockFile => keep := true;
          case InfoLogFile => keep := true;
        }
        if !keep {
          names := names - {files[i]};
        }
      }
      assert forall f :: f in old(names) ==> f in files[..|files|];
    }
  }

  // The directory of a store with these tables and logs; other kinds of files do not matter here.
  ghost predicate Holds(names: set<FileName>, d: Disk) {
    && (forall n: nat :: TableFile(n) in names <==> n in d.tables)
    && (forall n: nat :: LogFile(n) in names <==> n in d.logs)
  }

  function MarksOf(l: Live, manifestNumber: nat): Marks {
    Marks(LiveFiles(l), l.logNumber, 0, manifestNumber)
  }

  // Cleanup is a step of the store, and a complete one: no obsolete table is left, and no obsolete
  // log but number zero, which no store uses.
  lemma CleanupIsCollect(s: State, names: set<FileName>, manifestNumber: nat) returns (dt: set<nat>, dl: set<nat>, t: State)
    requires s.mode.Up? && s.mode.live.build.None? && s.mode.live.install.None? && Holds(names, s.disk)
    ensures Collect(s, dt, dl, t)
    ensures Holds(Kept(names, MarksOf(s.mode.live, manifestNumber)), t.disk)
    ensures forall n :: n in t.disk.tables ==> n in LiveFiles(s.mode.live)
    ensures forall n :: n in t.disk.logs && n != 0 ==> n >= s.mode.live.logNumber
  {
    var l := s.mode.live;
    dt := set n | n in s.disk.tables && n !in LiveFiles(l);
    dl := set n | n in s.disk.logs && n < l.logNumber && n != 0;
    t := s.(disk := s.disk.(tables := s.disk.tables - dt, logs := s.disk.logs - dl));
  }
}
