/**
 What runs of commands can reach. No run changes how many clusters are in use and on the counter together, and every
 file needs a cluster of its own. So on the driver's own disk, which starts with one file and a zero counter, `cp` and
 the second `fs_mkdir` of a slashed path never find the clusters they need; on disks built with more files they do,
 once some of these have been deleted. Built disks also show that what a session meets in the shared buffer is no
 function of the map of files.
 */
module Reached {
  import opened Bytes
  import opened Chains
  import opened Allocator
  import opened Names
  import opened Directory
  import opened VolumeState
  import opened FileContent
  import opened VolumeOps
  import opened AbstractFs
  import opened Refinement
  import opened Edits
  import opened Writes
  import opened OpenHandles
  import opened Sessions
  import opened Runs
  import opened Copies
  import opened Limits
  import opened RamDisk

  // ---- the supply of clusters ----

  /** Clusters in use, and those that the counter will still give. */
  ghost function Supply(v: Vol): nat { |UsedSet(v.fat)| + v.free }

  /** The clusters of a table of `n` entries. */
  ghost function Numbers(n: nat): (s: set<nat>)
    ensures forall c :: c in s <==> 2 <= c < n
    ensures |s| == if n < 2 then 0 else n - 2
  {
    if n <= 2 then {} else Numbers(n - 1) + {n - 1}
  }

  lemma UsedAndFree(fat: seq<nat>)
    requires |fat| >= 2
    ensures |UsedSet(fat)| + |FreeSet(fat)| == |fat| - 2
  {
    assert UsedSet(fat) + FreeSet(fat) == Numbers(|fat|);
  }

  /** Every run takes as many clusters into use as it takes from the counter, and gives back likewise. */
  lemma RunKeepsSupply(v: Vol, ops: seq<Op>)
    requires Inv(v) && Addressable(v) && v.Bpc() > 0 && RunOk(Abs(v), ops, Capacity(v))
    ensures Shaped(v) && Inv(Run(v, ops)) && Supply(Run(v, ops)) == Supply(v)
  {
    hide Inv, Run, RunOk, Abs, AbsRun, UsedSet, FreeSet, Trace, TraceFits, Addressable;
    LoadedInv(v);
    RunRefines(v, ops);
    var v' := Run(v, ops);
    UsedAndFree(v.fat);
    UsedAndFree(v'.fat);
  }

  lemma {:induction false} InjectionCount(names: set<Name>, first: map<Name, nat>, s: set<nat>)
    requires forall n :: n in names ==> n in first && first[n] in s
    requires forall m, n :: m in names && n in names && m != n ==> first[m] != first[n]
    ensures |names| <= |s|
    decreases |names|
  {
    if names != {} {
      var n :| n in names;
      InjectionCount(names - {n}, first, s - {first[n]});
    }
  }

  ghost function Firsts(v: Vol): map<Name, nat>
    requires DirOk(v.RootEntries())
  {
    var cat := Catalog(v.RootEntries());
    map n | n in cat :: cat[n].first
  }

  lemma FirstsApart(v: Vol, i: nat, j: nat)
    requires Inv(v) && i < |v.RootEntries()| && j < |v.RootEntries()| && i != j
    requires v.RootEntries()[i].IsLive() && v.RootEntries()[j].IsLive()
    ensures v.RootEntries()[i].first != v.RootEntries()[j].first
  {
    hide Entries, Vol.RootEntries, Entry.IsLive, DirOk, Counted, Fitting, IsChain, Chain;
    InvParts(v);
    LiveChain(v, i);
    LiveChain(v, j);
    assert ChainsIn(v)[i][0] in ChainsIn(v)[i] && ChainsIn(v)[j][0] in ChainsIn(v)[j];
  }

  lemma FirstIsUsed(v: Vol, i: nat)
    requires Inv(v) && i < |v.RootEntries()| && v.RootEntries()[i].IsLive()
    ensures v.RootEntries()[i].first in UsedSet(v.fat) - {v.root} && v.root in UsedSet(v.fat)
  {
    hide Entries, Vol.RootEntries, Entry.IsLive, DirOk, Counted, Fitting;
    InvParts(v);
    LiveChain(v, i);
    ChainNotFree(v.fat, ChainsIn(v)[i]);
    assert ChainsIn(v)[i][0] in ChainsIn(v)[i];
  }

  lemma RootIsUsed(v: Vol)
    requires Inv(v)
    ensures v.root in UsedSet(v.fat)
  {
    hide Entries;
    InvParts(v);
  }

  /** Every file and the root have a cluster of their own. */
  lemma FilesNeedClusters(v: Vol)
    requires Inv(v)
    ensures |Files(v)| + 1 <= |UsedSet(v.fat)|
  {
    hide Inv, Entries, Vol.RootEntries, Entry.IsLive, DirOk, Catalog, UsedSet, FileOf;
    LoadedInv(v);
    RootIsUsed(v);
    var cat := Catalog(v.RootEntries());
    forall n | n in cat
      ensures cat[n].first in UsedSet(v.fat) - {v.root}
    {
      var i := CatalogWitness(v.RootEntries(), n);
      FirstIsUsed(v, i);
    }
    forall m, n | m in cat && n in cat && m != n
      ensures cat[m].first != cat[n].first
    {
      var i := CatalogWitness(v.RootEntries(), m);
      var j := CatalogWitness(v.RootEntries(), n);
      FirstsApart(v, i, j);
    }
    InjectionCount(cat.Keys, Firsts(v), UsedSet(v.fat) - {v.root});
    assert Files(v).Keys == cat.Keys;
  }

  // ---- the built disks ----

  /** A built volume has one cluster in use for each of its files, and the root's. */
  lemma FreshSupply(v: Vol, files: seq<IsoFile>)
    requires FreshVolume(v, files)
    ensures Supply(v) == |files| + 1
  {
    hide DataWith;
    assert UsedSet(v.fat) == Numbers(3 + |files|);
  }

  /** On a disk built with `n` files there are never more than `n` files and free clusters together. */
  lemma FilesAndFree(v: Vol, files: seq<IsoFile>, ops: seq<Op>)
    requires FreshVolume(v, files) && NamesOk(files) && Addressable(v) && RunOk(Abs(v), ops, Capacity(v))
    ensures Inv(v) && Shaped(v)
    ensures var v' := Run(v, ops); Inv(v') && |Files(v')| + v'.free <= |files|
  {
    hide Inv, FreshVolume, NamesOk, Run, RunOk, Abs, Files, UsedSet, Addressable;
    FreshSize(v, files);
    BuiltIsSoundIff(v, files);
    FreshSupply(v, files);
    RunKeepsSupply(v, ops);
    FilesNeedClusters(Run(v, ops));
  }

  /** So on the driver's own disk, whatever has been done before, there is at most one file, no cluster for a copy while
      there is something to copy, and never two clusters for two directories. */
  lemma DriverDiskStaysFull(v: Vol, ops: seq<Op>)
    requires FreshVolume(v, [DRIVER_FILE]) && Addressable(v) && RunOk(Abs(v), ops, Capacity(v))
    ensures Inv(v) && Shaped(v)
    ensures var v' := Run(v, ops);
            && |Files(v')| <= 1 && v'.free < 2
            && forall src, dst :: !MayCopy(v', src, dst)
  {
    hide Inv, FreshVolume, Run, RunOk, Abs, Files, Addressable, MayCopy;
    DriverFileIsNamed();
    FilesAndFree(v, [DRIVER_FILE], ops);
    var v' := Run(v, ops);
    forall src, dst
      ensures !MayCopy(v', src, dst)
    {
      CopyNeedsTwo(v', src, dst);
    }
  }

  lemma DriverFileIsNamed()
    ensures NamesOk([DRIVER_FILE])
  {
  }

  lemma CopyNeedsTwo(v: Vol, src: Name, dst: Name)
    ensures MayCopy(v, src, dst) ==> |Files(v)| + v.free >= 2
  {
    hide Files, Inv, Vacancy;
    if MayCopy(v, src, dst) { assert Files(v) != map[]; }
  }

  // ---- deleting on a built disk ----

  /** Deleting a file leaves the other entries where they were. */
  lemma DeleteKeepsEntry(v: Vol, name: Name, i: nat)
    requires Inv(v) && name in Files(v) && i < |v.RootEntries()| && v.RootEntries()[i].name != name
    ensures var v' := DeleteFile(v, name).0;
            i < |v'.RootEntries()| && v'.RootEntries()[i] == v.RootEntries()[i]
  {
    hide Inv, Entries, FileOf, Find, Catalog, DirOk, WithDeleted, FreeChain, Entry.IsDirectory;
    LoadedInv(v);
    FindIsLookup(v.RootEntries(), name);
    var k := Find(v.RootEntries(), name, 0).value;
    DeletedRefines(v.data[v.root], k);
  }

  /** A file of one cluster deleted by its path: the cluster is on the counter, the slot is vacant, the other files are
      as they were. */
  ghost predicate Deleted(v: Vol, name: Name, v': Vol)
  {
    && Inv(v') && v'.Bpc() == v.Bpc() && |v'.fat| == |v.fat| && v'.free == v.free + 1
    && |VacantSlots(v'.RootEntries())| == |VacantSlots(v.RootEntries())| + 1
    && Files(v') == Files(v) - {name}
  }

  lemma DeletesOne(v: Vol, p: seq<Byte>, f: IsoFile)
    requires Inv(v) && p != [] && NameOf(p) == f.name && Shows(v, f)
    ensures Shaped(v) && Deleted(v, f.name, DeleteFile(v, f.name).0)
  {
    hide Inv, Entries, DeleteFile, VacantSlots, Files, Vol.RootEntries;
    LoadedInv(v);
    DeleteRefines(v, f.name);
    AbsFields(v);
    AbsFields(DeleteFile(v, f.name).0);
    NotADirectoryFile(Files(v)[f.name]);
  }

  lemma NotADirectoryFile(f: AbsFile)
    ensures f.attr == ATTR_ARCHIVE ==> !f.IsDirectory()
  {
  }

  lemma RunOfDelete(v: Vol, p: seq<Byte>)
    requires Shaped(v) && p != []
    ensures Run(v, [DeleteOp(p)]) == DeleteFile(v, NameOf(p)).0
  {
    hide DeleteFile;
    var ops := [DeleteOp(p)];
    assert ops[1..] == [];
    assert Run(Step(v, ops[0]), []) == Step(v, ops[0]);
  }

  // ---- cp ----

  /** Opening source and copy leaves the entries of the other files in the directory where they were. */
  lemma CopyDirKeeps(v: Vol, src: seq<Byte>, dst: seq<Byte>, i: nat)
    requires MayCopy(v, NameOf(src), NameOf(dst)) && i < |v.RootEntries()| && v.RootEntries()[i].IsLive()
    ensures Shaped(v) && i < Count(CopyDir(v, src, dst)) && Entries(CopyDir(v, src, dst))[i] == v.RootEntries()[i]
  {
    hide Inv, Entries, CreateWith, Vacancy, Find, Catalog, VacantSlots, FileOf, To83, Entry.IsLive, Storable, DirOk;
    LoadedInv(v);
    var v0 := v.Loaded(v.root);
    FindIsLookup(v.RootEntries(), NameOf(src));
    FindIsLookup(v.RootEntries(), NameOf(dst));
    OpenFinds(v0, src, MODE_READ);
    OpenMisses(v0, dst, MODE_WRITE);
    LoadedSame(v, v.root);
    CreateEffect(v0, NameOf(dst), ATTR_ARCHIVE);
    LiveNotVacant(v.RootEntries()[i]);
  }

  lemma LiveNotVacant(e: Entry)
    ensures e.IsLive() ==> !e.IsVacant()
  {
  }

  /** The first byte of a copy of more than one chunk is the directory's. */
  lemma CopiedFirstByte(f: seq<Byte>, n: nat, dir: seq<Byte>, j: nat)
    requires CHUNK < n <= |f| < WORD && |dir| > CHUNK && j < Count(dir)
    ensures Copied(f, n, dir, j)[0] == dir[0]
  {
    assert BlockStart(0, |dir|) == 0;
    assert WithSize(dir, j, LastChunk(0, Min(n, |dir|)))[0] == dir[0];
  }

  lemma DirectoryStarts(dir: seq<Byte>, name: Name)
    requires 0 < Count(dir) && Entries(dir)[0].name == name
    ensures dir[0] == name[0]
  {
    EntryAt(dir, 0);
  }

  /** What the commands below need to know of a built disk. */
  ghost predicate Laid(v: Vol, files: seq<IsoFile>)
  {
    && Inv(v) && v.free == 0 && v.Bpc() == CLUSTER
    && (forall f :: f in files ==> Shows(v, f))
    && (forall n :: n in Files(v) ==> exists f :: f in files && f.name == n)
    && 0 < |v.RootEntries()| && 0 < |files| && v.RootEntries()[0].IsLive() && v.RootEntries()[0].name == files[0].name
  }

  lemma FreshIsLaid(v: Vol, files: seq<IsoFile>)
    requires FreshVolume(v, files) && NamesOk(files) && files != []
    ensures Laid(v, files)
  {
    hide FreshVolume, NamesOk, Inv, Files, Vol.RootEntries, Entry.IsLive, Shows;
    FirstSlot(v, files);
    BuiltFiles(v, files);
  }

  lemma LaidShape(v: Vol, files: seq<IsoFile>)
    requires Laid(v, files)
    ensures Shaped(v) && Inv(v) && v.free == 0 && v.Bpc() == CLUSTER
    ensures 0 < |v.RootEntries()| && 0 < |files| && v.RootEntries()[0].IsLive()
    ensures v.RootEntries()[0].name == files[0].name
  {
    hide Inv, Files, Shows;
    LoadedInv(v);
  }

  lemma LaidFile(v: Vol, files: seq<IsoFile>, f: IsoFile)
    requires Laid(v, files) && f in files
    ensures Shows(v, f)
  {
    hide Inv, Files, Shows;
  }

  lemma LaidNames(v: Vol, files: seq<IsoFile>, n: Name)
    requires Laid(v, files) && n in Files(v)
    ensures exists f :: f in files && f.name == n
  {
    hide Inv, Files, Shows;
  }

  /** The first file of a built disk is in the first slot, live and plain. */
  lemma FirstSlot(v: Vol, files: seq<IsoFile>)
    requires FreshVolume(v, files) && NamesOk(files) && files != []
    ensures Inv(v) && 0 < |v.RootEntries()| && v.RootEntries()[0].IsLive() && v.RootEntries()[0].name == files[0].name
    ensures v.free == 0 && v.Bpc() == CLUSTER
  {
    BuiltIsSoundIff(v, files);
    FreshIsShaped(v, files);
    StorableIsLive(files, 0);
    hide Entries, RootBytes, FileBytes, DataWith, Counted, Inv, Storable, Entry.IsLive, Shaped;
    FilesAreLaidOut(v, files, 0);
  }

  /** Room for a copy of `a`, which is in the first slot. */
  ghost predicate RoomLeft(v: Vol, a: IsoFile, dst: Name)
  {
    && a.name in Files(v) && Files(v)[a.name].bytes == a.content[..a.Kept()]
    && MayCopy(v, a.name, dst) && FreeBytes(v) == v.Bpc() == CLUSTER
    && 0 < |v.RootEntries()| && v.RootEntries()[0].IsLive() && v.RootEntries()[0].name == a.name
  }

  lemma DeletesBehind(v: Vol, p: seq<Byte>, f: IsoFile)
    requires Inv(v) && p != [] && NameOf(p) == f.name && Shows(v, f)
    requires 0 < |v.RootEntries()| && v.RootEntries()[0].name != f.name
    ensures Shaped(v) && DeletedBehind(v, f.name, DeleteFile(v, f.name).0)
  {
    hide Inv, DeleteFile, VacantSlots, Files, Vol.RootEntries;
    DeletesOne(v, p, f);
    DeleteKeepsEntry(v, f.name, 0);
  }

  /** Not the file in the first slot. */
  ghost predicate DeletedBehind(v: Vol, name: Name, v1: Vol)
  {
    Deleted(v, name, v1) && 0 < |v.RootEntries()| && 0 < |v1.RootEntries()| && v1.RootEntries()[0] == v.RootEntries()[0]
  }

  /** A disk laid out with two files, of which the second has been deleted: there is room for a copy of the first. */
  lemma RoomForCopy(v: Vol, a: IsoFile, b: IsoFile, v1: Vol, dst: Name)
    requires Laid(v, [a, b]) && a.name != b.name && Capacity(v) + CHUNK < WORD
    requires DeletedBehind(v, b.name, v1) && dst != a.name && Storable(dst)
    ensures RoomLeft(v1, a, dst)
  {
    hide Inv, VacantSlots, Files, Vol.RootEntries, Vacancy, Storable, Entry.IsLive, Laid, AbsFile.IsDirectory;
    var files := [a, b];
    assert files[0] == a && a in files;
    LaidShape(v, files);
    LaidFile(v, files, a);
    NotADirectoryFile(Files(v)[a.name]);
    assert dst !in Files(v1) by { if dst in Files(v1) { LaidNames(v, files, dst); } }
    VacancyIffSlots(v1.RootEntries());
  }

  /** A copy of `a` that begins with the first byte of the directory, which is that of the name of `a`. */
  ghost predicate WrongCopy(v: Vol, a: IsoFile, name: Name, v': Vol, ok: bool, n: nat)
  {
    && ok && n == a.Kept() > 0 && a.name in Files(v) && Files(v)[a.name].bytes == a.content[..n]
    && name in Files(v') && |Files(v')[name].bytes| == n
    && Files(v')[name].bytes[0] == a.name[0] && Files(v')[name].bytes != Files(v)[a.name].bytes
  }

  ghost predicate CopiedWrongly(v: Vol, a: IsoFile, src: seq<Byte>, dst: seq<Byte>)
  {
    Shaped(v) && var (v', ok, n) := Copy(v, src, dst); WrongCopy(v, a, NameOf(dst), v', ok, n)
  }

  lemma CopyGoesWrong(v: Vol, a: IsoFile, src: seq<Byte>, dst: seq<Byte>)
    requires RoomLeft(v, a, NameOf(dst)) && NameOf(src) == a.name && CHUNK < |a.content| && a.content[0] != a.name[0]
    ensures CopiedWrongly(v, a, src, dst)
  {
    hide Inv, Copy, CopyDir, Files, Storable, MayCopy, Copied, To83, Vol.RootEntries, Entries;
    hide Abs, OthersAs, Gap, Vacancy, Entry.IsLive;
    CopyDirKeeps(v, src, dst, 0);
    var j := CopyGives(v, src, dst);
    var dir := CopyDir(v, src, dst);
    DirectoryStarts(dir, a.name);
    CopiedFirstByte(Files(v)[a.name].bytes, a.Kept(), dir, j);
  }

  lemma LaidThenDeleted(v: Vol, a: IsoFile, b: IsoFile, pb: seq<Byte>) returns (v1: Vol)
    requires FreshVolume(v, [a, b]) && NamesOk([a, b]) && pb != [] && NameOf(pb) == b.name
    ensures Laid(v, [a, b]) && a.name != b.name && Shaped(v)
    ensures v1 == DeleteFile(v, b.name).0 && DeletedBehind(v, b.name, v1)
  {
    hide Inv, FreshVolume, To83, Laid, DeleteFile, Shaped, DeletedBehind, Shows, Vol.RootEntries;
    var files := [a, b];
    assert files[0] == a && files[1] == b && b in files;
    FreshIsLaid(v, files);
    LaidShape(v, files);
    LaidFile(v, files, b);
    DeletesBehind(v, pb, b);
    v1 := DeleteFile(v, b.name).0;
  }

  /** `cp` on a disk built with two files of which one has been deleted: a file longer than 512 bytes is copied wrongly,
      unless it begins with the first byte of its own name. */
  lemma CopyOnBuiltDisk(v: Vol, a: IsoFile, b: IsoFile, pb: seq<Byte>, src: seq<Byte>, dst: seq<Byte>)
    requires FreshVolume(v, [a, b]) && NamesOk([a, b]) && Capacity(v) + CHUNK < WORD
    requires pb != [] && NameOf(pb) == b.name && NameOf(src) == a.name && NameOf(dst) != a.name && Storable(NameOf(dst))
    requires 512 < |a.content| && a.content[0] != a.name[0]
    ensures Shaped(v) && CopiedWrongly(Run(v, [DeleteOp(pb)]), a, src, dst)
  {
    hide Inv, Run, Copy, Files, FreshVolume, To83, Laid, Storable, DeleteFile, RoomLeft, Shaped, CopiedWrongly;
    var v1 := LaidThenDeleted(v, a, b, pb);
    RoomForCopy(v, a, b, v1, NameOf(dst));
    RunOfDelete(v, pb);
    CopyGoesWrong(DeleteFile(v, b.name).0, a, src, dst);
  }

  // ---- fs_mkdir ----

  /** The first of two equal calls of `fs_mkdir` succeeds and leaves a sound volume, the second too and does not. */
  ghost predicate SecondBreaks(v: Vol, p: seq<Byte>)
  {
    && Shaped(v) && Inv(v)
    && var (v1, first) := MakeDirectory(v, NameOf(p), To83(p));
       var (v2, second) := MakeDirectory(v1, NameOf(p), To83(p));
       first && Inv(v1) && second && !Inv(v2)
  }

  /** Of the three files only the first is left. */
  lemma FirstIsLeft(v: Vol, a: IsoFile, b: IsoFile, c: IsoFile, v1: Vol, v2: Vol)
    requires Laid(v, [a, b, c]) && Deleted(v, b.name, v1) && Deleted(v1, c.name, v2)
    ensures forall n :: n in Files(v2) ==> n == a.name
    ensures v2.free == 2 && |VacantSlots(v2.RootEntries())| >= 2 && Inv(v2)
  {
    hide Inv, Files, Shows, Laid, VacantSlots, Vol.RootEntries;
    LaidShape(v, [a, b, c]);
    forall n | n in Files(v2)
      ensures n == a.name
    {
      LaidNames(v, [a, b, c], n);
    }
  }

  lemma TwoDeleted(v: Vol, b: IsoFile, c: IsoFile, pb: seq<Byte>, pc: seq<Byte>) returns (v1: Vol, v2: Vol)
    requires Inv(v) && Shows(v, b) && Shows(v, c) && b.name != c.name
    requires pb != [] && NameOf(pb) == b.name && pc != [] && NameOf(pc) == c.name
    ensures Shaped(v) && v1 == DeleteFile(v, b.name).0 && Deleted(v, b.name, v1)
    ensures Shaped(v1) && v2 == DeleteFile(v1, c.name).0 && Deleted(v1, c.name, v2)
  {
    hide Inv, DeleteFile, VacantSlots, Files, Vol.RootEntries, To83;
    DeletesOne(v, pb, b);
    v1 := DeleteFile(v, b.name).0;
    assert Shows(v1, c);
    hide Shows;
    DeletesOne(v1, pc, c);
    v2 := DeleteFile(v1, c.name).0;
  }

  /** A disk laid out with three files, of which two have been deleted. */
  lemma SlashedAfterDeletes(v: Vol, a: IsoFile, b: IsoFile, c: IsoFile, v1: Vol, v2: Vol, p: seq<Byte>)
    requires Laid(v, [a, b, c]) && Deleted(v, b.name, v1) && Deleted(v1, c.name, v2)
    requires p != [] && p[0] == 47 && (|p| > 1 ==> p[1] != 47) && a.name != NameOf(p) && a.name != To83(p)
    ensures SecondBreaks(v2, p)
  {
    hide Inv, Files, VacantSlots, Vol.RootEntries, MakeDirectory, To83, Laid, Deleted, NameOf;
    FirstIsLeft(v, a, b, c, v1, v2);
    SlashedNamesDiffer(p);
    SlashedTwiceBreaks(v2, p);
  }

  /** A disk built with three files, of which two have been deleted: the second `fs_mkdir` of the same slashed path
      breaks the directory. */
  lemma SlashedOnBuiltDisk(v: Vol, a: IsoFile, b: IsoFile, c: IsoFile, pb: seq<Byte>, pc: seq<Byte>, p: seq<Byte>)
    requires FreshVolume(v, [a, b, c]) && NamesOk([a, b, c])
    requires pb != [] && NameOf(pb) == b.name && pc != [] && NameOf(pc) == c.name
    requires p != [] && p[0] == 47 && (|p| > 1 ==> p[1] != 47) && a.name != NameOf(p) && a.name != To83(p)
    ensures Shaped(v) && SecondBreaks(Run(v, [DeleteOp(pb), DeleteOp(pc)]), p)
  {
    hide Inv, Run, FreshVolume, To83, Laid, DeleteFile, SecondBreaks, Shaped;
    var files := [a, b, c];
    assert files[0] == a && files[1] == b && files[2] == c && b in files && c in files;
    FreshIsLaid(v, files);
    LaidShape(v, files);
    LaidFile(v, files, b);
    LaidFile(v, files, c);
    hide NamesOk, Deleted, Shows;
    var v1, v2 := TwoDeleted(v, b, c, pb, pc);
    SlashedAfterDeletes(v, a, b, c, v1, v2, p);
    TwoDeletes(v, pb, pc);
  }

  lemma TwoDeletes(v: Vol, p: seq<Byte>, q: seq<Byte>)
    requires Shaped(v) && p != [] && q != []
    ensures Run(v, [DeleteOp(p), DeleteOp(q)]) == DeleteFile(DeleteFile(v, NameOf(p)).0, NameOf(q)).0
  {
    hide DeleteFile;
    var ops := [DeleteOp(p), DeleteOp(q)];
    assert ops[1..] == [DeleteOp(q)];
    RunOfDelete(Step(v, ops[0]), q);
  }

  // ---- what the map of files does not tell ----

  const PEEK: seq<Move> := [SeekMove(1), ReadMove(1)]

  /** Seeking to byte 1 of a file just opened and reading one byte delivers byte 1 of the root directory. */
  lemma PeekShowsDirectory(v: Vol, path: seq<Byte>)
    requires Inv(v) && Addressable(v) && Capacity(v) + 1 < WORD && NameOf(path) in Files(v)
    requires !Files(v)[NameOf(path)].IsDirectory() && |Files(v)[NameOf(path)].bytes| >= 2
    ensures Shaped(v) && v.root < |v.data| && |v.data[v.root]| >= 64
    ensures Session(v, path, MODE_READ, PEEK).2 == [NO_REPLY, Reply([v.data[v.root][1]], 1)]
  {
    hide Inv, Files, Abs, Open, Shaped, Vol.RootEntries, Session, AbsFile.IsDirectory, To83, Entries;
    LoadedInv(v);
    AbsFields(v);
    PeekFits(Files(v), path, Capacity(v));
    SessionRefines(v, path, MODE_READ, PEEK);
    PeekBuffer(v, path);
    hide SessionBuffers;
    AbsPeek(Abs(v), NameOf(path), SessionBuffers(v, path, MODE_READ, PEEK));
  }

  lemma PeekFits(files: map<Name, AbsFile>, path: seq<Byte>, capacity: nat)
    requires capacity + 1 < WORD
    ensures SessionOk(files, path, MODE_READ, PEEK, capacity)
  {
    hide Canonical, IsCString, To83;
  }

  lemma PeekBuffer(v: Vol, path: seq<Byte>)
    requires Inv(v) && NameOf(path) in Files(v)
    ensures Shaped(v) && v.root < |v.data| && |v.data[v.root]| == v.Bpc() >= 64
    ensures SessionBuffers(v, path, MODE_READ, PEEK)[1] == v.data[v.root]
  {
    hide Inv, Files, Entries, Find, To83, From83, Seek;
    LoadedInv(v);
    FindIsLookup(v.RootEntries(), NameOf(path));
    OpenFinds(v, path, MODE_READ);
    hide Open;
    var (v1, o) := Open(v, path, MODE_READ);
    var name, h := To83(o.value.filename), o.value.cursor;
    assert PEEK[1..] == [ReadMove(1)];
    assert MakeMove(v1, h, name, PEEK[0]) == (v1, Seek(v1, h, 1), NO_REPLY);
    hide MakeMove, Shaped;
    assert Buffers(v1, Seek(v1, h, 1), name, PEEK[1..])[0] == v1.buf;
  }

  lemma AbsPeek(a: AbsFs, n: Name, bufs: seq<seq<Byte>>)
    requires n in a.files && !a.files[n].IsDirectory() && |a.files[n].bytes| >= 2
    requires BuffersFor(a, PEEK, bufs) && a.bpc >= 64
    ensures AbsSession(a, n, MODE_READ, PEEK, bufs).2 == [NO_REPLY, Reply([bufs[1][1]], 1)]
  {
    hide AbsFile.IsDirectory, Stale;
    var f := a.files[n].bytes;
    assert PEEK[1..] == [ReadMove(1)] && PEEK[1..][1..] == [];
    PeekStale(f, a.bpc, bufs[1]);
    var got := Ahead(Stale(f, 1, a.bpc, bufs[1]), 1, 1);
    assert got == [bufs[1][1]];
    assert AbsMove(a, n, 1, ReadMove(1), bufs[1]) == (a, 2, Reply(got, 1));
    assert AbsMove(a, n, 0, SeekMove(1), bufs[0]) == (a, 1, NO_REPLY);
    hide AbsMove;
    assert AbsMoves(a, n, 2, PEEK[1..][1..], bufs[1..][1..]).2 == [];
    assert AbsMoves(a, n, 1, PEEK[1..], bufs[1..]).2 == [Reply(got, 1)] + [];
    assert AbsMoves(a, n, 0, PEEK, bufs).2 == [NO_REPLY] + ([Reply(got, 1)] + []);
  }

  lemma PeekStale(f: seq<Byte>, bpc: nat, buf: seq<Byte>)
    requires |f| >= 2 && |buf| == bpc >= 64
    ensures Stale(f, 1, bpc, buf)[1] == buf[1]
  {
    assert BlockStart(1, bpc) == 0;
  }

  /** Two disks with the same files in another order are the same map of files, with the same stocks; but a session on
      them that meets a stale buffer gives different replies. So what such a session delivers is no function of the map
      of files, and the buffers have to be handed to it. */
  lemma RepliesNeedBuffers(v: Vol, w: Vol, a: IsoFile, b: IsoFile, path: seq<Byte>)
    requires FreshVolume(v, [a, b]) && FreshVolume(w, [b, a]) && NamesOk([a, b]) && NamesOk([b, a])
    requires Addressable(v) && Addressable(w) && Capacity(v) + 1 < WORD && Capacity(w) + 1 < WORD
    requires NameOf(path) == a.name && |a.content| >= 2 && a.name[1] != b.name[1]
    ensures Abs(v) == Abs(w) && Shaped(v) && Shaped(w)
    ensures Session(v, path, MODE_READ, PEEK).2 != Session(w, path, MODE_READ, PEEK).2
  {
    hide FreshVolume, NamesOk, Laid, Session, Abs, Shaped, Addressable, To83;
    FreshIsLaid(v, [a, b]);
    FreshIsLaid(w, [b, a]);
    SameMap(v, w, a, b);
    LaidSlots(v, [a, b]);
    LaidSlots(w, [b, a]);
    hide VacantSlots, Vol.RootEntries;
    AbsSame(v, w);
    PeekAtLaid(v, [a, b], a, path);
    PeekAtLaid(w, [b, a], a, path);
  }

  lemma SameMap(v: Vol, w: Vol, a: IsoFile, b: IsoFile)
    requires Laid(v, [a, b]) && Laid(w, [b, a])
    ensures Files(v) == Files(w) && v.free == w.free && v.Bpc() == w.Bpc()
  {
    hide Laid, Files;
    LaidShape(v, [a, b]);
    LaidShape(w, [b, a]);
    forall n
      ensures SameFile(Files(v), Files(w), n)
    {
      SameAt(v, w, a, b, n);
    }
    SameMaps(Files(v), Files(w));
  }

  predicate SameFile(f: map<Name, AbsFile>, g: map<Name, AbsFile>, n: Name)
  {
    (n in f <==> n in g) && (n in f ==> n in g && f[n] == g[n])
  }

  lemma SameMaps(f: map<Name, AbsFile>, g: map<Name, AbsFile>)
    requires forall n :: SameFile(f, g, n)
    ensures f == g
  {
    forall n | n in f || n in g
      ensures n in f && n in g && f[n] == g[n]
    {
      assert SameFile(f, g, n);
    }
  }

  lemma SameAt(v: Vol, w: Vol, a: IsoFile, b: IsoFile, n: Name)
    requires Laid(v, [a, b]) && Laid(w, [b, a])
    ensures SameFile(Files(v), Files(w), n)
  {
    hide Laid, Files, Vol.RootEntries;
    if n in Files(v) {
      LaidNames(v, [a, b], n);
      var f :| f in [a, b] && f.name == n;
      LaidFile(v, [a, b], f);
      LaidFile(w, [b, a], f);
    } else if n in Files(w) {
      LaidNames(w, [b, a], n);
      var f :| f in [b, a] && f.name == n;
      LaidFile(v, [a, b], f);
    }
  }

  lemma LaidSlots(v: Vol, files: seq<IsoFile>)
    requires FreshVolume(v, files) && NamesOk(files)
    ensures forall i: nat :: i in VacantSlots(v.RootEntries()) <==> |files| <= i < CLUSTER / ENTRY_SIZE
  {
    FreshIsShaped(v, files);
    hide Entries, Shaped, Counted, RootBytes, FileBytes, DataWith;
    forall i: nat | i < CLUSTER / ENTRY_SIZE
      ensures v.RootEntries()[i].IsVacant() <==> |files| <= i
    {
      StorableIsLive(files, i);
      LiveNotVacant(v.RootEntries()[i]);
      BlankIsVacant();
    }
  }

  lemma BlankIsVacant()
    ensures BLANK.IsVacant()
  {
  }

  lemma AbsSame(v: Vol, w: Vol)
    requires Files(v) == Files(w) && v.free == w.free && v.Bpc() == w.Bpc()
    requires VacantSlots(v.RootEntries()) == VacantSlots(w.RootEntries())
    ensures Abs(v) == Abs(w)
  {
    hide Files, VacantSlots;
  }

  lemma PeekAtLaid(v: Vol, files: seq<IsoFile>, f: IsoFile, path: seq<Byte>)
    requires Laid(v, files) && f in files && NameOf(path) == f.name && |f.content| >= 2
    requires Addressable(v) && Capacity(v) + 1 < WORD
    ensures Shaped(v) && 0 < |files| && Session(v, path, MODE_READ, PEEK).2 == [NO_REPLY, Reply([files[0].name[1]], 1)]
  {
    hide Laid, Files, Session, Inv, To83, AbsFile.IsDirectory;
    LaidShape(v, files);
    LaidFile(v, files, f);
    NotADirectoryFile(Files(v)[f.name]);
    PeekShowsDirectory(v, path);
    SecondByte(v.data[v.root], files[0].name);
  }

  lemma SecondByte(dir: seq<Byte>, name: Name)
    requires 0 < Count(dir) && Entries(dir)[0].name == name && |dir| >= 64
    ensures dir[1] == name[1]
  {
    EntryAt(dir, 0);
  }
}
