/**
 Deleting, renaming and resizing entries keep the volume invariant and act on the abstract file system as
 map removal, re-keying and update.
 */
module Edits {
  import opened Bytes
  import opened Chains
  import opened Allocator
  import opened Directory
  import opened VolumeState
  import opened FileContent
  import opened VolumeOps
  import opened AbstractFs
  import opened Refinement

  function StruckEntry(e: Entry): (r: Entry)
    ensures !r.IsLive() && !r.IsEnd() && r.IsVacant()
  {
    e.(name := e.name[0 := DELETED])
  }

  /** The chain of entry `i` has been freed and the entry struck out. */
  ghost predicate Removed(v: Vol, v': Vol, i: nat)
  {
    && Shaped(v) && i < |v.RootEntries()| && v.RootEntries()[i].IsLive()
    && OneEntryChanged(v, v', i, StruckEntry(v.RootEntries()[i]), [])
    && v'.fat == Cleared(v.fat, Members(ChainsIn(v)[i])) && v'.free == v.free + |ChainsIn(v)[i]|
    && Counted(v'.PoolOf())
  }

  lemma RemovedParts(v: Vol, i: nat)
    requires Inv(v) && i < |v.RootEntries()| && v.RootEntries()[i].IsLive()
    ensures var es := v.RootEntries(); var e := StruckEntry(es[i]);
            && DirOk(es[i := e]) && Catalog(es[i := e]) == Catalog(es) - {es[i].name}
            && Partition(v.root, Heads(es)[i := HeadOf(e)], Cleared(v.fat, Members(ChainsIn(v)[i])),
               ChainsIn(v)[i := []])
            && |VacantSlots(es[i := e])| == |VacantSlots(es)| + 1
  {
    var es := v.RootEntries();
    var e := StruckEntry(es[i]);
    hide Entries, DirOk, Catalog, Partition, StruckEntry;
    DeleteIsRemove(es, i, e);
    PartitionDelete(v.root, Heads(es), v.fat, ChainsIn(v), i);
    VacantAfter(es, i, e);
  }

  /** The state after a removal. */
  lemma RemovedInv(v: Vol, v': Vol, i: nat)
    requires Inv(v) && Removed(v, v', i)
    ensures var name := v.RootEntries()[i].name;
            && name in Files(v) && Files(v)[name] == FileOf(v, v.RootEntries()[i])
            && FileOf(v, v.RootEntries()[i]).clusters == |ChainsIn(v)[i]|
            && Inv(v') && Abs(v') == AbsRemove(Abs(v), name)
  {
    hide Entries, DirOk, Catalog, Counted, FileOf, Chain, Partition, Fitting, ChainsOf, Heads, HeadOf, Entry.IsLive;
    hide VacantSlots, StruckEntry;
    var es := v.RootEntries();
    RemovedParts(v, i);
    StepKeepsInv(v, v', i, StruckEntry(es[i]), []);
    FilesFollow(v, v', i, {es[i].name}, map[]);
    LiveChain(v, i);
    CatalogHas(es, i);
  }

  /** Freeing the chain of a live entry. */
  lemma ReleasedChain(v: Vol, i: nat)
    requires Inv(v) && i < |v.RootEntries()| && v.RootEntries()[i].IsLive()
    ensures var e := v.RootEntries()[i];
            && InRange(v.fat, e.first)
            && var v2 := FreeChain(v, e.first);
               && v2 == v.(fat := v2.fat, free := v2.free, hint := v2.hint) && Shaped(v2) && v2.Bpc() == v.Bpc()
               && v2.fat == Cleared(v.fat, Members(ChainsIn(v)[i])) && v2.free == v.free + |ChainsIn(v)[i]|
               && Counted(v2.PoolOf()) && Gap(v2.PoolOf()) == Gap(v.PoolOf())
  {
    LiveChain(v, i);
    ReleaseFreesTheChain(v.PoolOf(), ChainsIn(v)[i]);
    hide Entries, DirOk, Partition, Fitting, Gap, HintTight;
  }

  /** Striking entry `i` out of the root cluster. */
  lemma StrikeEffect(v: Vol, i: nat)
    requires Shaped(v) && i < |v.RootEntries()|
    ensures v.root < |v.data| && i < Count(v.data[v.root])
    ensures var v' := v.(buf := WithDeleted(v.data[v.root], i)).Stored(v.root);
            && Shaped(v') && v'.Bpc() == v.Bpc() && v' == v.(data := v'.data, buf := v'.buf)
            && v'.RootEntries() == v.RootEntries()[i := StruckEntry(v.RootEntries()[i])]
            && (forall x :: 0 <= x < |v.data| && x != v.root ==> v'.data[x] == v.data[x])
  {
    DeletedRefines(v.data[v.root], i);
    hide Entries, WithDeleted;
  }

  /** Freeing the chain and striking out the entry. */
  lemma RemoveEffect(v: Vol, i: nat, v2: Vol, v': Vol)
    requires Inv(v) && i < |v.RootEntries()| && v.RootEntries()[i].IsLive() && i < Count(v.data[v.root])
    requires v2 == FreeChain(v, v.RootEntries()[i].first)
    requires v' == v2.(buf := WithDeleted(v.data[v.root], i)).Stored(v.root)
    ensures Removed(v, v', i) && Gap(v'.PoolOf()) == Gap(v.PoolOf()) && |v'.fat| == |v.fat|
  {
    hide Inv, FreeChain, Entries, Gap, Counted, WithDeleted, StruckEntry, ChainsIn, Entry.IsLive;
    LoadedInv(v);
    ReleasedChain(v, i);
    StrikeEffect(v2, i);
    assert v'.PoolOf() == v2.PoolOf();
  }

  /** Freeing the chain and striking out the entry is the abstract removal. */
  lemma RemoveRefines(v: Vol, i: nat)
    requires Inv(v) && i < |v.RootEntries()| && v.RootEntries()[i].IsLive()
    ensures v.root < |v.data| && i < Count(v.data[v.root])
    ensures var e := v.RootEntries()[i];
            var v' := FreeChain(v, e.first).(buf := WithDeleted(v.data[v.root], i)).Stored(v.root);
            && Inv(v') && e.name in Files(v) && Files(v)[e.name] == FileOf(v, e) && Abs(v') == AbsRemove(Abs(v), e.name)
            && Gap(v'.PoolOf()) == Gap(v.PoolOf()) && |v'.fat| == |v.fat|
  {
    var v2 := FreeChain(v, v.RootEntries()[i].first);
    var v' := v2.(buf := WithDeleted(v.data[v.root], i)).Stored(v.root);
    hide Inv, Removed, FreeChain, WithDeleted, Gap, FileOf, Files, Abs, AbsRemove, Entries;
    RemoveEffect(v, i, v2, v');
    RemovedInv(v, v', i);
  }

  lemma FileIsDirectory(v: Vol, e: Entry)
    ensures FileOf(v, e).IsDirectory() == e.IsDirectory()
    ensures e.first < |v.data| && e.IsDirectory() ==> FileOf(v, e).empty == OnlyDots(Entries(v.data[e.first]))
  {
  }

  /** `fs_delete` is map removal; directories and missing names are refused. */
  lemma DeleteRefines(v: Vol, name: Name)
    requires Inv(v)
    ensures var (v', ok) := DeleteFile(v, name);
            && Inv(v') && (Abs(v'), ok) == AbsDelete(Abs(v), name)
            && Gap(v'.PoolOf()) == Gap(v.PoolOf()) && |v'.fat| == |v.fat|
  {
    LoadedInv(v);
    FindIsLookup(v.RootEntries(), name);
    LoadedSame(v, v.root);
    hide Entries, DirOk, Catalog, Inv, FileOf, Find, WithDeleted, Entry.IsDirectory, AbsFile.IsDirectory;
    if name in Files(v) {
      var i := Find(v.RootEntries(), name, 0).value;
      var e := v.RootEntries()[i];
      FileIsDirectory(v, e);
      ReleasedChain(v.Loaded(v.root), i);
      RemoveRefines(v.Loaded(v.root), i);
    }
  }

  /** `fs_rmdir` on a name that is there. */
  lemma RemoveDirectoryIs(v: Vol, name: Name, i: nat)
    requires Shaped(v) && Find(v.RootEntries(), name, 0) == Some(i) && i < |v.RootEntries()|
    requires InRange(v.fat, v.RootEntries()[i].first)
    ensures var e := v.RootEntries()[i]; var w := v.Loaded(v.root).Loaded(e.first);
            if e.IsDirectory() then
              if OnlyDots(Entries(v.data[e.first])) then
                && i < Count(w.data[w.root])
                && RemoveDirectory(v, name) ==
                   (FreeChain(w, e.first).(buf := WithDeleted(w.data[w.root], i)).Stored(w.root), true)
              else RemoveDirectory(v, name) == (w, false)
            else RemoveDirectory(v, name) == (v.Loaded(v.root), false)
  {
    hide Entries, Find, WithDeleted, Entry.IsDirectory, OnlyDots, Release;
  }

  /** `fs_rmdir` is map removal of empty directories; files, missing names and non-empty ones are refused. */
  lemma RemoveDirectoryRefines(v: Vol, name: Name)
    requires Inv(v)
    ensures var (v', ok) := RemoveDirectory(v, name);
            && Inv(v') && (Abs(v'), ok) == AbsRemoveDirectory(Abs(v), name)
            && Gap(v'.PoolOf()) == Gap(v.PoolOf()) && |v'.fat| == |v.fat|
  {
    LoadedInv(v);
    FindIsLookup(v.RootEntries(), name);
    LoadedSame(v, v.root);
    hide Entries, DirOk, Catalog, Inv, FileOf, Find, WithDeleted, Entry.IsDirectory, AbsFile.IsDirectory, OnlyDots;
    hide FreeChain, AbsRemove;
    if name in Files(v) {
      var i := Find(v.RootEntries(), name, 0).value;
      var e := v.RootEntries()[i];
      FileIsDirectory(v, e);
      ReleasedChain(v, i);
      RemoveDirectoryIs(v, name, i);
      LoadedSame(v.Loaded(v.root), e.first);
      hide RemoveDirectory;
      RemoveRefines(v.Loaded(v.root).Loaded(e.first), i);
    }
  }

  // ---- rename and resize ----

  /** Only directory entry `i` has changed, and it keeps its chain. */
  ghost predicate Retitled(v: Vol, v': Vol, i: nat, e: Entry)
  {
    && Shaped(v) && i < |v.RootEntries()| && v.RootEntries()[i].IsLive() && e.IsLive()
    && e.first == v.RootEntries()[i].first
    && v' == v.(data := v'.data, buf := v'.buf)
    && OneEntryChanged(v, v', i, e, [])
  }

  lemma RetitledParts(v: Vol, i: nat, e: Entry)
    requires Inv(v) && i < |v.RootEntries()| && v.RootEntries()[i].IsLive() && e.IsLive()
    requires e.first == v.RootEntries()[i].first
    ensures var es := v.RootEntries();
            && Partition(v.root, Heads(es)[i := HeadOf(e)], v.fat, ChainsIn(v)[i := ChainsIn(v)[i]])
            && VacantSlots(es[i := e]) == VacantSlots(es)
  {
    hide Inv, Entries, Partition, DirOk, Counted, Fitting, VacantSlots, FileOf, Contents, Uniform, ChainsIn;
    hide Vol.RootEntries, Shaped;
    var es := v.RootEntries();
    InvParts(v);
    VacantAfter(es, i, e);
    LiveChain(v, i);
    hide Chain, IsChain;
    assert HeadOf(e) == Heads(es)[i];
    assert Heads(es)[i := HeadOf(e)] == Heads(es) && ChainsIn(v)[i := ChainsIn(v)[i]] == ChainsIn(v);
  }

  lemma RetitledInv(v: Vol, v': Vol, i: nat, e: Entry)
    requires Inv(v) && Retitled(v, v', i, e) && DirOk(v.RootEntries()[i := e])
    requires e.size <= |ChainsIn(v)[i]| * v.Bpc()
    ensures Inv(v') && ChainsIn(v') == ChainsIn(v)
    ensures VacantSlots(v'.RootEntries()) == VacantSlots(v.RootEntries())
    ensures OthersSame(v, v', i)
  {
    hide Inv, Entries, DirOk, Catalog, Counted, FileOf, Partition, Fitting, ChainsIn, Heads, HeadOf, Entry.IsLive;
    hide VacantSlots, OthersSame;
    InvParts(v);
    RetitledParts(v, i, e);
    assert v'.PoolOf() == v.PoolOf();
    StepKeepsInv(v, v', i, e, ChainsIn(v)[i]);
  }

  /** A file keeps its contents under another name. */
  lemma SameFileRetitled(v: Vol, v': Vol, i: nat, e: Entry)
    requires Inv(v) && Retitled(v, v', i, e) && Shaped(v')
    requires e.size == v.RootEntries()[i].size && e.attr == v.RootEntries()[i].attr
    ensures FileOf(v', e) == FileOf(v, v.RootEntries()[i])
  {
    hide Inv, Entries, Contents, Uniform, ChainsIn;
    LiveChain(v, i);
    FileOfFrame(v, v', e);
  }

  lemma RenameEffect(v: Vol, i: nat, to: Name)
    requires Inv(v) && i < |v.RootEntries()| && v.RootEntries()[i].IsLive() && Storable(to)
    ensures v.root < |v.data| && i < Count(v.data[v.root])
    ensures var v' := v.(buf := WithName(v.data[v.root], i, to)).Stored(v.root);
            Retitled(v, v', i, v.RootEntries()[i].(name := to))
  {
    hide Inv, Entries, WithName;
    LoadedInv(v);
    NameRefines(v.data[v.root], i, to);
  }

  lemma RenamedRefines(v: Vol, v': Vol, i: nat, e: Entry)
    requires Inv(v) && i < |v.RootEntries()| && Retitled(v, v', i, e) && e.name !in Catalog(v.RootEntries())
    requires e == v.RootEntries()[i].(name := e.name)
    ensures var from := v.RootEntries()[i].name;
            && Inv(v') && from in Files(v) && Files(v') == (Files(v) - {from})[e.name := Files(v)[from]]
            && VacantSlots(v'.RootEntries()) == VacantSlots(v.RootEntries())
  {
    var es := v.RootEntries();
    hide Entries, DirOk, Catalog, FileOf, Partition, Fitting, ChainsOf, Heads, Entry.IsLive, VacantSlots, Shaped;
    hide Counted;
    RetitledFits(v, i, e);
    RenameIsRekey(es, i, e);
    RetitledInv(v, v', i, e);
    SameFileRetitled(v, v', i, e);
    CatalogHas(es, i);
    FilesFollow(v, v', i, {es[i].name}, map[e.name := e]);
  }

  lemma RetitledFits(v: Vol, i: nat, e: Entry)
    requires Inv(v) && i < |v.RootEntries()| && v.RootEntries()[i].IsLive() && e.size == v.RootEntries()[i].size
    ensures e.size <= |ChainsIn(v)[i]| * v.Bpc()
  {
    LiveChain(v, i);
  }

  lemma RenameEntryIs(v: Vol, from: Name, to: Name)
    requires Shaped(v)
    ensures var found, taken := Find(v.RootEntries(), from, 0), Find(v.RootEntries(), to, 0).Some?;
            if taken || found.None? then RenameEntry(v, from, to) == (v.Loaded(v.root), false)
            else found.value < Count(v.data[v.root]) &&
                 RenameEntry(v, from, to) ==
                     (v.Loaded(v.root).(buf := WithName(v.data[v.root], found.value, to)).Stored(v.root), true)
  {
    hide Entries, Find, WithName;
    FindInRange(v.RootEntries(), from, 0);
  }

  /** `fs_rename` re-keys the map; a taken new name or a missing old name is refused. */
  lemma RenameRefines(v: Vol, from: Name, to: Name)
    requires Inv(v) && (from in Files(v) && to !in Files(v) ==> Storable(to))
    ensures var (v', ok) := RenameEntry(v, from, to);
            && Inv(v') && (Abs(v'), ok) == AbsRename(Abs(v), from, to)
            && Gap(v'.PoolOf()) == Gap(v.PoolOf()) && |v'.fat| == |v.fat|
  {
    LoadedInv(v);
    FindIsLookup(v.RootEntries(), from);
    FindIsLookup(v.RootEntries(), to);
    LoadedSame(v, v.root);
    RenameEntryIs(v, from, to);
    hide RenameEntry, Entries, DirOk, Catalog, Inv, FileOf, Find, WithName, Retitled, Files, VacantSlots;
    if from in Files(v) && to !in Files(v) {
      var i := Find(v.RootEntries(), from, 0).value;
      var v1 := v.Loaded(v.root);
      RenameEffect(v1, i, to);
      RenamedRefines(v1, v1.(buf := WithName(v.data[v.root], i, to)).Stored(v.root), i,
          v.RootEntries()[i].(name := to));
    }
  }

  // ---- there and back ----

  lemma AbsThereAndBack(a: AbsFs, n: Name)
    requires n !in a.files && a.free > 0 && a.slots > 0
    ensures AbsMakeDirectory(a, n).1 && AbsRemoveDirectory(AbsMakeDirectory(a, n).0, n) == (a, true)
    ensures AbsCreate(a, n, 32).1 && AbsDelete(AbsCreate(a, n, 32).0, n) == (a, true)
  {
    assert AbsFile(16, [], 1, true).IsDirectory() && !AbsFile(32, [], 1, false).IsDirectory();
    hide AbsFile.IsDirectory;
    assert a.files[n := AbsFile(16, [], 1, true)] - {n} == a.files;
    assert a.files[n := AbsFile(32, [], 1, false)] - {n} == a.files;
  }

  lemma Stocks(v: Vol)
    requires Inv(v) && v.free > 0 && VacantSlots(v.RootEntries()) != {}
    ensures Shaped(v) && Abs(v).free > 0 && Abs(v).slots > 0 && Abs(v).files == Files(v)
  {
    hide Inv, Files, VacantSlots, Vol.RootEntries;
    LoadedInv(v);
  }

  /** Making a directory and removing it again leaves the files and all stocks as they were. */
  lemma MakeThenRemove(v: Vol, name: Name)
    requires Inv(v) && name !in Files(v) && Storable(name) && v.free > 0 && VacantSlots(v.RootEntries()) != {}
    ensures Shaped(v)
    ensures var (v1, made) := MakeDirectory(v, name, name); var (v2, removed) := RemoveDirectory(v1, name);
            made && removed && Inv(v2) && Abs(v2) == Abs(v)
  {
    hide Inv, MakeDirectory, RemoveDirectory, Files, Storable, Shaped, Abs, AbsMakeDirectory, AbsRemoveDirectory;
    hide VacantSlots, Vol.RootEntries;
    Stocks(v);
    AbsThereAndBack(Abs(v), name);
    MakeDirectoryRefines(v, name);
    RemoveDirectoryRefines(MakeDirectory(v, name, name).0, name);
  }

  /** So does creating a file and deleting it again. */
  lemma CreateThenDelete(v: Vol, name: Name)
    requires Inv(v) && name !in Files(v) && Storable(name) && v.free > 0 && VacantSlots(v.RootEntries()) != {}
    ensures Shaped(v)
    ensures var (v1, c) := CreateFile(v, name); var (v2, deleted) := DeleteFile(v1, name);
            c != 0 && deleted && Inv(v2) && Abs(v2) == Abs(v)
  {
    hide Inv, CreateFile, DeleteFile, Files, Storable, Shaped, Abs, AbsCreate, AbsDelete, VacantSlots, Vol.RootEntries;
    Stocks(v);
    AbsThereAndBack(Abs(v), name);
    CreateFileRefines(v, name);
    DeleteRefines(CreateFile(v, name).0, name);
  }

  /** A directory is empty, and can be removed, exactly when every slot from the third on is free: its first byte is 0
      or 0xE5. */
  lemma RemovableIff(v: Vol, name: Name)
    requires Inv(v) && name in Files(v)
    ensures Shaped(v) && name in Catalog(v.RootEntries())
    ensures var e := Catalog(v.RootEntries())[name];
            && e.first < |v.data|
            && (RemoveDirectory(v, name).1 <==>
                  e.attr / 16 % 2 == 1 &&
                  forall j :: 2 <= j < |Entries(v.data[e.first])| ==> Entries(v.data[e.first])[j].name[0] in {0, 0xE5})
  {
    hide Inv, RemoveDirectory, Catalog, Vol.RootEntries, Entries, Shaped, DirOk, Chain;
    LoadedInv(v);
    RemoveDirectoryRefines(v, name);
    AbsFields(v);
    var i := CatalogWitness(v.RootEntries(), name);
    FindIsLookup(v.RootEntries(), name);
    CatalogHas(v.RootEntries(), i);
    LiveChain(v, i);
    InChain(v, i);
    FileIsDirectory(v, v.RootEntries()[i]);
  }

  lemma InChain(v: Vol, i: nat)
    requires Inv(v) && i < |v.RootEntries()| && v.RootEntries()[i].IsLive()
    ensures v.RootEntries()[i].first < |v.data|
  {
    hide Entries, DirOk, Partition, Fitting, Counted, Flat;
    LiveChain(v, i);
  }
}
