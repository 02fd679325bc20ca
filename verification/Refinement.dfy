/**
 Every directory operation keeps the volume invariant and acts on the abstract file system as the
 corresponding map operation, error cases and rollbacks included.
 */
module Refinement {
  import opened Bytes
  import opened FatImage
  import opened Chains
  import opened Allocator
  import opened Directory
  import opened VolumeState
  import opened VolumeOps
  import opened AbstractFs

  // ---- the abstract operations ----

  /** Entering a new file takes a cluster and a slot; without both nothing happens. */
  function AbsCreate(a: AbsFs, n: Name, attr: Byte): (AbsFs, bool)
  {
    if a.free == 0 || a.slots == 0 then (a, false)
    else (a.(files := a.files[n := AbsFile(attr, [], 1, attr == ATTR_DIRECTORY)],
             free := a.free - 1, slots := a.slots - 1), true)
  }

  function AbsMakeDirectory(a: AbsFs, n: Name): (AbsFs, bool)
  {
    if n in a.files then (a, false) else AbsCreate(a, n, ATTR_DIRECTORY)
  }

  /** Removing a file gives its clusters and its slot back. */
  function AbsRemove(a: AbsFs, n: Name): AbsFs
    requires n in a.files
  {
    a.(files := a.files - {n}, free := a.free + a.files[n].clusters, slots := a.slots + 1)
  }

  function AbsDelete(a: AbsFs, n: Name): (AbsFs, bool)
  {
    if n !in a.files || a.files[n].IsDirectory() then (a, false) else (AbsRemove(a, n), true)
  }

  function AbsRemoveDirectory(a: AbsFs, n: Name): (AbsFs, bool)
  {
    if n !in a.files || !a.files[n].IsDirectory() || !a.files[n].empty then (a, false) else (AbsRemove(a, n), true)
  }

  function AbsRename(a: AbsFs, from: Name, to: Name): (AbsFs, bool)
  {
    if to in a.files || from !in a.files then (a, false)
    else (a.(files := (a.files - {from})[to := a.files[from]]), true)
  }

  // ---- one changed entry ----

  lemma LoadedInv(v: Vol)
    requires Inv(v)
    ensures Shaped(v) && InRange(v.fat, v.root) && DirOk(v.RootEntries()) && v.root < |v.data|
    ensures Sized(v.fat) && v.Bpc() >= 64
    ensures forall n :: n in Files(v) <==> n in Catalog(v.RootEntries())
  {
  }

  /** `v'` differs from `v` in directory entry `i`, in the clusters of `own` and in the allocator. */
  ghost predicate OneEntryChanged(v: Vol, v': Vol, i: nat, e: Entry, own: seq<nat>)
  {
    && Shaped(v) && Shaped(v') && v'.root == v.root && v'.Bpc() == v.Bpc() && |v'.data| == |v.data|
    && i < |v.RootEntries()| && v'.RootEntries() == v.RootEntries()[i := e]
    && (forall c :: 2 <= c < |v.data| && c != v.root && c !in own ==> v'.data[c] == v.data[c])
  }

  function HeadOf(e: Entry): Option<nat> { if e.IsLive() then Some(e.first) else None }

  lemma HeadsUpdate(es: seq<Entry>, i: nat, e: Entry)
    requires i < |es|
    ensures Heads(es[i := e]) == Heads(es)[i := HeadOf(e)]
  {
    hide Entry.IsLive;
  }

  lemma FittingUpdate(es: seq<Entry>, chains: seq<seq<nat>>, bpc: nat, i: nat, e: Entry, own: seq<nat>)
    requires i < |es| == |chains| && Fitting(es, chains, bpc)
    requires e.IsLive() ==> e.size <= |own| * bpc
    ensures Fitting(es[i := e], chains[i := own], bpc)
  {
    hide Entry.IsLive;
    var es' := es[i := e];
    forall j | 0 <= j < |es| && es'[j].IsLive()
      ensures es'[j].size <= |chains[i := own][j]| * bpc
    {
      if j != i { assert es[j].IsLive(); }
    }
  }

  /** Clusters of other files are neither the root nor in a chain made of own and free clusters. */
  lemma OtherClusters(root: nat, heads: seq<Option<nat>>, fat: seq<nat>, chains: seq<seq<nat>>, i: nat, own: seq<nat>,
      j: nat, c: nat)
    requires Partition(root, heads, fat, chains) && i < |chains| && j < |chains| && j != i && c in chains[j]
    requires forall x :: x in own ==> x in chains[i] || (InRange(fat, x) && fat[x] == FAT32_FREE)
    ensures InRange(fat, c) && c != root && c !in own
  {
    PartitionInUse(root, heads, fat, chains);
    assert Heading(root, heads[j], fat, chains[j]);
  }

  lemma OtherClustersKept(v: Vol, v': Vol, i: nat, own: seq<nat>)
    requires Inv(v) && i < |v.RootEntries()| && |v'.data| == |v.data|
    requires forall c :: 2 <= c < |v.data| && c != v.root && c !in own ==> v'.data[c] == v.data[c]
    requires forall c :: c in own ==> c in ChainsIn(v)[i] || (InRange(v.fat, c) && v.fat[c] == FAT32_FREE)
    ensures DataKept(v.data, v'.data, ChainsIn(v), i)
  {
    hide Entries, DirOk, Counted, Entry.IsLive, Chain, Partition, Heads, Fitting, ChainsOf;
    var chains := ChainsIn(v);
    forall j: nat, c: nat {:trigger c in chains[j]} | j < |chains| && j != i && c in chains[j]
      ensures c < |v.data| && c < |v'.data| && v'.data[c] == v.data[c]
    {
      OtherClusters(v.root, Heads(v.RootEntries()), v.fat, ChainsIn(v), i, own, j, c);
    }
  }

  /** The general step: a new entry, chain and allocator state give a sound volume in which the other
      files are untouched. */
  lemma StepKeepsInv(v: Vol, v': Vol, i: nat, e: Entry, own: seq<nat>)
    requires Inv(v) && OneEntryChanged(v, v', i, e, own)
    requires DirOk(v.RootEntries()[i := e]) && Counted(v'.PoolOf())
    requires Partition(v.root, Heads(v.RootEntries())[i := HeadOf(e)], v'.fat, ChainsIn(v)[i := own])
    requires e.IsLive() ==> e.size <= |own| * v.Bpc()
    requires forall c :: c in own ==> c in ChainsIn(v)[i] || (InRange(v.fat, c) && v.fat[c] == FAT32_FREE)
    ensures Inv(v') && ChainsIn(v') == ChainsIn(v)[i := own]
    ensures OthersSame(v, v', i)
  {
    hide Entries, DirOk, Counted, FileOf, Entry.IsLive, Chain, Partition, Heads, Fitting, HeadOf, ChainsOf;
    var es, chains' := v.RootEntries(), ChainsIn(v)[i := own];
    HeadsUpdate(es, i, e);
    FittingUpdate(es, ChainsIn(v), v.Bpc(), i, e, own);
    InvFrom(v', chains');
    OtherClustersKept(v, v', i, own);
    OthersUnchanged(v, v', i);
  }

  // ---- create ----

  lemma VacancyIffSlots(es: seq<Entry>)
    ensures Vacancy(es, 0) == None <==> VacantSlots(es) == {}
  {
    match Vacancy(es, 0)
    case Some(i) => assert i in VacantSlots(es);
    case None =>
  }

  lemma VacantAfter(es: seq<Entry>, i: nat, e: Entry)
    requires i < |es|
    ensures es[i].IsVacant() && !e.IsVacant() ==> |VacantSlots(es[i := e])| == |VacantSlots(es)| - 1
    ensures !es[i].IsVacant() && e.IsVacant() ==> |VacantSlots(es[i := e])| == |VacantSlots(es)| + 1
    ensures es[i].IsVacant() == e.IsVacant() ==> VacantSlots(es[i := e]) == VacantSlots(es)
  {
    if es[i].IsVacant() && !e.IsVacant() {
      assert VacantSlots(es[i := e]) == VacantSlots(es) - {i};
      assert i in VacantSlots(es);
    } else if !es[i].IsVacant() && e.IsVacant() {
      assert VacantSlots(es[i := e]) == VacantSlots(es) + {i};
      assert i !in VacantSlots(es);
    }
  }

  /** Entry `e` has been put in the first vacant slot, on a cluster that was free. */
  ghost predicate Created(v: Vol, v': Vol, i: nat, e: Entry)
  {
    && OneEntryChanged(v, v', i, e, [e.first])
    && Vacancy(v.RootEntries(), 0) == Some(i) && e.IsLive() && e.size == 0
    && InRange(v.fat, e.first) && v.fat[e.first] == FAT32_FREE && v'.fat == v.fat[e.first := FAT32_EOC]
    && Counted(v'.PoolOf())
  }

  lemma CreatedParts(v: Vol, i: nat, e: Entry)
    requires Inv(v) && Vacancy(v.RootEntries(), 0) == Some(i) && e.IsLive() && e.name !in Catalog(v.RootEntries())
    requires InRange(v.fat, e.first) && v.fat[e.first] == FAT32_FREE
    ensures var es := v.RootEntries();
            && i < |es| && !es[i].IsLive()
            && DirOk(es[i := e]) && Catalog(es[i := e]) == Catalog(es)[e.name := e]
            && Partition(v.root, Heads(es)[i := HeadOf(e)], v.fat[e.first := FAT32_EOC], ChainsIn(v)[i := [e.first]])
            && |VacantSlots(es[i := e])| == |VacantSlots(es)| - 1
  {
    var es := v.RootEntries();
    hide Entries, DirOk, Catalog, Partition;
    CreateIsInsert(es, i, e);
    PartitionCreate(v.root, Heads(es), v.fat, ChainsIn(v), i, e.first);
    VacantAfter(es, i, e);
  }

  /** The state after a successful creation. */
  lemma CreatedInv(v: Vol, v': Vol, i: nat, e: Entry)
    requires Inv(v) && Created(v, v', i, e) && e.name !in Catalog(v.RootEntries())
    ensures Inv(v') && ChainsIn(v') == ChainsIn(v)[i := [e.first]]
    ensures Files(v') == Files(v)[e.name := FileOf(v', e)]
    ensures |VacantSlots(v'.RootEntries())| == |VacantSlots(v.RootEntries())| - 1
    ensures FileOf(v', e) == AbsFile(e.attr, [], 1, e.IsDirectory() && OnlyDots(Entries(v'.data[e.first])))
  {
    hide Entries, DirOk, Catalog, Counted, FileOf, Chain, Partition, Fitting, ChainsOf, Heads, HeadOf, Entry.IsLive;
    hide Vacancy, VacantSlots;
    CreatedParts(v, i, e);
    StepKeepsInv(v, v', i, e, [e.first]);
    FilesFollow(v, v', i, {}, map[e.name := e]);
    CreatedFile(v', i, e);
  }

  lemma CreatedFile(v: Vol, i: nat, e: Entry)
    requires Inv(v) && i < |v.RootEntries()| && v.RootEntries()[i] == e && e.IsLive() && e.size == 0
    requires ChainsIn(v)[i] == [e.first]
    ensures InRange(v.fat, e.first)
    ensures FileOf(v, e) == AbsFile(e.attr, [], 1, e.IsDirectory() && OnlyDots(Entries(v.data[e.first])))
  {
    LiveChain(v, i);
  }

  /** `create_dir_entry` fills the first vacant slot of the root cluster, or changes nothing but the buffer. */
  lemma CreateEntryEffect(v: Vol, name: Name, attr: Byte, c: nat)
    requires Shaped(v) && c < |v.fat|
    ensures var (v', ok) := CreateEntry(v, name, attr, c);
            && Shaped(v') && v' == v.(data := v'.data, buf := v'.buf) && v'.Bpc() == v.Bpc()
            && (forall x :: 0 <= x < |v.data| && x != v.root ==> v'.data[x] == v.data[x])
            && match Vacancy(v.RootEntries(), 0)
               case None => !ok && v'.data == v.data
               case Some(i) => ok && v'.RootEntries() == v.RootEntries()[i := Entry(name, attr, c, 0)]
  {
    hide Entries, Vacancy, WithNew;
    match Vacancy(v.RootEntries(), 0)
    case None =>
    case Some(i) => NewRefines(v.data[v.root], i, name, attr, c, 0);
  }

  /** A sound volume whose counter is positive gives a cluster that was free. */
  lemma AllocateFilledEffect(v: Vol, attr: Byte)
    requires Inv(v) && v.free > 0
    ensures var (v1, c) := AllocateFilled(v, attr);
            && InRange(v.fat, c) && c != v.root && c != 0 && v.fat[c] == FAT32_FREE
            && v1.fat == v.fat[c := FAT32_EOC] && v1.free == v.free - 1 && v1.root == v.root
            && Counted(v1.PoolOf()) && Gap(v1.PoolOf()) == Gap(v.PoolOf())
            && v1.data == v.data[c := FirstCluster(v.Bpc(), attr, c, v.root)] && v1.RootEntries() == v.RootEntries()
  {
    AllocateIsFirstFit(v.PoolOf());
    hide Entries, FirstCluster, HintTight, Gap, DirOk, Fitting, Scan;
  }

  /** The dot cluster is an empty directory. */
  lemma DotClusterIsEmpty(n: nat, c: nat, parent: nat)
    requires n >= 64 && c < WORD && parent < WORD
    ensures OnlyDots(Entries(DotCluster(n, c, parent)))
  {
    var z := Zeros(n);
    NewRefines(z, 0, DOT_NAME, ATTR_DIRECTORY, c, 0);
    var z1 := WithNew(z, 0, DOT_NAME, ATTR_DIRECTORY, c, 0);
    NewRefines(z1, 1, DOTDOT_NAME, ATTR_DIRECTORY, parent, 0);
    forall j | 2 <= j < Count(z)
      ensures Entries(DotCluster(n, c, parent))[j].IsVacant()
    {
      assert Entries(DotCluster(n, c, parent))[j] == Entries(z)[j];
      assert EntryBytes(z, j)[0] == 0;
    }
  }

  lemma NewIsEmpty(v: Vol, attr: Byte, name: Name, c: nat)
    requires Shaped(v) && InRange(v.fat, c) && attr in [ATTR_ARCHIVE, ATTR_DIRECTORY]
    ensures Entry(name, attr, c, 0).IsDirectory() && OnlyDots(Entries(FirstCluster(v.Bpc(), attr, c, v.root)))
       <==> attr == ATTR_DIRECTORY
  {
    hide Entries, OnlyDots;
    DotClusterIsEmpty(v.Bpc(), c, v.root);
  }

  /** Enough of both stocks: the state change, whatever the name. */
  lemma CreateEffect(v: Vol, name: Name, attr: Byte)
    requires Inv(v) && v.free > 0 && Vacancy(v.RootEntries(), 0).Some?
    ensures var (v', c) := CreateWith(v, name, attr);
            && c != 0 && c != v.root && InRange(v.fat, c) && v.fat[c] == FAT32_FREE
            && c < |v'.data| && v'.data[c] == FirstCluster(v.Bpc(), attr, c, v.root)
            && v'.fat == v.fat[c := FAT32_EOC]
            && v'.Bpc() == v.Bpc() && v'.free == v.free - 1 && Gap(v'.PoolOf()) == Gap(v.PoolOf())
            && Counted(v'.PoolOf())
            && OneEntryChanged(v, v', Vacancy(v.RootEntries(), 0).value, Entry(name, attr, c, 0), [c])
  {
    hide AllocateFilled, CreateEntry, Inv, Entries, Vacancy, Gap, FirstCluster, Counted;
    LoadedInv(v);
    AllocateFilledEffect(v, attr);
    var (v1, c) := AllocateFilled(v, attr);
    CreateEntryEffect(v1, name, attr, c);
    var v' := CreateEntry(v1, name, attr, c).0;
    assert v'.PoolOf() == v1.PoolOf();
    forall x | 2 <= x < |v.data| && x != v.root && x !in [c]
      ensures v'.data[x] == v.data[x]
    {
      assert x != c;
    }
  }

  /** Enough of both stocks: the file is entered. */
  lemma CreateSucceeds(v: Vol, name: Name, attr: Byte)
    requires Inv(v) && name !in Catalog(v.RootEntries()) && Storable(name) && attr in [ATTR_ARCHIVE, ATTR_DIRECTORY]
    requires v.free > 0 && Vacancy(v.RootEntries(), 0).Some?
    ensures var (v', c) := CreateWith(v, name, attr);
            && c != 0 && Inv(v') && v'.Bpc() == v.Bpc() && |v'.fat| == |v.fat|
            && v'.free == v.free - 1 && Gap(v'.PoolOf()) == Gap(v.PoolOf())
            && Created(v, v', Vacancy(v.RootEntries(), 0).value, Entry(name, attr, c, 0))
            && Files(v') == Files(v)[name := AbsFile(attr, [], 1, attr == ATTR_DIRECTORY)]
            && |VacantSlots(v'.RootEntries())| == |VacantSlots(v.RootEntries())| - 1
  {
    hide CreateWith, Inv, Entries, Vacancy, Catalog, Gap, FileOf, VacantSlots, OnlyDots, FirstCluster;
    hide Entry.IsDirectory, OneEntryChanged, Counted;
    LoadedInv(v);
    CreateEffect(v, name, attr);
    var (v', c) := CreateWith(v, name, attr);
    CreatedInv(v, v', Vacancy(v.RootEntries(), 0).value, Entry(name, attr, c, 0));
    NewIsEmpty(v, attr, name, c);
  }

  /** A full directory: the FAT and the counter are rolled back. */
  lemma CreateRollsBack(v: Vol, name: Name, attr: Byte)
    requires Inv(v)
    requires v.free > 0 && Vacancy(v.RootEntries(), 0).None?
    ensures var (v', c) := CreateWith(v, name, attr);
            && c == 0 && Inv(v') && v'.fat == v.fat && v'.free == v.free && v'.root == v.root && v'.Bpc() == v.Bpc()
            && v'.RootEntries() == v.RootEntries() && Files(v') == Files(v) && |v'.fat| == |v.fat|
            && Gap(v'.PoolOf()) == Gap(v.PoolOf())
  {
    AllocateFilledEffect(v, attr);
    var (v1, c) := AllocateFilled(v, attr);
    CreateEntryEffect(v1, name, attr, c);
    SingletonChain(v1.fat, c);
    hide AllocateFilled, CreateEntry, Entries, Vacancy, Partition, Fitting, Heads, ChainsOf, DirOk, Catalog, Gap;
    hide FirstCluster, FileOf;
    var v2 := CreateEntry(v1, name, attr, c).0;
    assert v2.PoolOf() == v1.PoolOf();
    ReleaseFreesTheChain(v2.PoolOf(), [c]);
    assert Cleared(v1.fat, Members([c])) == v.fat;
    SameFiles(v, FreeChain(v2, c), c);
    GapSame(v.PoolOf(), FreeChain(v2, c).PoolOf());
  }

  lemma GapSame(p: Pool, q: Pool)
    requires p.fat == q.fat && p.free == q.free
    ensures Gap(p) == Gap(q)
  {
  }

  /** Chains do not run through free clusters. */
  lemma FreeClusterUnseen(v: Vol, data: seq<seq<Byte>>, c: nat)
    requires Inv(v) && c < |v.fat| && v.fat[c] == FAT32_FREE && |data| == |v.data|
    requires forall x :: 0 <= x < |v.data| && x != c ==> data[x] == v.data[x]
    ensures c != v.root && DataKept(v.data, data, ChainsIn(v), |v.RootEntries()|)
  {
    PartitionInUse(v.root, Heads(v.RootEntries()), v.fat, ChainsIn(v));
    assert c != v.root;
    hide Entries, Partition, Fitting, Heads, ChainsOf, DirOk, Counted;
    var chains := ChainsIn(v);
    forall j: nat, x: nat {:trigger x in chains[j]} | j < |chains| && x in chains[j]
      ensures x < |v.data| && x < |data| && data[x] == v.data[x]
    {
    }
  }

  /** Only the buffer, the hint and a free cluster differ. */
  lemma SameFiles(v: Vol, v': Vol, c: nat)
    requires Inv(v) && Shaped(v') && Counted(v'.PoolOf())
    requires v'.root == v.root && v'.fat == v.fat && v'.Bpc() == v.Bpc() && c < |v.fat| && v.fat[c] == FAT32_FREE
    requires forall x :: 0 <= x < |v.data| && x != c ==> v'.data[x] == v.data[x]
    ensures Inv(v') && v'.RootEntries() == v.RootEntries() && Files(v') == Files(v)
  {
    hide Entries, Partition, Fitting, Heads, ChainsOf, DirOk, Catalog, Gap, FileOf, Counted, DataKept;
    FreeClusterUnseen(v, v'.data, c);
    assert v'.RootEntries() == v.RootEntries();
    InvFrom(v', ChainsIn(v));
    OthersUnchanged(v, v', |v.RootEntries()|);
    FilesFollow(v, v', |v.RootEntries()|, {}, map[]);
  }

  lemma LoadedSame(v: Vol, c: nat)
    requires Inv(v) && InRange(v.fat, c)
    ensures Inv(v.Loaded(c)) && Abs(v.Loaded(c)) == Abs(v) && Files(v.Loaded(c)) == Files(v)
    ensures v.Loaded(c).Bpc() == v.Bpc() && v.Loaded(c).RootEntries() == v.RootEntries()
            && v.Loaded(c).PoolOf() == v.PoolOf()
  {
    LoadedInv(v);
    BufferUnseen(v, v.data[c]);
  }

  /** What the buffer holds does not show in the files. */
  lemma BufferUnseen(v: Vol, buf: seq<Byte>)
    requires Inv(v) && |buf| == |v.buf|
    ensures var v' := v.(buf := buf);
            && Inv(v') && Abs(v') == Abs(v) && Files(v') == Files(v) && ChainsIn(v') == ChainsIn(v)
            && v'.Bpc() == v.Bpc() && v'.RootEntries() == v.RootEntries() && v'.PoolOf() == v.PoolOf()
  {
    hide Entries, Partition, Fitting, Heads, DirOk, Catalog, Gap, Counted, Chain, ChainsOf, FileOf, VacantSlots;
    var v' := v.(buf := buf);
    assert v'.RootEntries() == v.RootEntries() && v'.PoolOf() == v.PoolOf() && v'.Bpc() == v.Bpc();
    InvFrom(v', ChainsIn(v));
    DataSame(v.data, ChainsIn(v), |v.RootEntries()|, v);
    OthersUnchanged(v, v', |v.RootEntries()|);
    FilesFollow(v, v', |v.RootEntries()|, {}, map[]);
  }

  lemma DataSame(data: seq<seq<Byte>>, chains: seq<seq<nat>>, i: nat, v: Vol)
    requires Inv(v) && chains == ChainsIn(v) && data == v.data
    ensures DataKept(data, data, chains, i)
  {
    PartitionInUse(v.root, Heads(v.RootEntries()), v.fat, chains);
  }

  /** Entering a file under a new name is the abstract creation, success, failure and rollback alike. */
  lemma CreateRefines(v: Vol, name: Name, attr: Byte)
    requires Inv(v) && name !in Catalog(v.RootEntries()) && Storable(name) && attr in [ATTR_ARCHIVE, ATTR_DIRECTORY]
    ensures var (v', c) := CreateWith(v, name, attr);
            && Inv(v') && (Abs(v'), c != 0) == AbsCreate(Abs(v), name, attr)
            && Gap(v'.PoolOf()) == Gap(v.PoolOf()) && |v'.fat| == |v.fat|
  {
    VacancyIffSlots(v.RootEntries());
    hide CreateWith, Entries, Entry.IsDirectory, OnlyDots, FileOf, Inv, Created, Vacancy, VacantSlots, Files, Catalog;
    hide DirOk, Gap, Shaped;
    if v.free == 0 {
      CreateWithoutClusters(v, name, attr);
    } else if Vacancy(v.RootEntries(), 0).None? {
      CreateRollsBack(v, name, attr);
    } else {
      CreateSucceeds(v, name, attr);
    }
  }

  lemma CreateWithoutClusters(v: Vol, name: Name, attr: Byte)
    requires Inv(v) && v.free == 0
    ensures CreateWith(v, name, attr) == (v, 0)
  {
    AllocateIsFirstFit(v.PoolOf());
  }

  /** Opening a missing file for writing creates an empty file. */
  lemma CreateFileRefines(v: Vol, name: Name)
    requires Inv(v) && name !in Files(v) && Storable(name)
    ensures var (v', c) := CreateFile(v, name);
            && Inv(v') && (Abs(v'), c != 0) == AbsCreate(Abs(v), name, ATTR_ARCHIVE)
            && Gap(v'.PoolOf()) == Gap(v.PoolOf()) && |v'.fat| == |v.fat|
  {
    LoadedInv(v);
    LoadedSame(v, v.root);
    hide CreateWith, Inv, Abs;
    CreateRefines(v.Loaded(v.root), name, ATTR_ARCHIVE);
  }

  lemma MakeDirectoryIsCreate(v: Vol, lookup: Name, name: Name)
    requires Shaped(v)
    ensures Shaped(v.Loaded(v.root))
    ensures MakeDirectory(v, lookup, name) ==
            if Find(v.RootEntries(), lookup, 0).Some? then (v.Loaded(v.root), false)
            else (var r := CreateWith(v.Loaded(v.root), name, ATTR_DIRECTORY); (r.0, r.1 != 0))
  {
    hide CreateWith, Entries, Find;
  }

  /** `fs_mkdir` on a path without leading slash. */
  lemma MakeDirectoryRefines(v: Vol, name: Name)
    requires Inv(v) && (name !in Files(v) ==> Storable(name))
    ensures var (v', ok) := MakeDirectory(v, name, name);
            && Inv(v') && (Abs(v'), ok) == AbsMakeDirectory(Abs(v), name)
            && Gap(v'.PoolOf()) == Gap(v.PoolOf()) && |v'.fat| == |v.fat|
  {
    LoadedInv(v);
    FindIsLookup(v.RootEntries(), name);
    LoadedSame(v, v.root);
    MakeDirectoryIsCreate(v, name, name);
    hide CreateWith, MakeDirectory, Entries, FileOf, DirOk, Catalog, Inv, Files, Find, Shaped;
    if name !in Files(v) {
      CreateRefines(v.Loaded(v.root), name, ATTR_DIRECTORY);
    }
  }

  // ---- what a new directory holds ----

  /** Byte by byte: 46 is the dot, 32 the space, 16 the mark of a directory. */
  const DOT_ENTRY: Name := [46, 32, 32, 32, 32, 32, 32, 32, 32, 32, 32]
  const DOTDOT_ENTRY: Name := [46, 46, 32, 32, 32, 32, 32, 32, 32, 32, 32]

  /** "." leads to the directory's own cluster, ".." to the root's, and the rest is empty. */
  ghost predicate DotsAt(es: seq<Entry>, c: nat, root: nat)
  {
    && |es| >= 2 && es[0] == Entry(DOT_ENTRY, 16, c, 0) && es[1] == Entry(DOTDOT_ENTRY, 16, root, 0)
    && forall j :: 2 <= j < |es| ==> es[j].name[0] == 0
  }

  lemma FirstClusterHolds(n: nat, attr: Byte, c: nat, root: nat)
    requires n >= 64 && c < WORD && root < WORD
    ensures attr == 16 ==> DotsAt(Entries(FirstCluster(n, attr, c, root)), c, root)
    ensures attr == 32 ==> FirstCluster(n, attr, c, root) == seq(n, _ => 0)
  {
    if attr == 16 {
      var z := Zeros(n);
      NewRefines(z, 0, DOT_NAME, ATTR_DIRECTORY, c, 0);
      var z1 := WithNew(z, 0, DOT_NAME, ATTR_DIRECTORY, c, 0);
      NewRefines(z1, 1, DOTDOT_NAME, ATTR_DIRECTORY, root, 0);
      forall j | 2 <= j < Count(z)
        ensures Entries(DotCluster(n, c, root))[j].name[0] == 0
      {
        assert Entries(DotCluster(n, c, root))[j] == Entries(z)[j];
        assert EntryBytes(z, j)[0] == 0;
      }
    }
  }

  /** The entry that is new, and the cluster it starts at, which was free and held nothing that anyone saw. */
  ghost predicate NewEntryAt(v: Vol, v': Vol, i: nat, name: Name, attr: Byte)
  {
    && i < |v.RootEntries()| == |v'.RootEntries()| && !v.RootEntries()[i].IsLive()
    && (forall j :: 0 <= j < |v.RootEntries()| && j != i ==> v'.RootEntries()[j] == v.RootEntries()[j])
    && var e := v'.RootEntries()[i];
    && e == Entry(name, attr, e.first, 0) && 2 <= e.first < |v.fat| == |v'.data| && v.fat[e.first] == 0
    && |v'.data[e.first]| == v.Bpc()
    && (attr == 16 ==> DotsAt(Entries(v'.data[e.first]), e.first, v.root))
    && (attr == 32 ==> v'.data[e.first] == seq(v.Bpc(), _ => 0))
  }

  /** `fs_mkdir` with room for it: a directory entry, on a cluster with its two dot entries. */
  lemma MakeDirectoryHolds(v: Vol, name: Name) returns (i: nat)
    requires Inv(v) && name !in Files(v) && Storable(name) && v.free > 0 && VacantSlots(v.RootEntries()) != {}
    ensures Shaped(v)
    ensures var (v', ok) := MakeDirectory(v, name, name); ok && NewEntryAt(v, v', i, name, 16)
  {
    hide Inv, Entries, CreateWith, MakeDirectory, Vacancy, VacantSlots, Catalog, FileOf, Find, DotsAt, Files;
    hide NewEntryAt;
    LoadedInv(v);
    FindIsLookup(v.RootEntries(), name);
    MakeDirectoryIsCreate(v, name, name);
    i := CreationHolds(v, name, ATTR_DIRECTORY);
  }

  /** Opening a missing file for writing, with room for it: a file entry, on a cluster of zeros. */
  lemma CreateFileHolds(v: Vol, name: Name) returns (i: nat)
    requires Inv(v) && name !in Files(v) && Storable(name) && v.free > 0 && VacantSlots(v.RootEntries()) != {}
    ensures Shaped(v)
    ensures var (v', c) := CreateFile(v, name); c != 0 && NewEntryAt(v, v', i, name, 32)
  {
    hide Inv, Entries, CreateWith, Vacancy, VacantSlots, Catalog, FileOf, Find, DotsAt, Files, NewEntryAt;
    i := CreationHolds(v, name, ATTR_ARCHIVE);
  }

  lemma CreationHolds(v: Vol, name: Name, attr: Byte) returns (i: nat)
    requires Inv(v) && v.free > 0 && VacantSlots(v.RootEntries()) != {} && attr in [ATTR_ARCHIVE, ATTR_DIRECTORY]
    ensures Shaped(v) && v.root < |v.data|
    ensures var (v', c) := CreateWith(v.Loaded(v.root), name, attr); c != 0 && NewEntryAt(v, v', i, name, attr)
  {
    hide Inv, Entries, CreateWith, Vacancy, VacantSlots, Catalog, FileOf, DotsAt, Files, FirstCluster, Counted, Gap;
    LoadedInv(v);
    LoadedSame(v, v.root);
    VacancyIffSlots(v.RootEntries());
    var v1 := v.Loaded(v.root);
    CreateEffect(v1, name, attr);
    var (v', c) := CreateWith(v1, name, attr);
    i := Vacancy(v.RootEntries(), 0).value;
    FirstClusterHolds(v.Bpc(), attr, c, v.root);
  }
}
