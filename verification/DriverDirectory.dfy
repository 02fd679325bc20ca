/**
 The directory operations of the driver, on the mounted volume: lookups and edits of the root cluster through
 the shared buffer. Every method is proved equal to the operation on volume states, and with the invariant
 in place to be the map operation on the abstract file system.
 */
module DriverDirectory {
  import opened Bytes
  import opened FatImage
  import opened Chains
  import opened Allocator
  import opened Names
  import opened Directory
  import opened VolumeState
  import opened FileContent
  import opened FileWrite
  import opened VolumeOps
  import opened AbstractFs
  import opened Refinement
  import opened Edits
  import opened Driver

  // ---- the scanning loops ----

  /** The loop that compares eleven bytes. */
  method SameName(buffer: array<Byte>, at: nat, name: Name) returns (same: bool)
    requires at + 11 <= buffer.Length
    ensures same <==> buffer[at..at + 11] == name
  {
    var j := 0;
    while j < 11
      invariant j <= 11 && forall k :: 0 <= k < j ==> buffer[at + k] == name[k]
    {
      if buffer[at + j] != name[j] { return false; }
      j := j + 1;
    }
    return true;
  }

  lemma BufferEntry(fs: Volume, i: nat)
    requires fs.Valid() && fs.mounted && i < fs.g.Bpc() / ENTRY_SIZE
    ensures ENTRY_SIZE * i + ENTRY_SIZE <= fs.g.Bpc() <= fs.buffer.Length
    ensures |Entries(fs.State().buf)| == fs.g.Bpc() / ENTRY_SIZE
    ensures var e := Entries(fs.State().buf)[i];
            && e == DecodeEntry(Window(fs.buffer[..], ENTRY_SIZE * i, ENTRY_SIZE))
            && e.name == fs.buffer[ENTRY_SIZE * i..ENTRY_SIZE * i + 11] && e.attr == fs.buffer[ENTRY_SIZE * i + 11]
            && e.name[0] == fs.buffer[ENTRY_SIZE * i]
  {
    hide FatTable, ClusterTable, Mirrored, Fits, Entries, DecodeEntry;
    EntryAt(fs.State().buf, i);
    assert Window(fs.State().buf, ENTRY_SIZE * i, ENTRY_SIZE) == Window(fs.buffer[..], ENTRY_SIZE * i, ENTRY_SIZE);
  }

  /** The lookup loop over the buffer: skip deleted and long-name entries, stop at the end mark. */
  method ScanForName(fs: Volume, name: Name) returns (slot: Option<nat>)
    requires fs.Valid() && fs.mounted
    ensures slot == Find(Entries(fs.State().buf), name, 0)
  {
    hide FatTable, ClusterTable, Mirrored, Fits, Entries, Fits, Volume.State, Volume.Valid, DecodeEntry;
    BufferSize(fs);
    ghost var es := Entries(fs.State().buf);
    var i: nat := 0;
    while i < fs.g.Bpc() / ENTRY_SIZE
      invariant i <= |es| && Find(es, name, i) == Find(es, name, 0)
    {
      BufferEntry(fs, i);
      if fs.buffer[ENTRY_SIZE * i] == 0 { return None; }
      if fs.buffer[ENTRY_SIZE * i] != DELETED && fs.buffer[ENTRY_SIZE * i + 11] != ATTR_LONG_NAME {
        var same := SameName(fs.buffer, ENTRY_SIZE * i, name);
        if same { return Some(i); }
      }
      i := i + 1;
    }
    return None;
  }

  lemma BufferSize(fs: Volume)
    requires fs.Valid() && fs.mounted
    ensures |Entries(fs.State().buf)| == fs.g.Bpc() / ENTRY_SIZE && fs.State().Bpc() == fs.g.Bpc() <= fs.buffer.Length
    ensures fs.g.Bpc() >= 64 && fs.buffer != fs.ramdisk && fs.State().root == fs.g.root == fs.cwd && Shaped(fs.State())
  {
    hide FatTable, ClusterTable, Mirrored, Entries;
    fs.StateShaped();
  }

  /** The slot loop of `find_free_dir_entry_slot`. */
  method ScanForVacancy(fs: Volume) returns (slot: Option<nat>)
    requires fs.Valid() && fs.mounted
    ensures slot == Vacancy(Entries(fs.State().buf), 0)
  {
    hide FatTable, ClusterTable, Mirrored, Fits, Entries, Fits, Volume.State, Volume.Valid, DecodeEntry;
    BufferSize(fs);
    ghost var es := Entries(fs.State().buf);
    var i: nat := 0;
    while i < fs.g.Bpc() / ENTRY_SIZE
      invariant i <= |es| && Vacancy(es, i) == Vacancy(es, 0)
    {
      BufferEntry(fs, i);
      if fs.buffer[ENTRY_SIZE * i] == 0 || fs.buffer[ENTRY_SIZE * i] == DELETED { return Some(i); }
      i := i + 1;
    }
    return None;
  }

  /** The root directory in the buffer. */
  method LoadRoot(fs: Volume)
    requires fs.Valid() && fs.mounted
    modifies fs.buffer
    ensures fs.Valid() && fs.State() == old(fs.State()).Loaded(old(fs.State()).root)
    ensures fs.State().buf == old(fs.State()).data[old(fs.State()).root]
            && old(fs.State()).root < |old(fs.State()).data|
    ensures Entries(fs.State().buf) == old(fs.State()).RootEntries()
  {
    BufferSize(fs);
    hide FatTable, ClusterTable, Mirrored, Entries, Fits;
    RootInside(fs);
    var read := fs.ReadCluster(fs.cwd);
  }

  lemma RootInside(fs: Volume)
    requires fs.Valid() && fs.mounted
    ensures fs.cwd == fs.g.root && fs.g.HasCluster(fs.g.root) && fs.g.root < |fs.State().data|
            && fs.State().root == fs.g.root
  {
    hide FatTable, ClusterTable, Mirrored;
  }

  // ---- create ----

  lemma NewSplices(dir: seq<Byte>, i: nat, name: Name, attr: Byte, first: nat, size: nat)
    requires i < Count(dir) && first < WORD && size < WORD
    ensures ENTRY_SIZE * i + ENTRY_SIZE <= |dir|
    ensures Splice(Splice(dir, ENTRY_SIZE * i, name), ENTRY_SIZE * i + 11, MakeEntry(name, attr, first, size)[11..])
         == WithNew(dir, i, name, attr, first, size)
  {
    var b := MakeEntry(name, attr, first, size);
    assert b == name + b[11..];
  }

  /** The fields behind the name of a new entry. */
  function TailFields(attr: Byte, first: nat, size: nat): (t: seq<Byte>)
    requires first < WORD && size < WORD
    ensures |t| == 21 && forall name: Name :: MakeEntry(name, attr, first, size)[11..] == t
  {
    [attr, 0, 0] + Zeros(6) + Le16(first / 0x1_0000) + Zeros(4) + Le16(first % 0x1_0000) + Le32(size)
  }

  /** The fields behind a name that is already in the buffer. */
  method FillTail(fs: Volume, i: nat, ghost dir: seq<Byte>, ghost name: Name, attr: Byte, first: nat, size: nat)
    requires fs.Valid() && fs.mounted && i < fs.g.Bpc() / ENTRY_SIZE && first < WORD && size < WORD
    requires i < Count(dir) && ENTRY_SIZE * i + ENTRY_SIZE <= |dir|
             && fs.State().buf == Splice(dir, ENTRY_SIZE * i, name)
    modifies fs.buffer
    ensures fs.Valid() && fs.State() == old(fs.State()).(buf := WithNew(dir, i, name, attr, first, size))
  {
    hide FatTable, ClusterTable, Mirrored, Fits, Entries, WithNew, MakeEntry, Splice;
    NewSplices(dir, i, name, attr, first, size);
    BufferSize(fs);
    hide Volume.State, Volume.Valid;
    fs.PokeBuffer(ENTRY_SIZE * i + 11, TailFields(attr, first, size));
  }

  lemma SlotInside(fs: Volume, i: nat)
    requires fs.Valid() && fs.mounted && i < fs.g.Bpc() / ENTRY_SIZE
    ensures ENTRY_SIZE * i + ENTRY_SIZE <= fs.g.Bpc() == |fs.State().buf| && i < Count(fs.State().buf)
  {
    BufferSize(fs);
  }

  /** A whole entry written into the buffer under a name that is converted to 8.3 form. */
  method FillEntry(fs: Volume, i: nat, name: seq<Byte>, attr: Byte, first: nat, size: nat)
    requires fs.Valid() && fs.mounted && i < fs.g.Bpc() / ENTRY_SIZE && first < WORD && size < WORD
    modifies fs.buffer
    ensures fs.Valid() && i < Count(old(fs.State()).buf)
    ensures fs.State() == old(fs.State()).(buf := WithNew(old(fs.State()).buf, i, To83(name), attr, first, size))
  {
    hide FatTable, ClusterTable, Mirrored, Fits, Entries, WithNew, Splice, To83, Volume.State, Volume.Valid;
    ghost var dir := fs.State().buf;
    SlotInside(fs, i);
    fs.PokeName(ENTRY_SIZE * i, name);
    FillTail(fs, i, dir, To83(name), attr, first, size);
  }

  /** The same under a name given byte by byte. */
  method FillDotEntry(fs: Volume, i: nat, name: Name, first: nat)
    requires fs.Valid() && fs.mounted && i < fs.g.Bpc() / ENTRY_SIZE && first < WORD
    modifies fs.buffer
    ensures fs.Valid() && i < Count(old(fs.State()).buf)
    ensures fs.State() == old(fs.State()).(buf := WithNew(old(fs.State()).buf, i, name, ATTR_DIRECTORY, first, 0))
  {
    hide FatTable, ClusterTable, Mirrored, Fits, Entries, WithNew, Splice, Volume.State, Volume.Valid;
    ghost var dir := fs.State().buf;
    SlotInside(fs, i);
    fs.PokeBuffer(ENTRY_SIZE * i, name);
    FillTail(fs, i, dir, name, ATTR_DIRECTORY, first, 0);
  }

  /** `create_dir_entry` in the root directory; it reads the directory twice. */
  method CreateDirEntry(fs: Volume, name: seq<Byte>, first: nat, attr: Byte) returns (ok: bool)
    requires fs.Valid() && fs.mounted && first < fs.g.Limit()
    modifies fs.ramdisk, fs.buffer
    ensures fs.Valid() && Shaped(old(fs.State())) && first < |old(fs.State()).fat|
    ensures (fs.State(), ok) == CreateEntry(old(fs.State()), To83(name), attr, first)
  {
    hide FatTable, ClusterTable, Mirrored, Fits, Entries, WithNew, To83, Vacancy;
    fs.CountersOfState();
    BufferSize(fs);
    RootInside(fs);
    hide Volume.State, Volume.Valid, Shaped;
    ghost var v := fs.State();
    LoadRoot(fs);
    LoadRoot(fs);
    var slot := ScanForVacancy(fs);
    BufferSize(fs);
    if slot.None? { return false; }
    FillEntry(fs, slot.value, name, attr, first, 0);
    ok := fs.WriteCluster(fs.cwd);
  }

  /** The buffer filled for a new file or directory. */
  method FillFirstCluster(fs: Volume, attr: Byte, cluster: nat)
    requires fs.Valid() && fs.mounted && cluster < WORD && fs.cwd < WORD
    modifies fs.buffer
    ensures fs.Valid()
    ensures fs.State() ==
            old(fs.State()).(buf := FirstCluster(old(fs.State()).Bpc(), attr, cluster, old(fs.State()).root))
  {
    hide FatTable, ClusterTable, Mirrored, Fits, WithNew, Volume.State, Volume.Valid;
    BufferSize(fs);
    fs.ClearBuffer();
    if attr == ATTR_DIRECTORY {
      BufferSize(fs);
      FillDotEntry(fs, 0, DOT_NAME, cluster);
      FillDotEntry(fs, 1, DOTDOT_NAME, fs.cwd);
    }
  }

  /** The clusters of a mounted volume have numbers below 2^28. */
  lemma ClusterNumbers(fs: Volume)
    requires fs.Valid() && fs.mounted
    ensures fs.cwd < fs.g.Limit() <= FAT32_EOC < WORD && |fs.State().fat| == fs.g.Limit()
  {
    hide FatTable, ClusterTable, Mirrored;
    LimitBounded(fs.g, fs.ramdisk.Length);
    fs.StateShaped();
  }

  lemma AllocatedNumber(fs: Volume)
    requires fs.Valid() && fs.mounted
    ensures PoolOk(fs.State().PoolOf())
    ensures Allocate(fs.State().PoolOf()).1 == 0 || fs.g.HasCluster(Allocate(fs.State().PoolOf()).1)
  {
    hide FatTable, ClusterTable, Mirrored, Fits, Allocate;
    fs.CountersOfState();
    AllocateInRange(fs.State().PoolOf());
  }

  /** Allocate a cluster and fill it, as `fs_open` and `fs_mkdir` do. */
  method AllocateAndFill(fs: Volume, attr: Byte) returns (cluster: nat)
    requires fs.Valid() && fs.mounted
    modifies fs.ramdisk, fs.buffer, fs`mirrored, fs`freeClusters, fs`nextFree
    ensures fs.Valid() && fs.mirrored >= old(fs.mirrored) && Shaped(old(fs.State()))
    ensures (fs.State(), cluster) == AllocateFilled(old(fs.State()), attr)
    ensures cluster == 0 || fs.g.HasCluster(cluster)
  {
    hide FatTable, ClusterTable, Mirrored, Fits, FirstCluster, Allocate, Shaped, Volume.State, Volume.Valid;
    fs.CountersOfState();
    ClusterNumbers(fs);
    AllocatedNumber(fs);
    AllocateInRange(fs.State().PoolOf());
    ghost var v := fs.State();
    cluster := fs.AllocateCluster();
    if cluster == 0 {
      assert fs.State() == v;
      return;
    }
    FillFirstCluster(fs, attr, cluster);
    var stored := fs.WriteCluster(cluster);
  }

  /** Allocate, fill and enter; roll the allocation back when the directory is full. */
  method CreateNode(fs: Volume, name: seq<Byte>, attr: Byte) returns (cluster: nat)
    requires fs.Valid() && fs.mounted
    modifies fs.ramdisk, fs.buffer, fs`mirrored, fs`freeClusters, fs`nextFree
    ensures fs.Valid() && fs.mirrored >= old(fs.mirrored) && Shaped(old(fs.State()))
    ensures (fs.State(), cluster) == CreateWith(old(fs.State()), To83(name), attr)
  {
    hide FatTable, ClusterTable, Mirrored, Fits, AllocateFilled, CreateEntry, FreeChain, Shaped, To83, Volume.State;
    hide Volume.Valid;
    fs.CountersOfState();
    ghost var v := fs.State();
    cluster := AllocateAndFill(fs, attr);
    if cluster == 0 {
      NothingAllocated(v, attr);
      return;
    }
    var entered := CreateDirEntry(fs, name, cluster, attr);
    if !entered {
      var freed := fs.FreeClusterChain(cluster);
      cluster := 0;
    }
  }

  lemma NothingAllocated(v: Vol, attr: Byte)
    requires Shaped(v) && AllocateFilled(v, attr).1 == 0
    ensures AllocateFilled(v, attr).0 == v
  {
    assert PoolOk(v.PoolOf());
    AllocateInRange(v.PoolOf());
    hide Allocate, FirstCluster;
  }

  // ---- mkdir ----

  /** `fs_exists`. */
  method Exists(fs: Volume, path: seq<Byte>) returns (found: bool)
    requires fs.Valid()
    modifies fs.buffer
    ensures fs.Valid() && (!fs.mounted ==> !found && fs.buffer[..] == old(fs.buffer[..]))
    ensures fs.mounted ==> fs.State() == old(fs.State()).Loaded(old(fs.State()).root)
    ensures fs.mounted ==> found == Find(old(fs.State()).RootEntries(), NameOf(path), 0).Some?
    ensures fs.mounted && old(Inv(fs.State())) ==> found == (NameOf(path) in old(Abs(fs.State())).files)
  {
    hide FatTable, ClusterTable, Mirrored, Fits, Entries, Inv, To83, Catalog, DirOk, Find, Volume.State, Volume.Valid;
    hide FileOf;
    if !fs.mounted { return false; }
    ghost var v := fs.State();
    LoadRoot(fs);
    var name := Converted(Strip(path));
    var slot := ScanForName(fs, name);
    if Inv(v) {
      LoadedInv(v);
      FindIsLookup(v.RootEntries(), NameOf(path));
    }
    return slot.Some?;
  }

  /** A sound volume, and a name that the directory can hold if it is to be entered. */
  ghost predicate MayEnter(v: Vol, name: Name) { Inv(v) && (name !in Files(v) ==> Storable(name)) }

  /** `fs_mkdir`. */
  method MakeDir(fs: Volume, path: seq<Byte>) returns (ok: bool)
    requires fs.Valid()
    modifies fs.ramdisk, fs.buffer, fs`mirrored, fs`freeClusters, fs`nextFree
    ensures fs.Valid() && fs.mirrored >= old(fs.mirrored)
    ensures !fs.mounted || SkipSpaces(path) == [] ==>
            !ok && fs.ramdisk[..] == old(fs.ramdisk[..]) && fs.freeClusters == old(fs.freeClusters)
    ensures fs.mounted && SkipSpaces(path) != [] ==>
              var p := SkipSpaces(path);
              Shaped(old(fs.State())) && (fs.State(), ok) == MakeDirectory(old(fs.State()), NameOf(p), To83(p))
    ensures fs.mounted && SkipSpaces(path) != [] && old(MayEnter(fs.State(), To83(SkipSpaces(path))))
            && Strip(SkipSpaces(path)) == SkipSpaces(path) ==>
              Inv(fs.State()) && (Abs(fs.State()), ok) == AbsMakeDirectory(old(Abs(fs.State())), To83(SkipSpaces(path)))
  {
    hide FatTable, ClusterTable, Mirrored, Fits, Entries, Inv, Abs, CreateWith, Shaped, To83, Find, Volume.State;
    hide Volume.Valid, Files, Storable;
    if !fs.mounted || path == [] { return false; }
    var p := path;
    while p != [] && p[0] == 32
      invariant SkipSpaces(p) == SkipSpaces(path)
      decreases |p|
    {
      p := p[1..];
    }
    if p == [] { return false; }
    fs.CountersOfState();
    ghost var v := fs.State();
    if MayEnter(v, To83(p)) { MakeDirectoryRefines(v, To83(p)); }
    MakeDirectoryIsCreate(v, NameOf(p), To83(p));
    var found := Exists(fs, p);
    if found { return false; }
    var cluster := CreateNode(fs, p, ATTR_DIRECTORY);
    return cluster != 0;
  }

  // ---- delete ----

  lemma FoundInBuffer(v: Vol, name: Name, i: nat)
    requires Shaped(v) && v.root < |v.data| && Find(v.RootEntries(), name, 0) == Some(i)
    ensures i < |v.RootEntries()| && v.RootEntries()[i].IsLive()
  {
    FindInRange(v.RootEntries(), name, 0);
  }

  /** The first cluster and the directory bit of an entry in the buffer. */
  method EntryFields(fs: Volume, i: nat) returns (first: nat, isDirectory: bool)
    requires fs.Valid() && fs.mounted && i < fs.g.Bpc() / ENTRY_SIZE
    ensures i < |Entries(fs.State().buf)|
    ensures first == Entries(fs.State().buf)[i].first && isDirectory == Entries(fs.State().buf)[i].IsDirectory()
  {
    hide FatTable, ClusterTable, Mirrored, Fits, Entries, Volume.State, Volume.Valid;
    BufferEntry(fs, i);
    WindowOfWindow(fs.buffer[..], ENTRY_SIZE * i, ENTRY_SIZE, 20, 2);
    WindowOfWindow(fs.buffer[..], ENTRY_SIZE * i, ENTRY_SIZE, 26, 2);
    var high := De16(Window(fs.buffer[..], ENTRY_SIZE * i + 20, 2));
    var low := De16(Window(fs.buffer[..], ENTRY_SIZE * i + 26, 2));
    return high * 0x1_0000 + low, MarksDirectory(fs.buffer[ENTRY_SIZE * i + 11]);
  }

  /** Entry `i` of the buffer struck out and the buffer stored as the root cluster. */
  method StrikeOut(fs: Volume, i: nat)
    requires fs.Valid() && fs.mounted && i < fs.g.Bpc() / ENTRY_SIZE
    modifies fs.ramdisk, fs.buffer
    ensures fs.Valid() && i < Count(old(fs.State()).buf)
    ensures fs.State() == old(fs.State()).(buf := WithDeleted(old(fs.State()).buf, i)).Stored(old(fs.State()).root)
  {
    hide FatTable, ClusterTable, Mirrored, Fits, Entries, Volume.State, Volume.Valid, Splice;
    SlotInside(fs, i);
    fs.PokeBuffer(ENTRY_SIZE * i, [DELETED]);
    RootInside(fs);
    var stored := fs.WriteCluster(fs.cwd);
  }

  /** `fs_delete`. */
  method Delete(fs: Volume, path: seq<Byte>) returns (ok: bool)
    requires fs.Valid()
    modifies fs.ramdisk, fs.buffer, fs`mirrored, fs`freeClusters, fs`nextFree
    ensures fs.Valid() && fs.mirrored >= old(fs.mirrored)
    ensures !fs.mounted || path == [] ==>
            !ok && fs.ramdisk[..] == old(fs.ramdisk[..]) && fs.freeClusters == old(fs.freeClusters)
    ensures fs.mounted && path != [] ==>
            Shaped(old(fs.State())) && (fs.State(), ok) == DeleteFile(old(fs.State()), NameOf(path))
    ensures fs.mounted && path != [] && old(Inv(fs.State())) ==>
              Inv(fs.State()) && (Abs(fs.State()), ok) == AbsDelete(old(Abs(fs.State())), NameOf(path))
  {
    hide FatTable, ClusterTable, Mirrored, Fits, Entries, Inv, Abs, WithDeleted, FreeChain, Shaped, To83, Find;
    hide Volume.State, Volume.Valid, Entry.IsDirectory, Entry.IsLive;
    if !fs.mounted || path == [] { return false; }
    fs.CountersOfState();
    ghost var v := fs.State();
    if Inv(v) { DeleteRefines(v, NameOf(path)); }
    LoadRoot(fs);
    var name := Converted(Strip(path));
    var slot := ScanForName(fs, name);
    if slot.None? { return false; }
    FoundInBuffer(v, NameOf(path), slot.value);
    BufferSize(fs);
    var first, isDirectory := EntryFields(fs, slot.value);
    if isDirectory { return false; }
    if first >= 2 { var freed := fs.FreeClusterChain(first); }
    StrikeOut(fs, slot.value);
    return true;
  }

  // ---- rmdir ----

  /** The loop of `fs_rmdir` over the entries behind the two dot entries. */
  method ScanForContents(fs: Volume) returns (empty: bool)
    requires fs.Valid() && fs.mounted
    ensures empty == OnlyDots(Entries(fs.State().buf))
  {
    hide FatTable, ClusterTable, Mirrored, Fits, Entries, Volume.State, Volume.Valid, DecodeEntry;
    BufferSize(fs);
    ghost var es := Entries(fs.State().buf);
    var j: nat := 2;
    while j < fs.g.Bpc() / ENTRY_SIZE
      invariant 2 <= j && forall k :: 2 <= k < j && k < |es| ==> es[k].IsVacant()
    {
      BufferEntry(fs, j);
      if fs.buffer[ENTRY_SIZE * j] != 0 && fs.buffer[ENTRY_SIZE * j] != DELETED { return false; }
      j := j + 1;
    }
    return true;
  }

  /** No live entry starts behind the last cluster of the volume. */
  ghost predicate HeadsInside(v: Vol)
  {
    forall i: nat :: i < |v.RootEntries()| && v.RootEntries()[i].IsLive() ==> v.RootEntries()[i].first < |v.fat|
  }

  /** `fs_rmdir` on a name that is not there, is no directory or starts at no cluster. */
  lemma RemoveDirectoryRefuses(v: Vol, name: Name)
    requires Shaped(v)
    ensures var found := Find(v.RootEntries(), name, 0);
            found.None? || found.value >= |v.RootEntries()| || !v.RootEntries()[found.value].IsDirectory()
            || !InRange(v.fat, v.RootEntries()[found.value].first) ==>
              RemoveDirectory(v, name) == (v.Loaded(v.root), false)
  {
    hide Entries, Find, WithDeleted, Entry.IsDirectory, OnlyDots, FreeChain;
    FindInRange(v.RootEntries(), name, 0);
  }

  /** `fs_rmdir`. */
  method RemoveDir(fs: Volume, path: seq<Byte>) returns (ok: bool)
    requires fs.Valid() && (fs.mounted ==> HeadsInside(fs.State()))
    modifies fs.ramdisk, fs.buffer, fs`mirrored, fs`freeClusters, fs`nextFree
    ensures fs.Valid() && fs.mirrored >= old(fs.mirrored)
    ensures !fs.mounted || path == [] ==>
            !ok && fs.ramdisk[..] == old(fs.ramdisk[..]) && fs.freeClusters == old(fs.freeClusters)
    ensures fs.mounted && path != [] ==>
            Shaped(old(fs.State())) && (fs.State(), ok) == RemoveDirectory(old(fs.State()), NameOf(path))
    ensures fs.mounted && path != [] && old(Inv(fs.State())) ==>
              Inv(fs.State()) && (Abs(fs.State()), ok) == AbsRemoveDirectory(old(Abs(fs.State())), NameOf(path))
  {
    hide FatTable, ClusterTable, Mirrored, Fits, Entries, Inv, Abs, WithDeleted, FreeChain, Shaped, To83, Find;
    hide Volume.State, Volume.Valid, Entry.IsDirectory, Entry.IsLive, OnlyDots;
    if !fs.mounted || path == [] { return false; }
    fs.CountersOfState();
    ghost var v := fs.State();
    if Inv(v) { RemoveDirectoryRefines(v, NameOf(path)); }
    RemoveDirectoryRefuses(v, NameOf(path));
    hide RemoveDirectory;
    LoadRoot(fs);
    var name := Converted(Strip(path));
    var slot := ScanForName(fs, name);
    if slot.None? { return false; }
    FoundInBuffer(v, NameOf(path), slot.value);
    BufferSize(fs);
    var first, isDirectory := EntryFields(fs, slot.value);
    if !isDirectory { return false; }
    if first >= 2 { RemoveDirectoryIs(v, name, slot.value); }
    var read := fs.ReadCluster(first);
    if !read { return false; }
    var empty := ScanForContents(fs);
    if !empty { return false; }
    Discard(fs, slot.value, first);
    return true;
  }

  /** The end of `fs_rmdir`: free the chain, read the root again and strike the entry out. */
  method Discard(fs: Volume, i: nat, first: nat)
    requires fs.Valid() && fs.mounted && i < fs.g.Bpc() / ENTRY_SIZE && first >= 2
    modifies fs.ramdisk, fs.buffer, fs`mirrored, fs`freeClusters, fs`nextFree
    ensures fs.Valid() && fs.mirrored >= old(fs.mirrored) && Shaped(old(fs.State()))
    ensures var v := FreeChain(old(fs.State()), first).Loaded(old(fs.State()).root);
            i < Count(v.buf) && fs.State() == v.(buf := WithDeleted(v.buf, i)).Stored(v.root)
  {
    hide FatTable, ClusterTable, Mirrored, Fits, Entries, WithDeleted, FreeChain, Shaped, Volume.State, Volume.Valid;
    fs.CountersOfState();
    var freed := fs.FreeClusterChain(first);
    LoadRoot(fs);
    StrikeOut(fs, i);
  }

  // ---- rename ----

  ghost predicate MayRename(v: Vol, from: Name, to: Name)
  {
    Inv(v) && (from in Files(v) && to !in Files(v) ==> Storable(to))
  }

  /** `fs_rename`. */
  method Rename(fs: Volume, from: seq<Byte>, to: seq<Byte>) returns (ok: bool)
    requires fs.Valid()
    modifies fs.ramdisk, fs.buffer
    ensures fs.Valid()
    ensures !fs.mounted || from == [] || to == [] ==> !ok && fs.ramdisk[..] == old(fs.ramdisk[..])
    ensures fs.mounted && from != [] && to != [] ==>
              Shaped(old(fs.State())) && (fs.State(), ok) == RenameEntry(old(fs.State()), NameOf(from), NameOf(to))
    ensures fs.mounted && from != [] && to != [] && old(MayRename(fs.State(), NameOf(from), NameOf(to))) ==>
              Inv(fs.State()) && (Abs(fs.State()), ok) == AbsRename(old(Abs(fs.State())), NameOf(from), NameOf(to))
  {
    hide FatTable, ClusterTable, Mirrored, Fits, Entries, Inv, Abs, WithName, Shaped, To83, Find, Volume.State;
    hide Volume.Valid, Entry.IsLive, Files, Storable;
    if !fs.mounted || from == [] || to == [] { return false; }
    fs.CountersOfState();
    ghost var v := fs.State();
    if MayRename(v, NameOf(from), NameOf(to)) { RenameRefines(v, NameOf(from), NameOf(to)); }
    RenameEntryIs(v, NameOf(from), NameOf(to));
    hide RenameEntry;
    var found := Exists(fs, to);
    if found { return false; }
    LoadRoot(fs);
    var name := Converted(Strip(from));
    var slot := ScanForName(fs, name);
    if slot.None? { return false; }
    FoundInBuffer(v, NameOf(from), slot.value);
    BufferSize(fs);
    StoreName(fs, slot.value, Strip(to));
    return true;
  }

  /** A new name over that of entry `i` of the buffer, and the buffer stored as the root cluster. */
  method StoreName(fs: Volume, i: nat, name: seq<Byte>)
    requires fs.Valid() && fs.mounted && i < fs.g.Bpc() / ENTRY_SIZE
    modifies fs.ramdisk, fs.buffer
    ensures fs.Valid() && i < Count(old(fs.State()).buf)
    ensures fs.State() ==
            old(fs.State()).(buf := WithName(old(fs.State()).buf, i, To83(name))).Stored(old(fs.State()).root)
  {
    hide FatTable, ClusterTable, Mirrored, Fits, Entries, Volume.State, Volume.Valid, Splice, To83;
    SlotInside(fs, i);
    fs.PokeName(ENTRY_SIZE * i, name);
    RootInside(fs);
    var stored := fs.WriteCluster(fs.cwd);
  }

  // ---- listing ----

  /** What the callback of `fs_list_directory` gets to see of an entry. */
  datatype Shown = Shown(name: seq<Byte>, isDirectory: bool, size: nat)

  function ShownAs(e: Entry): Shown { Shown(From83(e.name), e.IsDirectory(), e.size) }

  function Printed(es: seq<Entry>): (r: seq<Shown>)
    ensures |r| == |es|
  {
    seq(|es|, (i: nat) requires i < |es| => ShownAs(es[i]))
  }

  predicate HasEnd(es: seq<Entry>, from: nat) { exists i :: from <= i < |es| && es[i].IsEnd() }

  /** The calls made while walking a chain of directory clusters up to the first end mark. */
  function ListChain(data: seq<seq<Byte>>, ch: seq<nat>): seq<Shown>
  {
    if ch == [] || ch[0] >= |data| then []
    else
      var es := Entries(data[ch[0]]);
      Printed(Listing(es, 0)) + if HasEnd(es, 0) then [] else ListChain(data, ch[1..])
  }

  lemma PrintedFront(e: Entry, es: seq<Entry>)
    ensures Printed([e] + es) == [ShownAs(e)] + Printed(es)
  {
  }

  /** The loop of `fs_list_directory` over one cluster, in the buffer. */
  method ListBuffer(fs: Volume) returns (out: seq<Shown>, ended: bool)
    requires fs.Valid() && fs.mounted
    ensures out == Printed(Listing(Entries(fs.State().buf), 0))
    ensures ended == HasEnd(Entries(fs.State().buf), 0)
  {
    hide FatTable, ClusterTable, Mirrored, Fits, Entries, Printed, ShownAs, From83, DecodeEntry, Volume.State;
    hide Volume.Valid;
    BufferSize(fs);
    ghost var es := Entries(fs.State().buf);
    out := [];
    var i: nat := 0;
    while i < fs.g.Bpc() / ENTRY_SIZE
      invariant i <= |es| && Printed(Listing(es, 0)) == out + Printed(Listing(es, i))
      invariant forall k :: 0 <= k < i ==> !es[k].IsEnd()
    {
      BufferEntry(fs, i);
      if fs.buffer[ENTRY_SIZE * i] == 0 {
        PrintedNothing();
        return out, true;
      }
      var e := DecodeEntry(Window(fs.buffer[..], ENTRY_SIZE * i, ENTRY_SIZE));
      if e.name[0] != DELETED && e.attr != ATTR_LONG_NAME && e.attr / 8 % 2 == 0
         && !(e.name[0] == DOT && (e.name[1] == SPACE || (e.name[1] == DOT && e.name[2] == SPACE))) {
        PrintedFront(e, Listing(es, i + 1));
        var name := NameFrom83(e.name);
        out := out + [Shown(name, e.IsDirectory(), e.size)];
        assert [Shown(name, e.IsDirectory(), e.size)] == [ShownAs(e)] by { ShownFields(e); }
      }
      i := i + 1;
    }
    PrintedNothing();
    ended := false;
  }

  lemma ShownFields(e: Entry)
    ensures ShownAs(e) == Shown(From83(e.name), e.IsDirectory(), e.size)
  {
  }

  lemma PrintedNothing()
    ensures Printed([]) == []
  {
  }

  const DOT_PATH: seq<Byte> := [46]

  /** `fs_list_directory`: the calls it makes, in order. The root directory may have several clusters. */
  method ListDirectory(fs: Volume, path: seq<Byte>) returns (ok: bool, out: seq<Shown>)
    requires fs.Valid() && (fs.mounted ==> GoodChain(fs.State().fat, fs.State().root))
    modifies fs.buffer
    ensures fs.Valid() && ok == (fs.mounted && path in {[], DOT_PATH, SLASH}) && (!ok ==> out == [])
    ensures ok ==> out == ListChain(fs.State().data, Chain(fs.State().fat, fs.State().root))
    ensures fs.mounted ==> fs.State() == old(fs.State()).(buf := fs.State().buf)
  {
    hide FatTable, ClusterTable, Mirrored, Fits, Entries, Printed, Listing, ListChain, Shaped, Volume.State;
    hide Volume.Valid, HasEnd;
    out := [];
    if !fs.mounted { return false, []; }
    if path !in {[], DOT_PATH, SLASH} { return false, []; }
    RootInside(fs);
    ghost var v := fs.State();
    ghost var ch := Chain(v.fat, v.root);
    hide Chain;
    assert ch[0..] == ch;
    var cluster: nat := fs.cwd;
    ghost var k: nat := 0;
    while 2 <= cluster < FAT32_EOC
      invariant fs.Valid() && k <= |ch| && fs.State() == v.(buf := fs.State().buf)
      invariant if k < |ch| then cluster == ch[k] else cluster >= FAT32_EOC
      invariant ListChain(v.data, ch) == out + ListChain(v.data, ch[k..])
      decreases |ch| - k
    {
      OnChain(fs, ch, k);
      ListStep(v.data, ch, k);
      var read := fs.ReadCluster(cluster);
      var shown, ended := ListBuffer(fs);
      out := out + shown;
      if ended { return true, out; }
      cluster := fs.GetFat(cluster);
      k := k + 1;
    }
    ListDone(v.data, ch[k..]);
    return true, out;
  }

  lemma ListStep(data: seq<seq<Byte>>, ch: seq<nat>, k: nat)
    requires k < |ch| && ch[k] < |data|
    ensures var es := Entries(data[ch[k]]);
            ListChain(data, ch[k..]) ==
            Printed(Listing(es, 0)) + if HasEnd(es, 0) then [] else ListChain(data, ch[k + 1..])
  {
    hide Entries, Listing, Printed, HasEnd;
    assert ch[k..][1..] == ch[k + 1..];
  }

  lemma ListDone(data: seq<seq<Byte>>, ch: seq<nat>)
    requires ch == []
    ensures ListChain(data, ch) == []
  {
  }

  /** A sound volume's root directory has one cluster, so listing walks that one alone. */
  lemma RootAlone(v: Vol)
    requires Inv(v)
    ensures GoodChain(v.fat, v.root) && Chain(v.fat, v.root) == [v.root] && v.root < |v.data|
    ensures ListChain(v.data, Chain(v.fat, v.root)) == Printed(Listing(v.RootEntries(), 0))
  {
    hide Entries, Printed;
    LoadedInv(v);
    SingletonChain(v.fat, v.root);
    ChainFound(v.fat, [v.root]);
    var l := ListChain(v.data, [v.root][1..]);
    assert l == [];
  }

  lemma OnChain(fs: Volume, ch: seq<nat>, k: nat)
    requires fs.Valid() && fs.mounted && IsChain(fs.State().fat, ch) && k < |ch|
    ensures fs.g.HasCluster(ch[k]) && InRange(fs.State().fat, ch[k]) && ch[k] < |fs.State().data|
    ensures if k + 1 < |ch| then fs.State().fat[ch[k]] == ch[k + 1] else fs.State().fat[ch[k]] >= FAT32_EOC
  {
    hide FatTable, ClusterTable, Mirrored, Fits;
    fs.StateShaped();
  }

  /** `fs_get_file_size`. */
  method GetFileSize(fs: Volume, path: seq<Byte>) returns (size: nat)
    requires fs.Valid()
    modifies fs.buffer
    ensures fs.Valid() && (!fs.mounted ==> size == 0)
    ensures fs.mounted ==> fs.State() == old(fs.State()).Loaded(old(fs.State()).root)
    ensures fs.mounted && old(Inv(fs.State())) ==>
              var files := old(Files(fs.State()));
              size == if NameOf(path) in files then |files[NameOf(path)].bytes| else 0
  {
    hide FatTable, ClusterTable, Mirrored, Fits, Entries, Inv, To83, Catalog, DirOk, Find, Volume.State, Volume.Valid;
    hide FileOf, DecodeEntry;
    if !fs.mounted { return 0; }
    ghost var v := fs.State();
    RootInside(fs);
    BufferSize(fs);
    LoadRoot(fs);
    var name := Converted(Strip(path));
    var slot := ScanForName(fs, name);
    if Inv(v) {
      LoadedInv(v);
      FindIsLookup(v.RootEntries(), NameOf(path));
    }
    if slot.None? { return 0; }
    FoundInBuffer(v, NameOf(path), slot.value);
    BufferSize(fs);
    BufferEntry(fs, slot.value);
    size := SizeField(fs, slot.value);
    if Inv(v) { LiveChain(v, slot.value); }
  }

  method SizeField(fs: Volume, i: nat) returns (size: nat)
    requires fs.Valid() && fs.mounted && i < fs.g.Bpc() / ENTRY_SIZE
    ensures i < |Entries(fs.State().buf)| && size == Entries(fs.State().buf)[i].size
  {
    hide FatTable, ClusterTable, Mirrored, Fits, Entries, Volume.State, Volume.Valid;
    BufferEntry(fs, i);
    WindowOfWindow(fs.buffer[..], ENTRY_SIZE * i, ENTRY_SIZE, 28, 4);
    size := De32(Window(fs.buffer[..], ENTRY_SIZE * i + 28, 4));
  }

  /** Clusters without an end mark are listed one after the other; behind a cluster with an end mark nothing is. */
  lemma {:induction false} ListChainJoins(data: seq<seq<Byte>>, ch: seq<nat>, rest: seq<nat>)
    requires forall k :: 0 <= k < |ch| ==> ch[k] < |data|
    ensures if EndsWithin(data, ch) then ListChain(data, ch + rest) == ListChain(data, ch)
            else ListChain(data, ch + rest) == ListChain(data, ch) + ListChain(data, rest)
    decreases |ch|
  {
    hide Entries, HasEnd, Printed, Listing, EndsWithin;
    if ch == [] {
      assert !EndsWithin(data, ch) by { NoEnd(data); }
      assert ch + rest == rest;
    } else {
      assert (ch + rest)[1..] == ch[1..] + rest && (ch + rest)[0] == ch[0];
      EndsLater(data, ch);
      ListChainJoins(data, ch[1..], rest);
    }
  }

  predicate EndsIn(data: seq<seq<Byte>>, c: nat) { c < |data| && HasEnd(Entries(data[c]), 0) }

  ghost predicate EndsWithin(data: seq<seq<Byte>>, ch: seq<nat>)
  {
    exists k :: 0 <= k < |ch| && EndsIn(data, ch[k])
  }

  lemma NoEnd(data: seq<seq<Byte>>)
    ensures !EndsWithin(data, [])
  {
  }

  lemma EndsLater(data: seq<seq<Byte>>, ch: seq<nat>)
    requires ch != []
    ensures EndsWithin(data, ch) <==> EndsIn(data, ch[0]) || EndsWithin(data, ch[1..])
  {
    hide EndsIn;
    assert forall k :: 0 < k < |ch| ==> ch[k] == ch[1..][k - 1];
    assert forall k :: 0 <= k < |ch| - 1 ==> ch[1..][k] == ch[k + 1];
  }

  lemma ListOne(data: seq<seq<Byte>>, c: nat)
    requires c < |data|
    ensures ListChain(data, [c]) == Printed(Listing(Entries(data[c]), 0))
  {
    assert [c][1..] == [];
  }

  predicate IsListed(e: Entry) { e.IsLive() && !e.IsVolumeLabel() && !e.IsDot() }

  /** What the callback is told on a sound volume: for every file that is neither a label nor a dot entry its printed
      name, whether it is a directory, and how long it is, each exactly once. */
  lemma ListingTells(v: Vol)
    requires Inv(v)
    ensures var l := Listing(v.RootEntries(), 0);
            && |Printed(l)| == |l|
            && (forall k :: 0 <= k < |l| ==>
                  && l[k].name in Files(v)
                  && Printed(l)[k] == Shown(From83(l[k].name), Files(v)[l[k].name].attr / 16 % 2 == 1,
                                            |Files(v)[l[k].name].bytes|))
            && (forall i :: 0 <= i < |v.RootEntries()| && IsListed(v.RootEntries()[i]) ==> v.RootEntries()[i] in l)
  {
    hide Inv, Entries, Vol.RootEntries, Listing, Entry.IsLive, Entry.IsVolumeLabel, Entry.IsDot, From83, FileOf, DirOk;
    LoadedInv(v);
    var es := v.RootEntries();
    var l := Listing(es, 0);
    forall k | 0 <= k < |l|
      ensures l[k].name in Files(v)
      ensures Printed(l)[k] ==
              Shown(From83(l[k].name), Files(v)[l[k].name].attr / 16 % 2 == 1, |Files(v)[l[k].name].bytes|)
    {
      assert l[k] in l;
      ListingFrom(es, 0, l[k]);
      var i :| 0 <= i < |es| && es[i] == l[k] && es[i].IsLive();
      LengthOf(v, i);
    }
    forall i | 0 <= i < |es| && IsListed(es[i])
      ensures es[i] in l
    {
      ListingFrom(es, 0, es[i]);
    }
  }

  lemma LengthOf(v: Vol, i: nat)
    requires Inv(v) && i < |v.RootEntries()| && v.RootEntries()[i].IsLive()
    ensures var e := v.RootEntries()[i];
            e.name in Files(v) && |Files(v)[e.name].bytes| == e.size && Files(v)[e.name].attr == e.attr
  {
    hide Entries, Catalog, DirOk, Partition, Fitting, Counted, Contents, Entry.IsLive, OnlyDots;
    LoadedInv(v);
    LiveChain(v, i);
    CatalogHas(v.RootEntries(), i);
  }
}
