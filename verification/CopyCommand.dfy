/**
 The `cp` command on the driver itself: two handles, one shared buffer. It is the copy of `Copies`.
 */
module CopyCommand {
  import opened Bytes
  import opened FatImage
  import opened Allocator
  import opened Names
  import opened Directory
  import opened VolumeState
  import opened FileContent
  import opened VolumeOps
  import opened AbstractFs
  import opened Refinement
  import opened Writes
  import opened OpenHandles
  import opened Sessions
  import opened Interleaving
  import opened Runs
  import opened Copies
  import opened Driver
  import opened DriverDirectory
  import opened DriverFiles
  import opened Commands

  /** Handles on two files of a sound volume, one to read from and one to write to. */
  ghost predicate Copyable(v: Vol, i: nat, g: Cursor, src: Name, j: nat, h: Cursor, dst: Name)
  {
    Handled(v, i, g, src) && Handled(v, j, h, dst) && src != dst && Capacity(v) + CHUNK < WORD
  }

  lemma CopyableParts(v: Vol, i: nat, g: Cursor, src: Name, j: nat, h: Cursor, dst: Name)
    requires Copyable(v, i, g, src, j, h, dst)
    ensures Shaped(v) && g.off < v.Bpc() && h.off < v.Bpc() && Linked(v.fat) && Standing(v, g)
    ensures g.pos <= g.size && g.size + CHUNK < WORD
  {
    hide Inv, Handled, Shaped, Vol.RootEntries, Linked, Standing, ChainsIn;
    HandledInv(v, i, g, src);
    HandledEntryIs(v, i, g, src);
    HandledEntryIs(v, j, h, dst);
    HandleBelow(v, i, g, src);
    SoundIsLinked(v);
    HandledStands(v, i, g, src);
  }

  lemma HandledStands(v: Vol, i: nat, g: Cursor, src: Name)
    requires Handled(v, i, g, src)
    ensures Standing(v, g)
  {
    var k := HandledPlaced(v, i, g, src);
    PlacedStands(v, Heads(v.RootEntries()), ChainsIn(v), i, g, k);
  }

  /** Reading a chunk keeps both handles in order. */
  lemma CopyableRead(v: Vol, i: nat, g: Cursor, src: Name, j: nat, h: Cursor, dst: Name)
    requires Copyable(v, i, g, src, j, h, dst)
    ensures Shaped(v) && g.off < v.Bpc()
    ensures var (v1, g1, out) := Read(v, g, CHUNK); Copyable(v1, i, g1, src, j, h, dst)
  {
    hide Inv, Handled, Shaped, Vol.RootEntries, Read, MoveDone;
    HandledEntryIs(v, i, g, src);
    MoveRefines(v, i, g, src, ReadMove(CHUNK));
    OtherHandleKept(v, i, g, src, ReadMove(CHUNK), j, h, dst);
    var (v1, g1, out) := Read(v, g, CHUNK);
    MoveParts(v, i, g, src, ReadMove(CHUNK), v1, g1, Reply(out, |out|));
  }

  /** So does writing one. */
  lemma CopyableWrite(v: Vol, i: nat, g: Cursor, src: Name, j: nat, h: Cursor, dst: Name, b: seq<Byte>)
    requires Copyable(v, i, g, src, j, h, dst)
    ensures Shaped(v) && h.off < v.Bpc()
    ensures var (v1, h1, w) := WriteFile(v, h, dst, b); Copyable(v1, i, g, src, j, h1, dst)
  {
    hide Inv, Handled, Shaped, Vol.RootEntries, WriteFile, MoveDone;
    HandledEntryIs(v, j, h, dst);
    MoveRefines(v, j, h, dst, WriteMove(b));
    OtherHandleKept(v, j, h, dst, WriteMove(b), i, g, src);
    var (v1, h1, w) := WriteFile(v, h, dst, b);
    MoveParts(v, j, h, dst, WriteMove(b), v1, h1, Reply([], w));
  }

  /** What is left for the loop to do, after `done` bytes. */
  ghost predicate LoopLeft(v: Vol, g: Cursor, h: Cursor, name: Name, all: (Vol, Cursor, Cursor, nat), done: nat)
  {
    && Shaped(v) && g.off < v.Bpc() && h.off < v.Bpc()
    && var (v', g', h', n) := CopyLoop(v, g, h, name); all == (v', g', h', done + n)
  }

  /** One turn of it. */
  lemma LoopTurn(v: Vol, g: Cursor, h: Cursor, name: Name, all: (Vol, Cursor, Cursor, nat), done: nat)
    requires LoopLeft(v, g, h, name, all, done)
    ensures var (v1, g1, out) := Read(v, g, CHUNK);
            if out == [] then all == (v1, g1, h, done)
            else var (v2, h1, w) := WriteFile(v1, h, name, out);
                 if w != |out| then all == (v2, g1, h1, done + w) else LoopLeft(v2, g1, h1, name, all, done + w)
  {
    hide Read, WriteFile, Shaped;
  }

  /** What the loop does: nothing with a directory, which cannot be read. */
  ghost predicate LoopDid(directory: bool, v: Vol, g: Cursor, h: Cursor, name: Name,
                          v': Vol, g': Cursor, h': Cursor, total: nat)
  {
    if directory then v' == v && total == 0 else LoopLeft(v, g, h, name, (v', g', h', total), 0)
  }

  /** The loop of `cp`, over two open handles. */
  method CopyChunks(fs: Volume, g: FileHandle, h: FileHandle, ghost i: nat, ghost src: Name, ghost j: nat,
                    ghost dst: Name)
      returns (total: nat)
    requires fs.Valid() && fs.mounted && g != h && g.inUse && h.inUse && !h.isDirectory && To83(h.filename) == dst
    requires !g.isDirectory ==> Copyable(fs.State(), i, g.At(), src, j, h.At(), dst)
    modifies fs.ramdisk, fs.buffer, fs`mirrored, fs`freeClusters, fs`nextFree
    modifies g`position, g`clusterOffset, g`currentCluster
    modifies h`position, h`clusterOffset, h`currentCluster, h`firstCluster, h`fileSize
    ensures fs.Valid() && fs.mirrored >= old(fs.mirrored)
    ensures LoopDid(g.isDirectory, old(fs.State()), old(g.At()), old(h.At()), dst, fs.State(), g.At(), h.At(), total)
  {
    hide FatTable, ClusterTable, Mirrored, Fits, Inv, To83, Handled, Copyable, Read, WriteFile, CopyLoop, Shaped;
    hide Linked, Standing, OpenOn, WroteSoundly, Volume.State, Volume.Valid;
    total := 0;
    var buffer := new Byte[CHUNK];
    if g.isDirectory {
      var none := ReadFile(fs, g, buffer, CHUNK);
      return;
    }
    CopyableParts(fs.State(), i, g.At(), src, j, h.At(), dst);
    ghost var all := CopyLoop(fs.State(), g.At(), h.At(), dst);
    while true
      invariant fs.Valid() && fs.mounted && fs.mirrored >= old(fs.mirrored) && fresh(buffer) && buffer.Length == CHUNK
      invariant Copyable(fs.State(), i, g.At(), src, j, h.At(), dst)
      invariant LoopLeft(fs.State(), g.At(), h.At(), dst, all, total)
      decreases g.fileSize - g.position
    {
      ghost var v, gc, hc := fs.State(), g.At(), h.At();
      CopyableParts(v, i, gc, src, j, hc, dst);
      LoopTurn(v, gc, hc, dst, all, total);
      ReadMovesOn(v, gc, CHUNK);
      CopyableRead(v, i, gc, src, j, hc, dst);
      var n := ReadFile(fs, g, buffer, CHUNK);
      if n == 0 { break; }
      ghost var v1 := fs.State();
      ghost var k := CopyableOpen(v1, i, g.At(), src, j, hc, dst);
      CopyableWrite(v1, i, g.At(), src, j, hc, dst, buffer[..n]);
      var w := WriteTo(fs, h, buffer[..n], j, k);
      total := total + w;
      if w != n { break; }
    }
  }

  lemma CopyableOpen(v: Vol, i: nat, g: Cursor, src: Name, j: nat, h: Cursor, dst: Name) returns (k: nat)
    requires Copyable(v, i, g, src, j, h, dst)
    ensures OpenOn(v, h, j, k)
  {
    hide OpenOn, Handled;
    k := HandledOpen(v, j, h, dst);
  }

  /** Two handles are left. */
  ghost predicate TwoFree(hs: seq<FileHandle>)
    reads hs
  {
    exists a, b :: a in hs && b in hs && a != b && !a.inUse && !b.inUse
  }

  /** The two handles once the copy has been created. */
  ghost predicate ReadyToCopy(v: Vol, i: nat, g: Cursor, src: Name, j: nat, c: Opened, dst: Name)
  {
    Copyable(v, i, g, src, j, c.cursor, dst) && To83(c.filename) == dst && c.attr == ATTR_ARCHIVE
  }

  /** Opening the copy succeeded, so it is a new file, and the source's handle is still in order. */
  lemma OpenedCopy(v: Vol, dst: seq<Byte>, i: nat, g: Cursor, src: Name) returns (j: nat)
    requires Handled(v, i, g, src) && NameOf(dst) !in Files(v) && Storable(NameOf(dst)) && src in Files(v)
    requires Capacity(v) + CHUNK < WORD
    ensures Shaped(v)
    ensures var (v2, c) := Open(v, dst, MODE_WRITE); c.Some? ==> ReadyToCopy(v2, i, g, src, j, c.value, NameOf(dst))
  {
    hide Inv, Handled, Open, Entries, Vol.RootEntries, CreateFile, Vacancy, To83, Files, Storable, CopyOpened, Find;
    hide ReadyToCopy;
    j := 0;
    HandledInv(v, i, g, src);
    LoadedInv(v);
    FindIsLookup(v.RootEntries(), NameOf(dst));
    OpenMisses(v, dst, MODE_WRITE);
    NeedsBoth(v, NameOf(dst));
    if v.free > 0 && Vacancy(v.RootEntries(), 0).Some? {
      j := OpenCopy(v, dst, i, g, src);
      var (v2, c) := Open(v, dst, MODE_WRITE);
      OpenedParts(v, i, g, src, v2, c.value, j, NameOf(dst));
    }
  }

  lemma OpenedParts(v: Vol, i: nat, g: Cursor, src: Name, v2: Vol, c: Opened, j: nat, dst: Name)
    requires CopyOpened(v, i, g, src, v2, c, j, dst) && src != dst && Capacity(v) + CHUNK < WORD
    ensures ReadyToCopy(v2, i, g, src, j, c, dst)
  {
    hide Handled, Abs, Files, Gap, To83;
  }

  /** A creation needs a cluster and a slot. */
  lemma NeedsBoth(v: Vol, name: Name)
    requires Inv(v)
    ensures Shaped(v) && (CreateFile(v, name).1 != 0 ==> v.free > 0 && Vacancy(v.RootEntries(), 0).Some?)
  {
    hide Inv, Entries, CreateWith, Vacancy, Catalog, VacantSlots, FileOf, Gap;
    LoadedInv(v);
    LoadedSame(v, v.root);
    if v.free == 0 { CreateWithoutClusters(v.Loaded(v.root), name, ATTR_ARCHIVE); }
    else if Vacancy(v.RootEntries(), 0).None? { CreateRollsBack(v.Loaded(v.root), name, ATTR_ARCHIVE); }
  }

  /** The command's result on the state. */
  ghost predicate CopiedAs(v: Vol, src: seq<Byte>, dst: seq<Byte>, v': Vol, ok: bool, n: nat)
  {
    Shaped(v) && (v', ok, n) == Copy(v, src, dst)
  }

  /** The copy on the state; and if there is something to copy and room for it, the one that `CopyGives` speaks of. */
  ghost predicate CopyOutcome(v: Vol, src: seq<Byte>, dst: seq<Byte>, v': Vol, ok: bool, n: nat)
  {
    && CopiedAs(v, src, dst, v', ok, n)
    && (MayCopy(v, NameOf(src), NameOf(dst)) ==>
          exists j :: CopyDone(v, Files(v)[NameOf(src)].bytes, NameOf(dst), CopyDir(v, src, dst), j, v', ok, n))
  }

  lemma CopiesSoundly(v: Vol, src: seq<Byte>, dst: seq<Byte>, v': Vol, ok: bool, n: nat)
    requires CopiedAs(v, src, dst, v', ok, n)
    ensures CopyOutcome(v, src, dst, v', ok, n)
  {
    hide Inv, Copy, CopyDir, CopyDone, MayCopy, Files, Shaped, To83;
    if MayCopy(v, NameOf(src), NameOf(dst)) { var j := CopyGives(v, src, dst); }
  }

  /** Looking, opening and the loop make up the copy. */
  lemma CopyAssembles(v: Vol, src: seq<Byte>, dst: seq<Byte>, v1: Vol, o: Option<Opened>, v2: Vol, c: Option<Opened>,
                      v3: Vol, g: Cursor, h: Cursor, n: nat)
    requires Shaped(v) && Find(v.RootEntries(), NameOf(src), 0).Some? && Find(v.RootEntries(), NameOf(dst), 0).None?
    requires OpenedAs(v.Loaded(v.root), src, MODE_READ, v1, o)
    requires if o.None? then v3 == v1 && n == 0
             else && OpenedAs(v1, dst, MODE_WRITE, v2, c)
                  && if c.None? then v3 == v2 && n == 0
                     else && To83(c.value.filename) == NameOf(dst)
                          && LoopDid(MarksDirectory(o.value.attr), v2, o.value.cursor, c.value.cursor, NameOf(dst),
                                     v3, g, h, n)
    ensures CopiedAs(v, src, dst, v3, o.Some? && c.Some?, n)
  {
    hide Open, CopyLoop, Find, To83, MarksDirectory, Shaped, Vol.RootEntries;
  }

  /** Opening the source for reading and then the copy for writing leaves both handles in order. */
  ghost predicate OpensBoth(v: Vol, src: seq<Byte>, dst: seq<Byte>, i: nat, j: nat)
  {
    forall v1: Vol, o: Opened, v2: Vol, c: Opened ::
      OpenedAs(v, src, MODE_READ, v1, Some(o)) && OpenedAs(v1, dst, MODE_WRITE, v2, Some(c)) ==>
        BothFine(v2, i, o, NameOf(src), j, c, NameOf(dst))
  }

  ghost predicate BothFine(v2: Vol, i: nat, o: Opened, src: Name, j: nat, c: Opened, dst: Name)
  {
    && To83(c.filename) == dst && !MarksDirectory(c.attr)
    && (!MarksDirectory(o.attr) ==> Copyable(v2, i, o.cursor, src, j, c.cursor, dst))
  }

  lemma BothOpened(v: Vol, src: seq<Byte>, dst: seq<Byte>) returns (i: nat, j: nat)
    requires MayEnter(v, NameOf(dst)) && Capacity(v) + CHUNK < WORD
    requires Find(v.RootEntries(), NameOf(src), 0).Some? && Find(v.RootEntries(), NameOf(dst), 0).None?
    ensures OpensBoth(v, src, dst, i, j)
  {
    hide Inv, Handled, Open, Entries, Vol.RootEntries, CreateFile, To83, Files, Storable, Find, Shaped, BothFine;
    hide AbsFile.IsDirectory, MarksDirectory, ReadyToCopy, Abs;
    j := 0;
    LoadedInv(v);
    FindIsLookup(v.RootEntries(), NameOf(src));
    FindIsLookup(v.RootEntries(), NameOf(dst));
    i := OpenGivesHandle(v, src, MODE_READ);
    var (v1, o) := Open(v, src, MODE_READ);
    OpenFinds(v, src, MODE_READ);
    SourceParts(v, src, v1, o.value, i);
    LoadedEntries(v);
    OpenMisses(v1, dst, MODE_WRITE);
    if !MarksDirectory(o.value.attr) { j := OpenedCopy(v1, dst, i, o.value.cursor, NameOf(src)); }
    var (v2, c) := Open(v1, dst, MODE_WRITE);
    if c.Some? { CopyFine(v2, i, o.value, NameOf(src), j, c.value, NameOf(dst)); }
  }

  lemma SourceParts(v: Vol, src: seq<Byte>, v1: Vol, o: Opened, i: nat)
    requires OpenDone(v, src, MODE_READ, v1, Some(o), i) && NameOf(src) in Files(v)
    ensures Files(v1) == Files(v) && (!MarksDirectory(o.attr) ==> Handled(v1, i, o.cursor, NameOf(src)))
    ensures Capacity(v1) == Capacity(v)
  {
    hide Inv, Handled, Files, MarksDirectory, AbsFile.IsDirectory, To83, VacantSlots, AbsCreate;
    AbsFields(v);
    AbsFields(v1);
  }

  lemma CopyFine(v: Vol, i: nat, o: Opened, src: Name, j: nat, c: Opened, dst: Name)
    requires To83(c.filename) == dst && c.attr == ATTR_ARCHIVE
    requires !MarksDirectory(o.attr) ==> ReadyToCopy(v, i, o.cursor, src, j, c, dst)
    ensures BothFine(v, i, o, src, j, c, dst)
  {
    hide Copyable;
  }

  lemma BothParts(v: Vol, src: seq<Byte>, dst: seq<Byte>, i: nat, j: nat, v1: Vol, o: Opened, v2: Vol, c: Opened)
    requires OpensBoth(v, src, dst, i, j)
    requires OpenedAs(v, src, MODE_READ, v1, Some(o)) && OpenedAs(v1, dst, MODE_WRITE, v2, Some(c))
    ensures To83(c.filename) == NameOf(dst) && !MarksDirectory(c.attr)
    ensures !MarksDirectory(o.attr) ==> Copyable(v2, i, o.cursor, NameOf(src), j, c.cursor, NameOf(dst))
  {
    hide OpenedAs, To83, Copyable, MarksDirectory;
  }

  /** Without a source, or with the copy there already, nothing is copied. */
  lemma CopyRefuses(v: Vol, src: seq<Byte>, dst: seq<Byte>)
    requires Shaped(v)
    requires Find(v.RootEntries(), NameOf(src), 0).None? || Find(v.RootEntries(), NameOf(dst), 0).Some?
    ensures CopiedAs(v, src, dst, v.Loaded(v.root), false, 0)
  {
    hide Find, To83, Open, CopyLoop;
  }

  /** The source is there, and the copy is not. */
  ghost predicate OnlySource(v: Vol, src: seq<Byte>, dst: seq<Byte>)
  {
    Find(v.RootEntries(), NameOf(src), 0).Some? && Find(v.RootEntries(), NameOf(dst), 0).None?
  }

  /** The second half of `cp`: open both, copy, close both. */
  method OpenAndCopy(fs: Volume, src: seq<Byte>, dst: seq<Byte>, ghost v: Vol) returns (ok: bool, n: nat)
    requires fs.Valid() && fs.mounted && MayEnter(v, NameOf(dst)) && OnlySource(v, src, dst) && TwoFree(fs.handles)
    requires Shaped(v) && fs.State() == v.Loaded(v.root)
    modifies fs.ramdisk, fs.buffer, fs`mirrored, fs`freeClusters, fs`nextFree, fs.handles
    ensures fs.Valid() && fs.mirrored >= old(fs.mirrored)
    ensures CopiedAs(v, src, dst, fs.State(), ok, n)
    ensures SameUse(fs.handles)
  {
    hide FatTable, ClusterTable, Mirrored, Fits, Inv, To83, Open, OpenedAs, Shaped, Storable, Ready, Find, Entries;
    hide Volume.State, Volume.Valid, Addressable, Files, Copy, CopiedAs, LoopDid, Copyable, Handled;
    hide MarksDirectory, ReadyToCopy, CopyLoop, Vol.RootEntries, MayEnter, OpensBoth;
    fs.StateAddressable();
    LoadedEntries(v);
    ok, n := false, 0;
    MayOpenLoaded(v, dst);
    ghost var i, j := BothOpened(v.Loaded(v.root), src, dst);
    ghost var nowhere := OpenCursor(0, 0);
    var g, o := OpenFile(fs, src, MODE_READ);
    ghost var v1 := fs.State();
    if g == null {
      CopyAssembles(v, src, dst, v1, None, v1, None, v1, nowhere, nowhere, 0);
      return;
    }
    var h, c := OpenFile(fs, dst, MODE_WRITE);
    ghost var v2 := fs.State();
    if h == null {
      CopyAssembles(v, src, dst, v1, o, v2, None, v2, nowhere, nowhere, 0);
      fs.Close(g);
      return;
    }
    BothParts(v.Loaded(v.root), src, dst, i, j, v1, o.value, v2, c.value);
    n := CopyChunks(fs, g, h, i, NameOf(src), j, NameOf(dst));
    CopyAssembles(v, src, dst, v1, o, v2, c, fs.State(), g.At(), h.At(), n);
    ok := true;
    fs.Close(g);
    fs.Close(h);
  }

  /** `cp`, with files in the root directory. */
  method CopyFile(fs: Volume, src: seq<Byte>, dst: seq<Byte>) returns (ok: bool, n: nat)
    requires fs.Valid() && fs.mounted && MayEnter(fs.State(), NameOf(dst)) && TwoFree(fs.handles)
    modifies fs.ramdisk, fs.buffer, fs`mirrored, fs`freeClusters, fs`nextFree, fs.handles
    ensures fs.Valid() && fs.mirrored >= old(fs.mirrored)
    ensures CopyOutcome(old(fs.State()), src, dst, fs.State(), ok, n)
    ensures SameUse(fs.handles)
  {
    hide FatTable, ClusterTable, Mirrored, Fits, Inv, To83, Shaped, Find, Entries, Volume.State, Volume.Valid, Files;
    hide CopiedAs, CopyOutcome, Vol.RootEntries, MayEnter;
    ghost var v := fs.State();
    MayOpenShaped(v, dst);
    LoadedEntries(v);
    ok, n := false, 0;
    var there := Exists(fs, src);
    if there {
      var taken := Exists(fs, dst);
      if !taken { ok, n := OpenAndCopy(fs, src, dst, v); } else { CopyRefuses(v, src, dst); }
    } else {
      CopyRefuses(v, src, dst);
    }
    CopiesSoundly(v, src, dst, fs.State(), ok, n);
  }

  lemma LoadedEntries(v: Vol)
    requires Shaped(v)
    ensures var w := v.Loaded(v.root);
            && w.RootEntries() == v.RootEntries() && w.root == v.root
            && w.Loaded(v.root) == w && Capacity(w) == Capacity(v)
  {
  }

  lemma MayOpenLoaded(v: Vol, path: seq<Byte>)
    requires MayEnter(v, NameOf(path))
    ensures MayEnter(v.Loaded(v.root), NameOf(path))
  {
    hide Inv, Files, Storable, To83, Entries;
    LoadedInv(v);
    LoadedSame(v, v.root);
  }

  lemma MayOpenShaped(v: Vol, path: seq<Byte>)
    requires MayEnter(v, NameOf(path))
    ensures Shaped(v)
  {
    hide Inv, Files, Storable, To83, Entries;
    LoadedInv(v);
  }

  /** What `cp` does in the other cases: without a source, or with the copy there already, nothing but a look at the
      directory; without room for a new file nothing either; and of a directory it makes an empty file. */
  ghost predicate CopiedNothing(v: Vol, src: Name, dst: Name, v': Vol, ok: bool, n: nat)
  {
    && n == 0
    && if src !in Files(v) || dst in Files(v) then !ok && v' == v.(buf := v'.buf)
       else (Abs(v'), ok) == AbsCreate(Abs(v), dst, 32)
  }

  lemma CopyOtherwise(v: Vol, src: seq<Byte>, dst: seq<Byte>)
    requires MayEnter(v, NameOf(dst)) && Capacity(v) + CHUNK < WORD
    requires NameOf(src) in Files(v) && NameOf(dst) !in Files(v) ==>
               Files(v)[NameOf(src)].IsDirectory() || v.free == 0 || VacantSlots(v.RootEntries()) == {}
    ensures Shaped(v)
    ensures var (v', ok, n) := Copy(v, src, dst); CopiedNothing(v, NameOf(src), NameOf(dst), v', ok, n)
  {
    hide Inv, Open, CopyLoop, Files, To83, Abs, Storable, Find, Entries, Vol.RootEntries, VacantSlots, Shaped;
    hide AbsFile.IsDirectory, MarksDirectory, AbsCreate;
    LoadedInv(v);
    LoadedSame(v, v.root);
    FindIsLookup(v.RootEntries(), NameOf(src));
    FindIsLookup(v.RootEntries(), NameOf(dst));
    if NameOf(src) !in Files(v) || NameOf(dst) in Files(v) {
      CopyRefuses(v, src, dst);
    } else {
      CopyOpens(v, src, dst);
    }
  }

  lemma CopyOpens(v: Vol, src: seq<Byte>, dst: seq<Byte>)
    requires MayEnter(v, NameOf(dst)) && Capacity(v) + CHUNK < WORD
    requires NameOf(src) in Files(v) && NameOf(dst) !in Files(v)
    requires Files(v)[NameOf(src)].IsDirectory() || v.free == 0 || VacantSlots(v.RootEntries()) == {}
    requires Find(v.RootEntries(), NameOf(src), 0).Some? && Find(v.RootEntries(), NameOf(dst), 0).None?
    ensures Shaped(v)
    ensures var (v', ok, n) := Copy(v, src, dst); (Abs(v'), ok) == AbsCreate(Abs(v), NameOf(dst), 32) && n == 0
  {
    hide Inv, Open, CopyLoop, Files, To83, Abs, Storable, Find, Entries, Vol.RootEntries, VacantSlots, Shaped;
    hide AbsFile.IsDirectory, MarksDirectory, Handled;
    LoadedInv(v);
    LoadedSame(v, v.root);
    LoadedEntries(v);
    var v0 := v.Loaded(v.root);
    var i := OpenGivesHandle(v0, src, MODE_READ);
    var (v1, o) := Open(v0, src, MODE_READ);
    OpenFinds(v0, src, MODE_READ);
    SourceParts(v0, src, v1, o.value, i);
    AbsFields(v);
    AbsFields(v0);
    AbsFields(v1);
    var j := OpenGivesHandle(v1, dst, MODE_WRITE);
    SlotsOf(v);
  }
}
