/**
 `fs_write` as a whole, on the abstract file system: overlaying bytes on one file.
 */
module Writes {
  import opened Bytes
  import opened FatImage
  import opened Chains
  import opened Allocator
  import opened Directory
  import opened VolumeState
  import opened FileContent
  import opened FileWrite
  import opened VolumeOps
  import opened AbstractFs
  import opened Refinement
  import opened Edits

  /** `b` laid over `f` from position `pos` on; what lies behind it stays. */
  function Overlay(f: seq<Byte>, pos: nat, b: seq<Byte>): (r: seq<Byte>)
    requires pos <= |f|
    ensures |r| == Max(|f|, pos + |b|)
  {
    f[..pos] + b + (if pos + |b| < |f| then f[pos + |b|..] else [])
  }

  /** How many bytes of `size` a write at `pos` can take. */
  function Accepted(a: AbsFs, f: AbsFile, pos: nat, size: nat): (w: nat)
    ensures w <= size
  {
    var room := (f.clusters + a.free) * a.bpc - pos;
    if size <= room then size else if room < 0 then 0 else room
  }

  /** The clusters a file needs to hold `n` bytes, never fewer than it has. */
  function Clusters(has: nat, n: nat, bpc: nat): nat
    requires bpc > 0
  {
    if n <= has * bpc then has else (n + bpc - 1) / bpc
  }

  /** File `n` with new contents, on as many clusters as `size` bytes need. */
  function Settled(a: AbsFs, n: Name, bytes: seq<Byte>, size: nat): AbsFs
    requires n in a.files && a.bpc > 0
  {
    var f := a.files[n];
    var c := Clusters(f.clusters, size, a.bpc);
    a.(files := a.files[n := f.(bytes := bytes, clusters := c)],
       free := if f.clusters + a.free >= c then f.clusters + a.free - c else 0)
  }

  lemma SettledIff(a: AbsFs, n: Name, x: seq<Byte>, y: seq<Byte>, size: nat)
    requires n in a.files && a.bpc > 0
    ensures Settled(a, n, x, size) == Settled(a, n, y, size) <==> x == y
  {
    hide Clusters;
    assert Settled(a, n, x, size).files[n].bytes == x && Settled(a, n, y, size).files[n].bytes == y;
  }

  /** The write as it should be. */
  function AbsWrite(a: AbsFs, n: Name, pos: nat, b: seq<Byte>): (r: (AbsFs, nat))
    requires n in a.files && pos <= |a.files[n].bytes| && a.bpc > 0
    ensures r.1 <= |b| && r.0.bpc == a.bpc && n in r.0.files && |r.0.files[n].bytes| >= pos + r.1
    ensures |r.0.files[n].bytes| == Max(|a.files[n].bytes|, pos + r.1) && r.0.files[n].attr == a.files[n].attr
  {
    var w := Accepted(a, a.files[n], pos, |b|);
    (Settled(a, n, Overlay(a.files[n].bytes, pos, b[..w]), pos + w), w)
  }

  /** File sizes stay below 2^32. */
  predicate Addressable(v: Vol) { Capacity(v) < WORD }

  /** No file is larger than this. */
  function Capacity(v: Vol): nat { |v.fat| * v.Bpc() }

  lemma CeilIs(m: nat, n: nat, x: nat)
    requires n > 0 && m > 0 && (m - 1) * n < x <= m * n
    ensures (x + n - 1) / n == m
  {
    var y := x + n - 1 - m * n;
    assert 0 <= y < n;
    assert (m * n + y) / n == m by { DivUnique(m, n, y); }
  }

  lemma DivUnique(m: nat, n: nat, y: nat)
    requires y < n
    ensures (m * n + y) / n == m
  {
    var q := (m * n + y) / n;
    assert q * n <= m * n + y < q * n + n;
    if q < m { MulMono(q + 1, m, n); }
    if q > m { MulMono(m + 1, q, n); }
  }

  /** The files laid over one another, cut to their sizes. */
  lemma OverlaidContents(f: seq<Byte>, f': seq<Byte>, pos: nat, b: seq<Byte>, w: nat, size: nat)
    requires Overlaid(f, f', pos, b, w) && pos <= size <= |f|
    ensures f'[..Max(size, pos + w)] == Overlay(f[..size], pos, b[..w])
  {
  }

  /** Live file `i` of a sound volume is open at a cursor in block `k`, with a usable buffer. */
  ghost predicate OpenAt(v: Vol, i: nat, h: Cursor, k: nat)
  {
    && Inv(v) && i < |v.RootEntries()| && v.RootEntries()[i].IsLive() && v.RootEntries()[i].first == h.first
    && CursorAt(ChainsIn(v)[i], v.Bpc(), h, k) && h.pos <= h.size && Coherent(v, h)
  }

  /** The loop has written `w` bytes of `b` to file `i`, leaving the volume sound, the directory alone and
      the other files as they were. */
  ghost predicate LoopDone(v: Vol, i: nat, h: Cursor, b: seq<Byte>, v1: Vol, h1: Cursor, w: nat)
  {
    && Inv(v1) && v1.RootEntries() == v.RootEntries() && OthersSame(v, v1, i)
    && Written(v, ChainsIn(v), i, h, b, v1, ChainsIn(v1), h1, w)
    && var room := Room(v, ChainsIn(v)[i], h); 0 <= room && w == Min(|b|, room)
  }

  lemma LoopFits(v: Vol, v1: Vol, i: nat, h: Cursor, b: seq<Byte>, chains': seq<seq<nat>>, h1: Cursor, w: nat)
    requires Inv(v) && Written(v, ChainsIn(v), i, h, b, v1, chains', h1, w)
    ensures |chains'| == |v.RootEntries()| && Fitting(v.RootEntries(), chains', v1.Bpc())
  {
    var es, chains := v.RootEntries(), ChainsIn(v);
    hide Entries, Flat, DirOk, Counted, Overlaid, Gap, Partition, ChainsOf, Heads, Entry.IsLive;
    assert Fitting(es, chains, v.Bpc());
    forall j | 0 <= j < |es| && es[j].IsLive()
      ensures es[j].size <= |chains'[j]| * v.Bpc()
    {
      if j == i { MulMono(|chains[i]|, |chains'[i]|, v.Bpc()); }
    }
  }

  lemma LoopKeepsData(v: Vol, v1: Vol, i: nat, h: Cursor, b: seq<Byte>, chains': seq<seq<nat>>, h1: Cursor, w: nat)
    requires Inv(v) && Written(v, ChainsIn(v), i, h, b, v1, chains', h1, w)
    requires Partition(v1.root, Heads(v.RootEntries()), v1.fat, chains') && |v1.fat| == |v.fat|
    ensures DataKept(v.data, v1.data, ChainsIn(v), i) && v1.RootEntries() == v.RootEntries()
  {
    hide Inv, Entries, Flat, Overlaid, Gap, ChainsIn, Heads, Uniform;
    var es, chains := v.RootEntries(), ChainsIn(v);
    LoadedInv(v);
    PartitionInUse(v1.root, Heads(es), v1.fat, chains');
    RootApart(v1.root, Heads(es), v1.fat, chains', i);
    InvParts(v);
    PartitionInUse(v.root, Heads(es), v.fat, chains);
    PartitionLength(v.root, Heads(es), v.fat, chains);
    PartitionLength(v1.root, Heads(es), v1.fat, chains');
    hide Partition, DirOk, Counted, Fitting;
    forall j: nat, c: nat {:trigger c in chains[j]} | j < |chains| && j != i && c in chains[j]
      ensures c < |v.data| && c < |v1.data| && v1.data[c] == v.data[c]
    {
      assert c in chains'[j];
    }
  }

  lemma PartitionLength(root: nat, heads: seq<Option<nat>>, fat: seq<nat>, chains: seq<seq<nat>>)
    requires Partition(root, heads, fat, chains)
    ensures InRange(fat, root)
    ensures forall j, k, c :: 0 <= j < |chains| && 0 <= k < |chains| && j != k && c in chains[j] ==> c !in chains[k]
  {
  }

  lemma RootApart(root: nat, heads: seq<Option<nat>>, fat: seq<nat>, chains: seq<seq<nat>>, i: nat)
    requires Partition(root, heads, fat, chains) && i < |chains|
    ensures root !in chains[i]
  {
    assert Heading(root, heads[i], fat, chains[i]);
  }

  /** The loop alone keeps the volume sound and the other files as they were. */
  lemma LoopInv(v: Vol, v1: Vol, i: nat, h: Cursor, b: seq<Byte>, chains': seq<seq<nat>>, h1: Cursor, w: nat, k': nat)
    requires Inv(v) && Written(v, ChainsIn(v), i, h, b, v1, chains', h1, w)
    requires Writing(v1, Heads(v.RootEntries()), chains', i, h1, k')
    ensures Inv(v1) && v1.RootEntries() == v.RootEntries() && ChainsIn(v1) == chains' && OthersSame(v, v1, i)
  {
    hide Entries, Flat, Overlaid, Gap, DataKept, Partition, Fitting, Counted, DirOk, ChainsOf, Heads, FileOf, CursorAt;
    hide OthersSame;
    LoopFits(v, v1, i, h, b, chains', h1, w);
    LoopKeepsData(v, v1, i, h, b, chains', h1, w);
    InvFrom(v1, chains');
    OthersUnchanged(v, v1, i);
  }

  lemma OpenIsWriting(v: Vol, i: nat, h: Cursor, k: nat)
    requires OpenAt(v, i, h, k)
    ensures Shaped(v) && h.off < v.Bpc() && Writing(v, Heads(v.RootEntries()), ChainsIn(v), i, h, k)
  {
    LiveChain(v, i);
  }

  /** The write loop on a live file of a sound volume. */
  lemma LoopKeepsInv(v: Vol, i: nat, h: Cursor, k: nat, b: seq<Byte>) returns (k': nat)
    requires OpenAt(v, i, h, k) && Shaped(v) && h.off < v.Bpc()
    ensures var (v1, h1, w) := WriteLoop(v, h, b);
            LoopDone(v, i, h, b, v1, h1, w) && OpenAt(v1, i, h1, k')
  {
    var heads, chains := Heads(v.RootEntries()), ChainsIn(v);
    OpenIsWriting(v, i, h, k);
    hide WriteLoop, Inv, Written, Writing, Heads, FileOf, Room, CursorAt, Coherent, OthersSame, Shaped, Entries;
    var chains', k1 := WritingOverlays(v, heads, chains, i, h, k, b);
    var (v1, h1, w) := WriteLoop(v, h, b);
    LoopInv(v, v1, i, h, b, chains', h1, w, k1);
    k' := k1;
    WritingIsOpen(v1, i, h1, k1);
  }

  lemma WritingIsOpen(v: Vol, i: nat, h: Cursor, k: nat)
    requires Inv(v) && Writing(v, Heads(v.RootEntries()), ChainsIn(v), i, h, k)
    ensures OpenAt(v, i, h, k)
  {
  }

  // ---- the size update ----

  lemma UpdateSizeIs(v: Vol, i: nat, size: nat)
    requires Inv(v) && i < |v.RootEntries()| && v.RootEntries()[i].IsLive() && size < WORD
    ensures Shaped(v) && i < Count(v.data[v.root])
    ensures UpdateSize(v, v.RootEntries()[i].name, size) ==
            v.Loaded(v.root).(buf := WithSize(v.data[v.root], i, size)).Stored(v.root)
  {
    hide Inv, Entries, Find, WithSize, DirOk, Entry.IsLive;
    LoadedInv(v);
    FindsLive(v.RootEntries(), i);
    FindInRange(v.RootEntries(), v.RootEntries()[i].name, 0);
  }

  lemma SizeEffect(v: Vol, i: nat, size: nat)
    requires Inv(v) && i < |v.RootEntries()| && v.RootEntries()[i].IsLive() && size < WORD
    ensures Shaped(v)
    ensures Retitled(v, UpdateSize(v, v.RootEntries()[i].name, size), i, v.RootEntries()[i].(size := size))
  {
    hide Inv, Entries, WithSize, UpdateSize;
    LoadedInv(v);
    UpdateSizeIs(v, i, size);
    SizeRefines(v.data[v.root], i, size);
  }

  /** The size update changes what the file shows, to the new size's worth of its clusters, and nothing else. */
  lemma SizeUpdateRefines(v: Vol, i: nat, size: nat)
    requires Inv(v) && i < |v.RootEntries()| && v.RootEntries()[i].IsLive() && size < WORD
    requires size <= |ChainsIn(v)[i]| * v.Bpc()
    ensures Shaped(v)
    ensures var e := v.RootEntries()[i].(size := size); var v' := UpdateSize(v, e.name, size);
            && Inv(v') && ChainsIn(v') == ChainsIn(v) && v'.RootEntries() == v.RootEntries()[i := e]
            && Catalog(v'.RootEntries()) == Catalog(v.RootEntries())[e.name := e]
            && OthersSame(v, v', i) && VacantSlots(v'.RootEntries()) == VacantSlots(v.RootEntries())
            && v'.PoolOf() == v.PoolOf() && v'.Bpc() == v.Bpc()
            && FileOf(v', e) == FileOf(v, v.RootEntries()[i]).(bytes := Contents(v, ChainsIn(v)[i], size))
  {
    hide Inv, Entries, DirOk, Catalog, UpdateSize, FileOf, OthersSame, ChainsIn, VacantSlots, Entry.IsLive, Shaped;
    LoadedInv(v);
    var e := v.RootEntries()[i].(size := size);
    SizeEffect(v, i, size);
    var v' := UpdateSize(v, e.name, size);
    IsLiveResized(v.RootEntries()[i], size);
    ResizeIsUpdate(v.RootEntries(), i, e);
    RetitledInv(v, v', i, e);
    ResizedFile(v, v', i, e);
  }

  lemma IsLiveResized(e: Entry, size: nat)
    ensures e.(size := size).IsLive() == e.IsLive()
  {
  }

  lemma ResizedFile(v: Vol, v': Vol, i: nat, e: Entry)
    requires Inv(v) && Inv(v') && Retitled(v, v', i, e) && e == v.RootEntries()[i].(size := e.size)
             && ChainsIn(v') == ChainsIn(v)
    ensures FileOf(v', e) == FileOf(v, v.RootEntries()[i]).(bytes := Contents(v, ChainsIn(v)[i], e.size))
  {
    hide Inv, Entries, ChainsIn, OnlyDots;
    LiveChain(v, i);
    LiveChain(v', i);
    var ch := ChainsIn(v)[i];
    forall k | 0 <= k < |ch|
      ensures ch[k] < |v.data| && ch[k] < |v'.data| && v'.data[ch[k]] == v.data[ch[k]]
    {
      assert ch[k] in ch;
    }
    FlatFrame(v.data, v'.data, ch);
    assert e.first == ch[0];
  }

  // ---- fs_write ----

  lemma ClustersAre(has: nat, got: nat, n: nat, bpc: nat)
    requires bpc > 0 && has <= got && n <= got * bpc && (got > has ==> got * bpc < n + bpc)
    ensures Clusters(has, n, bpc) == got
  {
    if n <= has * bpc {
      if got > has { MulMono(has + 1, got, bpc); }
    } else {
      assert got > has by { if got == has { assert false; } }
      CeilIs(got, bpc, n);
    }
  }

  /** What `Written` says about the file's contents. */
  lemma WrittenContents(v: Vol, ch: seq<nat>, size: nat, pos: nat, b: seq<Byte>, v1: Vol, ch1: seq<nat>, w: nat)
    requires Uniform(v.data, ch, v.Bpc()) && Uniform(v1.data, ch1, v.Bpc()) && v1.Bpc() == v.Bpc()
    requires pos <= size <= |ch| * v.Bpc() && Overlaid(Flat(v.data, ch), Flat(v1.data, ch1), pos, b, w)
    ensures pos <= |Contents(v, ch, size)| && w <= |b| && pos + w <= |ch1| * v.Bpc() && size <= |ch1| * v.Bpc()
    ensures Contents(v1, ch1, Max(size, pos + w)) == Overlay(Contents(v, ch, size), pos, b[..w])
  {
    FlatLength(v.data, ch, v.Bpc());
    FlatLength(v1.data, ch1, v.Bpc());
    hide Flat;
    OverlaidContents(Flat(v.data, ch), Flat(v1.data, ch1), pos, b, w, size);
  }

  lemma RoomIsAccepted(has: nat, free: nat, bpc: nat, pos: nat, size: nat, a: AbsFs, f: AbsFile)
    requires f.clusters == has && a.free == free && a.bpc == bpc && 0 <= has * bpc - pos + free * bpc
    ensures Accepted(a, f, pos, size) == Min(size, has * bpc - pos + free * bpc)
  {
    assert (has + free) * bpc == has * bpc + free * bpc;
  }

  /** What the loop does to the file, in terms of the abstract write. */
  lemma WrittenFile(v: Vol, i: nat, h: Cursor, b: seq<Byte>, v1: Vol, h1: Cursor, w: nat)
    requires Inv(v) && i < |v.RootEntries()| && v.RootEntries()[i].IsLive() && v.RootEntries()[i].size == h.size
    requires h.pos <= h.size && LoopDone(v, i, h, b, v1, h1, w)
    ensures var f := FileOf(v, v.RootEntries()[i]);
            && h.pos <= |f.bytes| && w <= |b| && w == Accepted(Abs(v), f, h.pos, |b|)
            && h1.size <= |ChainsIn(v1)[i]| * v.Bpc()
            && Contents(v1, ChainsIn(v1)[i], h1.size) == Overlay(f.bytes, h.pos, b[..w])
            && |ChainsIn(v1)[i]| == Clusters(f.clusters, h.pos + w, v.Bpc())
            && v1.free == f.clusters + v.free - |ChainsIn(v1)[i]|
  {
    hide Inv, Entries, ChainsIn, Gap, Files, Flat, VacantSlots, Overlaid, Contents, Overlay, Clusters, Accepted, FileOf;
    hide Uniform, Vol.RootEntries, OthersSame, DataKept;
    LoadedInv(v);
    LiveChain(v, i);
    hide Shaped;
    var ch, ch1 := ChainsIn(v)[i], ChainsIn(v1)[i];
    WrittenContents(v, ch, h.size, h.pos, b, v1, ch1, w);
    ClustersAre(|ch|, |ch1|, h.pos + w, v.Bpc());
    RoomIsAccepted(|ch|, v.free, v.Bpc(), h.pos, |b|, Abs(v), FileOf(v, v.RootEntries()[i]));
  }

  lemma ChainIsAddressable(v: Vol, i: nat, size: nat)
    requires Inv(v) && Addressable(v) && i < |v.RootEntries()| && v.RootEntries()[i].IsLive()
    requires size <= |ChainsIn(v)[i]| * v.Bpc()
    ensures size < WORD
  {
    LiveChain(v, i);
    ChainIsShort(v.fat, ChainsIn(v)[i]);
    MulMono(|ChainsIn(v)[i]|, |v.fat|, v.Bpc());
  }

  lemma WrittenSameSize(v: Vol, i: nat, h: Cursor, b: seq<Byte>, v1: Vol, h1: Cursor, w: nat)
    requires Inv(v) && LoopDone(v, i, h, b, v1, h1, w)
    ensures v1.Bpc() == v.Bpc() && |v1.fat| == |v.fat| && Shaped(v1)
  {
    LoadedInv(v1);
    LoadedInv(v);
  }

  lemma OthersSameTrans(v: Vol, v1: Vol, v2: Vol, i: nat)
    requires OthersSame(v, v1, i) && OthersSame(v1, v2, i) && v1.RootEntries() == v.RootEntries()
    ensures OthersSame(v, v2, i)
  {
    hide FileOf, Entry.IsLive, Entries;
    forall j: nat | j < |v.RootEntries()| && j != i && v.RootEntries()[j].IsLive()
      ensures FileOf(v2, v.RootEntries()[j]) == FileOf(v, v.RootEntries()[j])
    {
      assert FileOf(v1, v.RootEntries()[j]) == FileOf(v, v.RootEntries()[j]);
    }
  }

  lemma FileFields(v: Vol, e: Entry)
    requires !e.IsDirectory()
    ensures FileOf(v, e) == AbsFile(e.attr, FileOf(v, e).bytes, FileOf(v, e).clusters, false)
  {
  }

  lemma HandleAfter(v1: Vol, v': Vol, i: nat, h1: Cursor, k': nat)
    requires OpenAt(v1, i, h1, k') && v'.PoolOf() == v1.PoolOf() && v'.Bpc() == v1.Bpc()
    requires h1.size <= |ChainsIn(v1)[i]| * v1.Bpc()
    ensures HandleOk(v', ChainsIn(v1)[i], h1)
  {
    LiveChain(v1, i);
    assert v'.fat == v1.PoolOf().fat;
    hide Inv, Entries, ChainsIn;
    assert CursorAt(ChainsIn(v1)[i], v'.Bpc(), h1, k');
  }

  /** The file the handle is open on. */
  ghost predicate WritableAt(v: Vol, i: nat, h: Cursor, k: nat)
  {
    OpenAt(v, i, h, k) && h.size == v.RootEntries()[i].size && !v.RootEntries()[i].IsDirectory() && Addressable(v)
  }

  /** The loop's result with the size update: the map of files. */
  ghost predicate FilesWritten(v: Vol, v1: Vol, i: nat, h: Cursor, b: seq<Byte>, v': Vol, w: nat)
  {
    && i < |v.RootEntries()| && i < |v1.RootEntries()| && w <= |b|
    && var name := v.RootEntries()[i].name;
    && name in Files(v) && var f := Files(v)[name];
    && h.pos <= |f.bytes| && w == Accepted(Abs(v), f, h.pos, |b|)
    && Inv(v') && ChainsIn(v') == ChainsIn(v1) && v'.PoolOf() == v1.PoolOf() && v'.Bpc() == v1.Bpc() == v.Bpc()
    && v.Bpc() > 0
    && Abs(v').slots == Abs(v).slots
    && Files(v') == Files(v)[name := f.(bytes := Overlay(f.bytes, h.pos, b[..w]), clusters := |ChainsIn(v1)[i]|)]
    && |ChainsIn(v1)[i]| == Clusters(f.clusters, h.pos + w, v.Bpc())
    && v1.free == f.clusters + v.free - |ChainsIn(v1)[i]|
  }

  /** The map of files after the size update, from the one before the loop. */
  lemma FilesAfterUpdate(v: Vol, v1: Vol, v': Vol, i: nat, e: Entry)
    requires Inv(v) && Inv(v1) && Inv(v') && i < |v.RootEntries()| && v.RootEntries()[i].IsLive()
             && v.RootEntries()[i].name == e.name
    requires v1.RootEntries() == v.RootEntries() && OthersSame(v, v1, i) && OthersSame(v1, v', i)
    requires Catalog(v'.RootEntries()) == Catalog(v.RootEntries())[e.name := e]
    ensures e.name in Files(v) && Files(v)[e.name] == FileOf(v, v.RootEntries()[i])
    ensures Files(v') == Files(v)[e.name := FileOf(v', e)]
  {
    hide Inv, Entries, DirOk, Catalog, FileOf, Entry.IsLive, OthersSame, Shaped, Vol.RootEntries;
    LoadedInv(v);
    LoadedInv(v');
    CatalogHas(v.RootEntries(), i);
    OthersSameTrans(v, v1, v', i);
    FilesFollow(v, v', i, {}, map[e.name := e]);
  }

  lemma WriteFiles(v: Vol, i: nat, h: Cursor, k: nat, b: seq<Byte>, v1: Vol, h1: Cursor, w: nat)
    requires WritableAt(v, i, h, k) && LoopDone(v, i, h, b, v1, h1, w) && Shaped(v1)
    requires h1.size < WORD && h1.size <= |ChainsIn(v1)[i]| * v1.Bpc()
    ensures FilesWritten(v, v1, i, h, b, UpdateSize(v1, v.RootEntries()[i].name, h1.size), w)
  {
    hide Inv, Entries, DirOk, Catalog, FileOf, ChainsIn, VacantSlots, Entry.IsLive, Entry.IsDirectory, CursorAt;
    hide Coherent, UpdateSize, Shaped, OthersSame, Overlay, Written, Room, Accepted, Clusters, Contents;
    hide Vol.RootEntries, Addressable, Files;
    WrittenFile(v, i, h, b, v1, h1, w);
    WrittenSameSize(v, i, h, b, v1, h1, w);
    SizeUpdateRefines(v1, i, h1.size);
    var e := v.RootEntries()[i].(size := h1.size);
    var v' := UpdateSize(v1, e.name, h1.size);
    FilesAfterUpdate(v, v1, v', i, e);
    LoadedInv(v);
    LiveChain(v1, i);
    FileFields(v, v.RootEntries()[i]);
    FileFields(v1, v.RootEntries()[i]);
    assert FileOf(v', e) == Files(v)[e.name].(bytes := Overlay(Files(v)[e.name].bytes, h.pos, b[..w]),
        clusters := |ChainsIn(v1)[i]|);
  }

  lemma FilesWrittenIsWrite(v: Vol, v1: Vol, i: nat, h: Cursor, b: seq<Byte>, v': Vol, w: nat)
    requires FilesWritten(v, v1, i, h, b, v', w)
    ensures (Abs(v'), w) == AbsWrite(Abs(v), v.RootEntries()[i].name, h.pos, b)
  {
    hide Inv, Entries, ChainsIn, VacantSlots, Overlay, Accepted, Clusters, Files;
    assert v'.free == v1.PoolOf().free;
  }

  /** A write with the current cluster in the buffer: the volume stays sound, the file becomes its old contents
      with the accepted bytes laid over them at the cursor, every other file is untouched, and the number returned
      is what fits. */
  lemma WritableRefines(v: Vol, i: nat, h: Cursor, k: nat, b: seq<Byte>)
    requires WritableAt(v, i, h, k)
    ensures Shaped(v) && h.off < v.Bpc() && i < |v.RootEntries()|
    ensures var name := v.RootEntries()[i].name;
            && name in Files(v) && h.pos <= |Files(v)[name].bytes|
            && var (v', h', w) := WriteFile(v, h, name, b);
               && Inv(v') && (Abs(v'), w) == AbsWrite(Abs(v), name, h.pos, b)
               && HandleOk(v', ChainsIn(v')[i], h') && h'.pos == h.pos + w
               && Gap(v'.PoolOf()) == Gap(v.PoolOf()) && |v'.fat| == |v.fat|
  {
    OpenIsWriting(v, i, h, k);
    var name := v.RootEntries()[i].name;
    hide Inv, Entries, FileOf, ChainsIn, Entry.IsLive, Entry.IsDirectory, CursorAt, Coherent, Writing, UpdateSize;
    hide WriteLoop, Shaped, Gap, OthersSame, Overlay, HandleOk, Abs, AbsWrite, Files, Overlaid, Flat, Uniform, Room;
    var k' := LoopKeepsInv(v, i, h, k, b);
    var (v1, h1, w) := WriteLoop(v, h, b);
    WrittenFile(v, i, h, b, v1, h1, w);
    WrittenSameSize(v, i, h, b, v1, h1, w);
    ChainIsAddressable(v1, i, h1.size);
    WriteFiles(v, i, h, k, b, v1, h1, w);
    var v' := UpdateSize(v1, name, h1.size);
    FilesWrittenIsWrite(v, v1, i, h, b, v', w);
    HandleAfter(v1, v', i, h1, k');
    assert v'.fat == v1.PoolOf().fat;
  }

  lemma LoopChains(v: Vol, i: nat, h: Cursor, b: seq<Byte>, v1: Vol, h1: Cursor, w: nat)
    requires LoopDone(v, i, h, b, v1, h1, w)
    ensures i < |ChainsIn(v1)| && i < |ChainsIn(v)| && ChainsIn(v1) == ChainsIn(v)[i := ChainsIn(v1)[i]]
    ensures v1.RootEntries() == v.RootEntries() && h1.first == h.first && Inv(v1)
  {
    hide Inv, Entries, Vol.RootEntries, OthersSame, Overlaid, Flat, Uniform, Room, ChainsIn, Gap;
  }

  /** The directory and the chains after the write: the entry has the new size, and only its chain may be longer. */
  lemma WritableEntry(v: Vol, i: nat, h: Cursor, k: nat, b: seq<Byte>)
    requires WritableAt(v, i, h, k)
    ensures Shaped(v) && h.off < v.Bpc() && i < |v.RootEntries()|
    ensures var (v', h', w) := WriteFile(v, h, v.RootEntries()[i].name, b);
            && v'.RootEntries() == v.RootEntries()[i := v.RootEntries()[i].(size := h'.size)] && h'.first == h.first
            && ChainsIn(v') == ChainsIn(v)[i := ChainsIn(v')[i]]
  {
    OpenIsWriting(v, i, h, k);
    hide Inv, Entries, ChainsIn, Entry.IsLive, Entry.IsDirectory, CursorAt, Coherent, UpdateSize, WriteLoop, Shaped;
    hide OthersSame, Overlay, Flat, Uniform, Room, Writing, FileOf, Abs, Files, LoopDone, Vol.RootEntries, Written;
    var k' := LoopKeepsInv(v, i, h, k, b);
    var (v1, h1, w) := WriteLoop(v, h, b);
    LoopChains(v, i, h, b, v1, h1, w);
    WrittenFile(v, i, h, b, v1, h1, w);
    WrittenSameSize(v, i, h, b, v1, h1, w);
    ChainIsAddressable(v1, i, h1.size);
    SizeUpdateRefines(v1, i, h1.size);
  }
}
