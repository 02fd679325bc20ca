/**
 Open files. A handle is open on a file of a sound volume; the shared buffer may hold anything. `WriteRefines` says
 what `fs_write` then does, on the file system as the handle sees it: inside a cluster the buffer stands in for that
 cluster.
 */
module OpenHandles {
  import opened Bytes
  import opened Chains
  import opened Allocator
  import opened Directory
  import opened VolumeState
  import opened FileContent
  import opened FileWrite
  import opened VolumeOps
  import opened AbstractFs
  import opened Refinement
  import opened Writes

  // ---- the file system as a handle sees it ----

  /** Where the cluster starts that holds position `pos`. */
  function BlockStart(pos: nat, bpc: nat): (at: nat)
    requires bpc > 0
    ensures at <= pos < at + bpc
  {
    pos - pos % bpc
  }

  /** The file as a cursor at `pos` sees it: inside a cluster, the part of `f` in that cluster is what `buf` says. */
  function Stale(f: seq<Byte>, pos: nat, bpc: nat, buf: seq<Byte>): (r: seq<Byte>)
    requires pos <= |f| && |buf| == bpc > 0
    ensures |r| == |f|
  {
    var at := BlockStart(pos, bpc);
    if pos % bpc == 0 then f
    else if at + bpc <= |f| then f[..at] + buf + f[at + bpc..]
    else f[..at] + buf[..|f| - at]
  }

  /** The file system with file `n` as a cursor at `pos` sees it. */
  function Seeing(a: AbsFs, n: Name, pos: nat, buf: seq<Byte>): (r: AbsFs)
    requires n in a.files && pos <= |a.files[n].bytes| && |buf| == a.bpc > 0
    ensures n in r.files && |r.files[n].bytes| == |a.files[n].bytes| && r.bpc == a.bpc
            && r.files[n].attr == a.files[n].attr
  {
    a.(files := a.files[n := a.files[n].(bytes := Stale(a.files[n].bytes, pos, a.bpc, buf))])
  }

  /** The write as it is, with `buf` in the shared buffer. */
  function AbsWriteOver(a: AbsFs, n: Name, pos: nat, b: seq<Byte>, buf: seq<Byte>): (r: (AbsFs, nat))
    requires n in a.files && pos <= |a.files[n].bytes| && |buf| == a.bpc > 0
    ensures r.1 <= |b| && r.0.bpc == a.bpc && n in r.0.files && pos + r.1 <= |r.0.files[n].bytes|
    ensures |r.0.files[n].bytes| == Max(|a.files[n].bytes|, pos + r.1) && r.0.files[n].attr == a.files[n].attr
  {
    if b == [] then AbsWrite(a, n, pos, b) else AbsWrite(Seeing(a, n, pos, buf), n, pos, b)
  }

  /** The bytes of the file that a write of `size` bytes at `pos` carries to disk unasked are those of the file. */
  predicate Agrees(f: seq<Byte>, pos: nat, size: nat, bpc: nat, buf: seq<Byte>)
    requires pos <= |f| && |buf| == bpc > 0
  {
    var at := BlockStart(pos, bpc);
    forall p {:trigger f[p]} :: at <= p < |f| && p < at + bpc && (p < pos || pos + size <= p) ==> buf[p - at] == f[p]
  }

  /** The write is as it should be exactly when it starts at a cluster boundary or the buffer agrees with the file
      on the bytes of its cluster that the write does not cover. */
  lemma WriteIsOverlayIff(a: AbsFs, n: Name, pos: nat, b: seq<Byte>, buf: seq<Byte>)
    requires n in a.files && pos <= |a.files[n].bytes| <= a.files[n].clusters * a.bpc && |buf| == a.bpc > 0 && b != []
    ensures AbsWriteOver(a, n, pos, b, buf) == AbsWrite(a, n, pos, b) <==>
            pos % a.bpc == 0 || Agrees(a.files[n].bytes, pos, |b|, a.bpc, buf)
  {
    var f, g := a.files[n].bytes, Stale(a.files[n].bytes, pos, a.bpc, buf);
    var w := Accepted(a, a.files[n], pos, |b|);
    AcceptedReaches(a, a.files[n], pos, |b|);
    SeeingSettled(a, n, pos, buf, Overlay(g, pos, b[..w]), pos + w);
    hide Accepted, Settled;
    SettledIff(a, n, Overlay(g, pos, b[..w]), Overlay(f, pos, b[..w]), pos + w);
    if pos % a.bpc != 0 {
      OverlayIff(f, g, pos, b[..w]);
      StaleAgrees(f, pos, w, a.bpc, buf);
    }
  }

  lemma SeeingSettled(a: AbsFs, n: Name, pos: nat, buf: seq<Byte>, bytes: seq<Byte>, size: nat)
    requires n in a.files && pos <= |a.files[n].bytes| && |buf| == a.bpc > 0
    ensures Settled(Seeing(a, n, pos, buf), n, bytes, size) == Settled(a, n, bytes, size)
    ensures forall m ::
              Accepted(Seeing(a, n, pos, buf), Seeing(a, n, pos, buf).files[n], pos, m) ==
              Accepted(a, a.files[n], pos, m)
  {
    hide Clusters, Stale;
    var s := Seeing(a, n, pos, buf);
    var f := Settled(a, n, bytes, size).files[n];
    assert s.files[n := f] == a.files[n := f];
  }

  lemma AcceptedReaches(a: AbsFs, f: AbsFile, pos: nat, size: nat)
    requires |f.bytes| <= f.clusters * a.bpc
    ensures Accepted(a, f, pos, size) < size ==> pos + Accepted(a, f, pos, size) >= |f.bytes|
  {
    assert (f.clusters + a.free) * a.bpc == f.clusters * a.bpc + a.free * a.bpc;
    assert 0 <= a.free * a.bpc;
  }

  lemma OverlayIff(f: seq<Byte>, g: seq<Byte>, pos: nat, b: seq<Byte>)
    requires pos <= |f| == |g|
    ensures Overlay(g, pos, b) == Overlay(f, pos, b) <==>
            forall p {:trigger f[p]} :: 0 <= p < |f| && (p < pos || pos + |b| <= p) ==> g[p] == f[p]
  {
    var x, y := Overlay(g, pos, b), Overlay(f, pos, b);
    assert forall p {:trigger f[p]} :: 0 <= p < |f| && (p < pos || pos + |b| <= p) ==> x[p] == g[p] && y[p] == f[p];
    assert forall p :: pos <= p < pos + |b| ==> x[p] == y[p];
  }

  lemma StaleAgrees(f: seq<Byte>, pos: nat, size: nat, bpc: nat, buf: seq<Byte>)
    requires pos <= |f| && |buf| == bpc > 0 && pos % bpc != 0
    ensures Agrees(f, pos, size, bpc, buf) <==>
            forall p {:trigger f[p]} :: 0 <= p < |f| && (p < pos || pos + size <= p) ==>
                Stale(f, pos, bpc, buf)[p] == f[p]
  {
    var at, g := BlockStart(pos, bpc), Stale(f, pos, bpc, buf);
    assert forall p {:trigger f[p]} :: 0 <= p < |f| ==> g[p] == if at <= p < at + bpc then buf[p - at] else f[p];
  }

  // ---- fs_write, whatever the buffer holds ----

  /** An open handle on file `i`, of that name: sound volume, cursor on the file's chain, sizes in step. */
  ghost predicate Handled(v: Vol, i: nat, h: Cursor, name: Name)
  {
    && Inv(v) && Addressable(v) && i < |v.RootEntries()| && v.RootEntries()[i].IsLive()
    && v.RootEntries()[i].name == name && !v.RootEntries()[i].IsDirectory()
    && v.RootEntries()[i].size == h.size && HandleOk(v, ChainsIn(v)[i], h)
    && v.RootEntries()[i].first == h.first
  }

  lemma HandledInv(v: Vol, i: nat, h: Cursor, name: Name)
    requires Handled(v, i, h, name)
    ensures Inv(v)
  {
  }

  lemma HandledPlaced(v: Vol, i: nat, h: Cursor, name: Name) returns (k: nat)
    requires Handled(v, i, h, name)
    ensures CursorAt(ChainsIn(v)[i], v.Bpc(), h, k) && Shaped(v) && h.off < v.Bpc() && h.pos <= h.size
    ensures Placed(v, Heads(v.RootEntries()), ChainsIn(v), i, h, k)
  {
    LiveChain(v, i);
    InvParts(v);
    k :| CursorAt(ChainsIn(v)[i], v.Bpc(), h, k);
  }

  /** What a handle knows of its file. */
  lemma HandledFile(v: Vol, i: nat, h: Cursor, name: Name)
    requires Handled(v, i, h, name)
    ensures name in Files(v) && Files(v)[name] == FileOf(v, v.RootEntries()[i]) && !Files(v)[name].IsDirectory()
    ensures |Files(v)[name].bytes| == h.size && h.pos <= h.size && v.Bpc() > 0
    ensures Files(v)[name].clusters == |ChainsIn(v)[i]| && h.size <= Files(v)[name].clusters * v.Bpc()
  {
    hide Entries, Catalog, DirOk, Contents, Uniform, Entry.IsLive, OnlyDots;
    LoadedInv(v);
    LiveChain(v, i);
    CatalogHas(v.RootEntries(), i);
  }

  lemma PosInBlock(pos: nat, n: nat, k: nat, off: nat)
    requires off < n && pos == k * n + off
    ensures pos % n == off && BlockStart(pos, n) == k * n
  {
    DivUnique(k, n, off);
  }

  /** Cutting the clusters to the file's size, with one of them replaced. */
  lemma StaleContents(f: seq<Byte>, size: nat, at: nat, pos: nat, buf: seq<Byte>)
    requires at + |buf| <= |f| && size <= |f| && at < pos <= size && |buf| > 0
    requires pos % |buf| != 0 && BlockStart(pos, |buf|) == at
    ensures Splice(f, at, buf)[..size] == Stale(f[..size], pos, |buf|, buf)
  {
  }

  /** Away from a cluster boundary the handle stands on a cluster of its file. */
  lemma HandleCluster(v: Vol, i: nat, h: Cursor, name: Name)
    requires Handled(v, i, h, name)
    ensures Shaped(v) && h.off < v.Bpc() && i < |v.RootEntries()|
    ensures h.off != 0 ==> InRange(v.fat, h.cur) && h.cur in ChainsIn(v)[i] && h.cur != v.root
  {
    var k := HandledPlaced(v, i, h, name);
    hide Inv, Handled, Entries, ChainsIn, Partition, Counted, Shaped;
    WritingChain(v, Heads(v.RootEntries()), ChainsIn(v), i, h, k);
    ImposedIsWriting(v, Heads(v.RootEntries()), ChainsIn(v), i, h, k);
  }

  lemma ImposedParts(v: Vol, i: nat, h: Cursor, name: Name)
    requires Handled(v, i, h, name)
    ensures Shaped(v) && Shaped(Imposed(v, h)) && Imposed(v, h).Bpc() == v.Bpc() && |Imposed(v, h).data| == |v.data|
    ensures Imposed(v, h).RootEntries() == v.RootEntries() && Imposed(v, h).PoolOf() == v.PoolOf()
    ensures Imposed(v, h).root == v.root && Imposed(v, h).fat == v.fat
    ensures forall c :: 2 <= c < |v.data| && c !in ChainsIn(v)[i] ==> Imposed(v, h).data[c] == v.data[c]
  {
    hide Handled, Inv, Entries, ChainsIn;
    HandleCluster(v, i, h, name);
  }

  /** The volume as the handle sees it is sound too; only the handle's file may look different in it. */
  lemma ImposedSame(v: Vol, i: nat, h: Cursor, name: Name)
    requires Handled(v, i, h, name)
    ensures Shaped(v) && Inv(Imposed(v, h)) && ChainsIn(Imposed(v, h)) == ChainsIn(v)
    ensures Imposed(v, h).RootEntries() == v.RootEntries() && Imposed(v, h).PoolOf() == v.PoolOf()
    ensures OthersSame(v, Imposed(v, h), i)
  {
    hide Entries, FileOf, Entry.IsLive, Entry.IsDirectory, Partition, Fitting, DirOk, Counted, HandleOk, ChainsOf;
    hide Heads;
    hide Imposed, OthersSame, DataKept;
    ImposedParts(v, i, h, name);
    InvFrom(Imposed(v, h), ChainsIn(v));
    OtherClustersKept(v, Imposed(v, h), i, ChainsIn(v)[i]);
    OthersUnchanged(v, Imposed(v, h), i);
  }

  lemma ImposedFile(v: Vol, i: nat, h: Cursor, name: Name)
    requires Handled(v, i, h, name)
    ensures Shaped(v) && |v.buf| > 0 && h.pos <= |FileOf(v, v.RootEntries()[i]).bytes|
    ensures var f := FileOf(v, v.RootEntries()[i]);
            FileOf(Imposed(v, h), v.RootEntries()[i]) == f.(bytes := Stale(f.bytes, h.pos, v.Bpc(), v.buf))
  {
    hide Entries, Vol.RootEntries, Flat, Uniform, Entry.IsLive, Shaped, OnlyDots;
    var e := v.RootEntries()[i];
    var k := HandledPlaced(v, i, h, name);
    LiveChain(v, i);
    ImposedSame(v, i, h, name);
    LiveChain(Imposed(v, h), i);
    ImposedFlat(v, Heads(v.RootEntries()), ChainsIn(v), i, h, k);
    PosInBlock(h.pos, v.Bpc(), k, h.off);
    FlatLength(v.data, ChainsIn(v)[i], v.Bpc());
    hide Inv, Placed, HandleOk, CursorAt, IsChain, ChainsIn, Splice, Stale;
    if h.off != 0 { StaleContents(Flat(v.data, ChainsIn(v)[i]), e.size, k * v.Bpc(), h.pos, v.buf); }
  }

  /** The file system as the handle sees it. */
  lemma ImposedAbs(v: Vol, i: nat, h: Cursor, name: Name)
    requires Handled(v, i, h, name)
    ensures Shaped(v) && name in Files(v) && h.pos <= |Files(v)[name].bytes| && |v.buf| == v.Bpc() > 0
    ensures Abs(Imposed(v, h)) == Seeing(Abs(v), name, h.pos, v.buf)
  {
    hide Inv, Entries, FileOf, Catalog, DirOk, HandleOk, Imposed, VacantSlots, Stale, OthersSame, Entry.IsLive;
    hide Entry.IsDirectory, Shaped;
    var es := v.RootEntries();
    LoadedInv(v);
    HandledFile(v, i, h, name);
    ImposedSame(v, i, h, name);
    ImposedFile(v, i, h, name);
    LoadedInv(Imposed(v, h));
    CatalogHas(es, i);
    FilesFollow(v, Imposed(v, h), i, {}, map[name := es[i]]);
    assert Imposed(v, h).free == Imposed(v, h).PoolOf().free == v.PoolOf().free;
  }

  /** With the right bytes in the buffer an open handle is one that the loop theorem takes. */
  lemma BecomesWritable(v: Vol, v0: Vol, i: nat, h: Cursor, name: Name, k: nat)
    requires Handled(v, i, h, name) && Inv(v0) && v0.Bpc() == v.Bpc() && |v0.fat| == |v.fat|
    requires v0.RootEntries() == v.RootEntries() && ChainsIn(v0) == ChainsIn(v)
    requires CursorAt(ChainsIn(v)[i], v.Bpc(), h, k) && Coherent(v0, h) && h.pos <= h.size
    ensures WritableAt(v0, i, h, k)
  {
    hide Inv, Entries, Vol.RootEntries, ChainsIn, CursorAt, Coherent, HandleOk, Entry.IsLive, Entry.IsDirectory;
  }

  lemma ImposedWritable(v: Vol, i: nat, h: Cursor, name: Name) returns (k: nat)
    requires Handled(v, i, h, name)
    ensures Shaped(v) && h.off < v.Bpc() && WritableAt(Imposed(v, h), i, h, k)
  {
    k := HandledPlaced(v, i, h, name);
    hide Inv, Handled, Entries, Vol.RootEntries, ChainsIn, CursorAt, Placed;
    ImposedSame(v, i, h, name);
    ImposedParts(v, i, h, name);
    ImposedIsWriting(v, Heads(v.RootEntries()), ChainsIn(v), i, h, k);
    hide Imposed, Coherent;
    BecomesWritable(v, Imposed(v, h), i, h, name, k);
  }

  /** The size update starts by loading the directory. */
  lemma UpdateSizeIgnoresBuffer(v: Vol, buf: seq<Byte>, name: Name, size: nat)
    requires Shaped(v) && |buf| == |v.buf|
    ensures Shaped(v.(buf := buf)) && UpdateSize(v.(buf := buf), name, size) == UpdateSize(v, name, size)
  {
    hide Entries, Find, WithSize;
    assert v.(buf := buf).Loaded(v.root) == v.Loaded(v.root);
  }

  /** It leaves the directory in the buffer. */
  lemma UpdateSizeLoadsRoot(v: Vol, name: Name, size: nat)
    requires Shaped(v)
    ensures var v' := UpdateSize(v, name, size); v'.root < |v'.data| && v'.buf == v'.data[v'.root]
  {
    hide Entries, Find, WithSize;
  }

  /** A handle after a write. */
  lemma HandledAfter(v: Vol, v': Vol, i: nat, h: Cursor, h': Cursor, name: Name)
    requires Handled(v, i, h, name) && Inv(v') && |v'.fat| == |v.fat| && v'.Bpc() == v.Bpc()
    requires v'.RootEntries() == v.RootEntries()[i := v.RootEntries()[i].(size := h'.size)] && h'.first == h.first
    requires HandleOk(v', ChainsIn(v')[i], h')
    ensures Handled(v', i, h', name)
  {
    hide Inv, Entries, HandleOk, ChainsIn;
    IsLiveResized(v.RootEntries()[i], h'.size);
    hide Entry.IsLive;
  }

  /** What `fs_write` through an open handle does. */
  ghost predicate WroteOver(v: Vol, i: nat, h: Cursor, name: Name, b: seq<Byte>, v': Vol, h': Cursor, w: nat)
    requires name in Files(v) && h.pos <= |Files(v)[name].bytes| && v.Bpc() > 0
  {
    && Handled(v', i, h', name) && h'.pos == h.pos + w && h'.first == h.first
    && (Abs(v'), w) == AbsWriteOver(Abs(v), name, h.pos, b, v.buf)
    && Gap(v'.PoolOf()) == Gap(v.PoolOf()) && |v'.fat| == |v.fat| && v'.Bpc() == v.Bpc()
    && v'.root < |v'.data| && v'.buf == v'.data[v'.root]
  }

  /** `fs_write` through any open handle, whatever the shared buffer holds: the volume stays sound, the handle stays
      on its file, every other file is untouched, the number returned is what fits, and the file is the write laid
      over what the cursor sees. By `WriteIsOverlayIff` that is the write as it should be exactly when the write
      starts at a cluster boundary or the buffer agrees with the file where it matters. */
  lemma WriteRefines(v: Vol, i: nat, h: Cursor, name: Name, b: seq<Byte>)
    requires Handled(v, i, h, name)
    ensures Shaped(v) && h.off < v.Bpc() && name in Files(v) && h.pos <= |Files(v)[name].bytes|
    ensures var (v', h', w) := WriteFile(v, h, name, b); WroteOver(v, i, h, name, b, v', h', w)
  {
    if b == [] { EmptyWriteRefines(v, i, h, name); } else { FullWriteRefines(v, i, h, name, b); }
  }

  lemma FullWriteRefines(v: Vol, i: nat, h: Cursor, name: Name, b: seq<Byte>)
    requires Handled(v, i, h, name) && b != []
    ensures Shaped(v) && h.off < v.Bpc() && name in Files(v) && h.pos <= |Files(v)[name].bytes|
    ensures var (v', h', w) := WriteFile(v, h, name, b); WroteOver(v, i, h, name, b, v', h', w)
  {
    hide Inv, Entries, FileOf, HandleOk, ChainsIn, Imposed, Gap, WriteLoop, UpdateSize, AbsWrite, Seeing, Files;
    hide VacantSlots, WritableAt;
    hide Shaped, Addressable, Entry.IsLive, Entry.IsDirectory, OthersSame;
    HandledFile(v, i, h, name);
    ImposedAbs(v, i, h, name);
    ImposedSame(v, i, h, name);
    var k := ImposedWritable(v, i, h, name);
    WritableRefines(Imposed(v, h), i, h, k, b);
    WritableEntry(Imposed(v, h), i, h, k, b);
    WriteIgnoresDisk(v, h, b);
    var (v', h', w) := WriteFile(v, h, name, b);
    UpdateSizeLoadsRoot(WriteLoop(v, h, b).0, name, h'.size);
    SameTable(v, Imposed(v, h));
    HandledAfter(v, v', i, h, h', name);
  }

  lemma SameTable(v: Vol, v': Vol)
    requires v'.PoolOf() == v.PoolOf()
    ensures v'.fat == v.fat
  {
  }

  /** A coherent buffer for the handle. */
  lemma CoherentBuffer(v: Vol, i: nat, h: Cursor, name: Name) returns (buf: seq<Byte>, k: nat)
    requires Handled(v, i, h, name)
    ensures Shaped(v) && |buf| == |v.buf| && h.off < v.Bpc() && WritableAt(v.(buf := buf), i, h, k)
  {
    k := HandledPlaced(v, i, h, name);
    hide Inv, Handled, Entries, Vol.RootEntries, ChainsIn, CursorAt, Placed;
    HandleCluster(v, i, h, name);
    buf := if h.off == 0 then v.buf else v.data[h.cur];
    BufferUnseen(v, buf);
    BecomesWritable(v, v.(buf := buf), i, h, name, k);
  }

  lemma EmptyWriteRefines(v: Vol, i: nat, h: Cursor, name: Name)
    requires Handled(v, i, h, name)
    ensures Shaped(v) && h.off < v.Bpc() && name in Files(v) && h.pos <= |Files(v)[name].bytes|
    ensures var (v', h', w) := WriteFile(v, h, name, []); WroteOver(v, i, h, name, [], v', h', w)
  {
    hide Inv, Entries, FileOf, HandleOk, ChainsIn, Gap, UpdateSize, AbsWrite, Seeing, Files, VacantSlots, WritableAt;
    hide Shaped, Addressable, Entry.IsLive, Entry.IsDirectory, OthersSame;
    HandledFile(v, i, h, name);
    var buf, k := CoherentBuffer(v, i, h, name);
    BufferUnseen(v, buf);
    var v0 := v.(buf := buf);
    WritableRefines(v0, i, h, k, []);
    WritableEntry(v0, i, h, k, []);
    NothingToWrite(v, h);
    NothingToWrite(v0, h);
    UpdateSizeIgnoresBuffer(v, buf, name, h.size);
    UpdateSizeLoadsRoot(v, name, h.size);
    HandledAfter(v, UpdateSize(v, name, h.size), i, h, h, name);
  }
}
