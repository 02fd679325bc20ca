/**
 The copying loop of `cp`: it reads through one handle and writes through another, 512 bytes at a time, and both use
 the one cluster buffer. `CopyGives` says what ends up in the copy, byte for byte; `CopyIsRightIff` what that means.
 */
module Copies {
  import opened Bytes
  import opened FatImage
  import opened Chains
  import opened Allocator
  import opened Directory
  import opened VolumeState
  import opened FileContent
  import opened FileWrite
  import opened VolumeOps
  import opened AbstractFs
  import opened Refinement
  import opened Writes
  import opened OpenHandles
  import opened Sessions
  import opened Interleaving
  import opened Runs
  import opened Names


  // ---- what a copy holds ----

  /** Where the last chunk starts of those between `at` and `end`. */
  function LastChunk(at: nat, end: nat): (p: nat)
    requires at < end
    ensures at <= p < end
  {
    at + (end - at - 1) / CHUNK * CHUNK
  }

  /** Byte `q` of a copy of the first `n` bytes of `f`. A cluster that is filled by one chunk is copied. One that takes
      more of them ends up as the beginning of the directory `dir`, in which entry `j` is that of the copy and gives
      its size before the last of them. */
  function CopiedByte(f: seq<Byte>, n: nat, dir: seq<Byte>, j: nat, q: nat): Byte
    requires q < n <= |f| < WORD && |dir| > 0 && j < Count(dir)
  {
    var at := BlockStart(q, |dir|);
    var end := Min(n, at + |dir|);
    if end - at <= CHUNK then f[q] else WithSize(dir, j, LastChunk(at, end))[q - at]
  }

  function Copied(f: seq<Byte>, n: nat, dir: seq<Byte>, j: nat): (r: seq<Byte>)
    requires n <= |f| < WORD && |dir| > 0 && j < Count(dir)
    ensures |r| == n && forall q {:trigger r[q]} :: 0 <= q < n ==> r[q] == CopiedByte(f, n, dir, j, q)
  {
    seq(n, (q: nat) requires q < n => CopiedByte(f, n, dir, j, q))
  }

  lemma WholeChunks(c: nat, bpc: nat)
    requires bpc > 0 && bpc % CHUNK == 0
    ensures (c * bpc) % CHUNK == 0 && (c * bpc) % bpc == 0
  {
    assert c * bpc == CHUNK * (c * (bpc / CHUNK));
    DivUnique(c, bpc, 0);
  }

  /** Chunks do not straddle clusters. */
  lemma ChunkInBlock(p: nat, bpc: nat)
    requires bpc > 0 && bpc % CHUNK == 0 && p % CHUNK == 0
    ensures (p - BlockStart(p, bpc)) % CHUNK == 0 && p + CHUNK <= BlockStart(p, bpc) + bpc
    ensures BlockStart(p, bpc) == p - p % bpc
  {
    var c := p / bpc;
    var at := c * bpc;
    WholeChunks(c, bpc);
    assert p % bpc == p - at;
    Multiples(p, at, bpc);
  }

  lemma Multiples(p: nat, at: nat, bpc: nat)
    requires p % CHUNK == 0 && at % CHUNK == 0 && bpc % CHUNK == 0 && at <= p < at + bpc
    ensures (p - at) % CHUNK == 0 && p + CHUNK <= at + bpc
  {
  }

  /** A position in the same cluster, or in one before. */
  lemma SameBlock(q: nat, p: nat, bpc: nat)
    requires bpc > 0
    ensures BlockStart(p, bpc) <= q < BlockStart(p, bpc) + bpc ==> BlockStart(q, bpc) == BlockStart(p, bpc)
    ensures q < BlockStart(p, bpc) ==> BlockStart(q, bpc) + bpc <= BlockStart(p, bpc)
  {
    var c, d := p / bpc, q / bpc;
    assert BlockStart(p, bpc) == c * bpc && BlockStart(q, bpc) == d * bpc;
    if q < c * bpc {
      if d >= c { MulMono(c, d, bpc); }
      MulMono(d + 1, c, bpc);
    } else if q < c * bpc + bpc {
      if d < c { MulMono(d + 1, c, bpc); }
      if d > c { MulMono(c + 1, d, bpc); }
    }
  }

  /** The clusters in front of a chunk are as they were. */
  lemma CopiedBefore(f: seq<Byte>, p: nat, dir: seq<Byte>, j: nat, w: nat)
    requires p + w <= |f| < WORD && |dir| > 0 && j < Count(dir)
    ensures Copied(f, p + w, dir, j)[..BlockStart(p, |dir|)] == Copied(f, p, dir, j)[..BlockStart(p, |dir|)]
  {
    hide WithSize, BlockStart, LastChunk;
    var at := BlockStart(p, |dir|);
    forall q | 0 <= q < at
      ensures CopiedByte(f, p + w, dir, j, q) == CopiedByte(f, p, dir, j, q)
    {
      SameBlock(q, p, |dir|);
    }
  }

  lemma LastChunkIs(at: nat, p: nat, w: nat)
    requires at <= p && (p - at) % CHUNK == 0 && 0 < w <= CHUNK
    ensures LastChunk(at, p + w) == p && (p + w - at <= CHUNK <==> p == at)
  {
  }

  /** The cluster of a chunk. */
  lemma CopiedThere(f: seq<Byte>, p: nat, dir: seq<Byte>, j: nat, w: nat, q: nat)
    requires p + w <= |f| < WORD && 0 < w <= CHUNK && |dir| > 0 && j < Count(dir)
    requires p % CHUNK == 0 && |dir| % CHUNK == 0 && BlockStart(p, |dir|) <= q < p + w
    ensures p + w <= BlockStart(p, |dir|) + |dir|
    ensures var at := BlockStart(p, |dir|);
            CopiedByte(f, p + w, dir, j, q) == if p == at then f[q] else WithSize(dir, j, p)[q - at]
  {
    hide WithSize, BlockStart, LastChunk;
    ChunkInBlock(p, |dir|);
    SameBlock(q, p, |dir|);
    LastChunkIs(BlockStart(p, |dir|), p, w);
  }

  /** One more chunk, or the part of it that fits: at the start of a cluster it is copied, further on the cluster is
      replaced by the directory. */
  lemma CopiedStep(f: seq<Byte>, p: nat, dir: seq<Byte>, j: nat, w: nat)
    requires p + w <= |f| < WORD && 0 < w <= CHUNK && |dir| > 0 && j < Count(dir)
    requires p % CHUNK == 0 && |dir| % CHUNK == 0
    ensures var at := BlockStart(p, |dir|); var dirNow := WithSize(dir, j, p);
            && p + w - at <= |dir|
            && Copied(f, p + w, dir, j) ==
               if p % |dir| == 0 then Copied(f, p, dir, j) + f[p..p + w]
               else Copied(f, p, dir, j)[..at] + dirNow[..p + w - at]
  {
    hide WithSize, BlockStart, CopiedByte;
    var at := BlockStart(p, |dir|);
    var was, now := Copied(f, p, dir, j), Copied(f, p + w, dir, j);
    ChunkInBlock(p, |dir|);
    CopiedBefore(f, p, dir, j, w);
    forall q | at <= q < p + w
      ensures now[q] == if p == at then f[q] else WithSize(dir, j, p)[q - at]
    {
      CopiedThere(f, p, dir, j, w, q);
    }
    hide Copied;
    assert now == now[..at] + now[at..];
    if p == at { assert now[at..] == f[p..p + w] && was[..at] == was; }
    else { assert now[at..] == WithSize(dir, j, p)[..p + w - at]; }
  }

  // ---- the loop ----

  lemma {:induction false} ReadAdvances(v: Vol, h: Cursor, n: nat)
    requires Shaped(v) && h.off < v.Bpc()
    ensures var (v', h', out) := ReadLoop(v, h, n); h'.pos == h.pos + |out| && h'.size == h.size
    decreases n
  {
    if n > 0 && InRange(v.fat, h.cur) {
      var m := Min(n, v.Bpc() - h.off);
      ReadTurn(v, h, n, m);
      var chunk := if h.off == 0 then v.data[h.cur] else v.buf;
      hide ReadLoop, Shaped;
      ReadAdvances(v.(buf := chunk), Moved(v.fat, v.Bpc(), h, m), n - m);
    } else {
      hide Shaped;
    }
  }

  lemma ReadMovesOn(v: Vol, h: Cursor, n: nat)
    requires Shaped(v) && h.off < v.Bpc()
    ensures var (v', h', out) := Read(v, h, n);
            h'.pos == h.pos + |out| && h'.size == h.size && (out != [] ==> h.pos < h.size)
  {
    hide ReadLoop, Shaped;
    if h.pos < h.size { ReadAdvances(v, h, if (h.pos + n) % WORD > h.size then h.size - h.pos else n); }
  }

  /** The loop of `cp`, from the handles on source and copy: until nothing more is read, or a write falls short. */
  function CopyLoop(v: Vol, g: Cursor, h: Cursor, name: Name): (r: (Vol, Cursor, Cursor, nat))
    requires Shaped(v) && g.off < v.Bpc() && h.off < v.Bpc()
    decreases g.size - g.pos
  {
    var (v1, g1, out) := Read(v, g, CHUNK);
    if out == [] then (v1, g1, h, 0)
    else
      var (v2, h1, w) := WriteFile(v1, h, name, out);
      if w != |out| then (v2, g1, h1, w)
      else
        ReadMovesOn(v, g, CHUNK);
        var (v3, g3, h3, n) := CopyLoop(v2, g1, h1, name);
        (v3, g3, h3, w + n)
  }

  // ---- one turn ----

  /** Reading inside the cluster that is in the buffer does not touch the buffer. */
  lemma ReadInside(v: Vol, h: Cursor, n: nat)
    requires Shaped(v) && h.off != 0 && h.off < v.Bpc() && InRange(v.fat, h.cur) && h.off + n <= v.Bpc()
    ensures ReadLoop(v, h, n).0 == v
  {
    assert v == v.(buf := v.buf);
    if n > 0 {
      ReadTurn(v, h, n, n);
      ReadNothing(v, Moved(v.fat, v.Bpc(), h, n));
    }
  }

  lemma ReadNothing(v: Vol, h: Cursor)
    requires Shaped(v) && h.off < v.Bpc()
    ensures ReadLoop(v, h, 0) == (v, h, [])
  {
  }

  /** A write through an open handle leaves the directory as it was, but for the size of the file. */
  lemma WriteSetsSize(v: Vol, i: nat, h: Cursor, name: Name, b: seq<Byte>)
    requires Handled(v, i, h, name) && b != []
    ensures Shaped(v) && h.off < v.Bpc() && i < Count(v.data[v.root])
    ensures var (v', h', w) := WriteFile(v, h, name, b);
            && h'.size < WORD && v'.root == v.root < |v'.data|
            && v'.data[v.root] == WithSize(v.data[v.root], i, h'.size)
            && h'.size == Max(h.size, h.pos + w)
  {
    hide Inv, Entries, FileOf, ChainsIn, Imposed, Handled, WriteLoop, UpdateSize, Shaped, Entry.IsLive, WithSize;
    hide LoopDone, HandleOk, Vol.RootEntries, WritableAt;
    var k := ImposedWritable(v, i, h, name);
    ImposedSame(v, i, h, name);
    ImposedParts(v, i, h, name);
    HandledEntryIs(v, i, h, name);
    ImposedRoot(v, i, h, name);
    WriteIgnoresDisk(v, h, b);
    LoopSetsSize(v, Imposed(v, h), i, h, k, b);
  }

  lemma ImposedRoot(v: Vol, i: nat, h: Cursor, name: Name)
    requires Handled(v, i, h, name)
    ensures Shaped(v) && v.root < |v.data| == |Imposed(v, h).data| && Imposed(v, h).data[v.root] == v.data[v.root]
  {
    hide Inv, Handled, Entries, ChainsIn;
    HandleCluster(v, i, h, name);
  }

  lemma WritableParts(v: Vol, i: nat, h: Cursor, k: nat)
    requires WritableAt(v, i, h, k)
    ensures OpenAt(v, i, h, k) && Addressable(v) && i < |v.RootEntries()| && v.RootEntries()[i].size == h.size
    ensures Inv(v) && v.RootEntries()[i].IsLive() && h.pos <= h.size && Shaped(v) && h.off < v.Bpc()
  {
    OpenIsWriting(v, i, h, k);
  }

  lemma LoopSetsSize(v: Vol, v0: Vol, i: nat, h: Cursor, k: nat, b: seq<Byte>)
    requires Shaped(v) && WritableAt(v0, i, h, k) && v0.root == v.root && |v0.data| == |v.data|
    requires v.RootEntries() == v0.RootEntries() && v.root < |v.data| && v0.data[v.root] == v.data[v.root]
    ensures Shaped(v0) && h.off < v0.Bpc() && i < Count(v.data[v.root])
    ensures var (v1, h1, w) := WriteLoop(v0, h, b);
            && i < |v0.RootEntries()| && h1.size < WORD && h1.size == Max(h.size, h.pos + w)
            && Shaped(v1) && var v' := UpdateSize(v1, v0.RootEntries()[i].name, h1.size);
               v'.root == v.root < |v'.data| && v'.data[v.root] == WithSize(v.data[v.root], i, h1.size)
  {
    hide Inv, Entries, FileOf, ChainsIn, WriteLoop, UpdateSize, Shaped, Entry.IsLive, WithSize, WritableAt, OpenAt;
    hide LoopDone, HandleOk, Vol.RootEntries;
    WritableParts(v0, i, h, k);
    var k' := LoopKeepsInv(v0, i, h, k, b);
    var (v1, h1, w) := WriteLoop(v0, h, b);
    LoopChains(v0, i, h, b, v1, h1, w);
    LoopRoot(v0, i, h, b, v1, h1, w);
    WrittenFile(v0, i, h, b, v1, h1, w);
    ChainIsAddressable(v1, i, h1.size);
    UpdateSizeIs(v1, i, h1.size);
  }

  lemma LoopRoot(v: Vol, i: nat, h: Cursor, b: seq<Byte>, v1: Vol, h1: Cursor, w: nat)
    requires Shaped(v) && Addressable(v) && LoopDone(v, i, h, b, v1, h1, w)
    requires i < |v1.RootEntries()| && v1.RootEntries()[i].IsLive()
    ensures v1.root == v.root < |v1.data| && v1.data[v.root] == v.data[v.root] && v1.Bpc() == v.Bpc()
    ensures h1.size == Max(h.size, h.pos + w) && Shaped(v1) && Addressable(v1)
  {
    hide Inv, Entries, Vol.RootEntries, ChainsIn, OthersSame, Overlaid, Flat, Uniform, Room, Entry.IsLive, Gap;
    hide Contents, FileOf, IsChain, Chain, Heads;
    LiveChain(v1, i);
    LoadedInv(v1);
  }

  // ---- the copy on the map of files ----

  /** How long file `n` can get. */
  function Stock(a: AbsFs, n: Name): nat
    requires n in a.files
  {
    (a.files[n].clusters + a.free) * a.bpc
  }

  ghost predicate OthersAs(a: AbsFs, a': AbsFs, n: Name)
  {
    forall o :: o in a.files && o != n ==> o in a'.files && a'.files[o] == a.files[o]
  }

  /** Writing on at the end of a file, as far as there is room. */
  lemma AbsWriteOn(a: AbsFs, n: Name, b: seq<Byte>, buf: seq<Byte>)
    requires n in a.files && |buf| == a.bpc > 0 && b != []
    requires |a.files[n].bytes| <= a.files[n].clusters * a.bpc
    ensures var p := |a.files[n].bytes|; var (a', w) := AbsWriteOver(a, n, p, b, buf);
            && p <= Stock(a, n) && w == Min(|b|, Stock(a, n) - p) && OthersAs(a, a', n)
            && a'.files[n].bytes == Stale(a.files[n].bytes, p, a.bpc, buf) + b[..w] && Stock(a', n) == Stock(a, n)
  {
    hide Stale, Clusters;
    var f := a.files[n];
    var p := |f.bytes|;
    assert (f.clusters + a.free) * a.bpc == f.clusters * a.bpc + a.free * a.bpc;
    var w := Min(|b|, Stock(a, n) - p);
    NeededFits(f.clusters, f.clusters + a.free, p + w, a.bpc);
    assert a.(files := a.files[n := f.(bytes := Stale(f.bytes, p, a.bpc, buf))]).files[n].clusters == f.clusters;
  }

  lemma NeededFits(has: nat, most: nat, n: nat, bpc: nat)
    requires bpc > 0 && has <= most && n <= most * bpc
    ensures Clusters(has, n, bpc) <= most
  {
    var c := (n + bpc - 1) / bpc;
    assert c * bpc <= n + bpc - 1;
    if c > most { MulMono(most + 1, c, bpc); }
  }

  // ---- the volume while copying ----

  /** Source and copy: their entries, the source's bytes and the directory as it is at the start. */
  datatype Job = Job(i: nat, src: Name, j: nat, dst: Name, f: seq<Byte>, dir: seq<Byte>)

  predicate JobOk(t: Job, bpc: nat)
  {
    && |t.dir| == bpc > 0 && bpc % CHUNK == 0 && t.j < Count(t.dir) && |t.f| < WORD && t.src != t.dst
  }

  /** The first `p` bytes have been copied, through `h`. */
  ghost predicate CopyAt(v: Vol, t: Job, h: Cursor, p: nat)
  {
    && JobOk(t, v.Bpc()) && Handled(v, t.j, h, t.dst) && Capacity(v) + CHUNK < WORD
    && h.pos == h.size == p <= |t.f| && (p % CHUNK == 0 || p == |t.f|)
    && t.src in Files(v) && Files(v)[t.src].bytes == t.f
    && t.dst in Files(v) && Files(v)[t.dst].bytes == Copied(t.f, p, t.dir, t.j)
    && v.root < |v.data| && v.data[v.root] == WithSize(t.dir, t.j, p)
    && (p % v.Bpc() != 0 ==> v.buf == v.data[v.root])
  }

  /** The source's handle, `p` bytes on. */
  ghost predicate SourceAt(v: Vol, t: Job, g: Cursor, p: nat)
  {
    Handled(v, t.i, g, t.src) && g.pos == p && g.size == |t.f|
  }

  /** What the next chunk consists of: bytes of the file, or, inside a cluster, of the directory. */
  predicate ChunkIs(t: Job, p: nat, out: seq<Byte>)
    requires p <= |t.f| < WORD && |t.dir| > 0 && t.j < Count(t.dir)
  {
    && |out| == Min(CHUNK, |t.f| - p)
    && (p % |t.dir| == 0 ==> out == t.f[p..p + |out|])
    && (p % |t.dir| != 0 && p < |t.f| ==>
          var at := BlockStart(p, |t.dir|);
          p + |out| - at <= |t.dir| && out == WithSize(t.dir, t.j, p)[p - at..p + |out| - at])
  }

  ghost predicate ReadStepDone(v: Vol, t: Job, h: Cursor, p: nat, v1: Vol, g1: Cursor, out: seq<Byte>)
  {
    && CopyAt(v1, t, h, p) && ChunkIs(t, p, out) && SourceAt(v1, t, g1, p + |out|)
    && Abs(v1) == Abs(v) && v1 == v.(buf := v1.buf) && |v1.buf| == |v.buf|
  }

  lemma ReadStep(v: Vol, t: Job, g: Cursor, h: Cursor, p: nat)
    requires CopyAt(v, t, h, p) && SourceAt(v, t, g, p)
    ensures Shaped(v) && g.off < v.Bpc()
    ensures var (v1, g1, out) := Read(v, g, CHUNK); ReadStepDone(v, t, h, p, v1, g1, out)
  {
    hide Inv, Handled, Read, Files, Abs, Copied, WithSize, Shaped, Vol.RootEntries, Stale;
    HandledEntryIs(v, t.i, g, t.src);
    HandleBelow(v, t.i, g, t.src);
    ReadRefines(v, t.i, g, t.src, CHUNK);
    ReadMovesOn(v, g, CHUNK);
    var (v1, g1, out) := Read(v, g, CHUNK);
    HandledUnder(v, v1.buf, t.j, h, t.dst);
    AbsFields(v);
    AbsFields(v1);
    if p < |t.f| && p % v.Bpc() != 0 { ReadStepInside(v, t, g, p); }
    ChunkFromStale(v, t, p, out);
    if p == |t.f| { ReadAtEnd(v, g, CHUNK); }
  }

  lemma ReadAtEnd(v: Vol, g: Cursor, n: nat)
    requires Shaped(v) && g.off < v.Bpc() && g.pos == g.size
    ensures Read(v, g, n) == (v, g, [])
  {
  }

  lemma ReadStepInside(v: Vol, t: Job, g: Cursor, p: nat)
    requires SourceAt(v, t, g, p) && JobOk(t, v.Bpc()) && p < |t.f| && p % CHUNK == 0 && p % v.Bpc() != 0
    requires Capacity(v) + CHUNK < WORD
    ensures Shaped(v) && g.off < v.Bpc() && Read(v, g, CHUNK).0 == v
  {
    hide Inv, Handled, Read, ReadLoop, Shaped, Placed, ChainsIn, Vol.RootEntries;
    var k := HandledPlaced(v, t.i, g, t.src);
    PosInBlock(p, v.Bpc(), k, g.off);
    HandleCluster(v, t.i, g, t.src);
    HandleBelow(v, t.i, g, t.src);
    ChunkInBlock(p, v.Bpc());
    hide CursorAt, Capacity;
    ReadIsClampedLoop(v, g, CHUNK);
    ReadInside(v, g, Min(CHUNK, g.size - p));
  }

  lemma ChunkFromStale(v: Vol, t: Job, p: nat, out: seq<Byte>)
    requires JobOk(t, v.Bpc()) && p <= |t.f| && (p % CHUNK == 0 || p == |t.f|)
    requires out == Ahead(Stale(t.f, p, v.Bpc(), v.buf), p, CHUNK)
    requires p % v.Bpc() != 0 ==> v.buf == WithSize(t.dir, t.j, p)
    ensures ChunkIs(t, p, out)
  {
    hide WithSize;
    if p < |t.f| { ChunkInBlock(p, v.Bpc()); }
  }

  ghost predicate WriteStepDone(v: Vol, t: Job, g: Cursor, p: nat, out: seq<Byte>, v2: Vol, h1: Cursor, w: nat)
    requires t.dst in Files(v)
  {
    && p <= Stock(Abs(v), t.dst) && w == Min(|out|, Stock(Abs(v), t.dst) - p)
    && CopyAt(v2, t, h1, p + w) && SourceAt(v2, t, g, p + |out|)
    && OthersAs(Abs(v), Abs(v2), t.dst) && Stock(Abs(v2), t.dst) == Stock(Abs(v), t.dst)
    && Gap(v2.PoolOf()) == Gap(v.PoolOf())
  }

  lemma WriteStep(v: Vol, t: Job, g: Cursor, h: Cursor, p: nat, out: seq<Byte>)
    requires CopyAt(v, t, h, p) && ChunkIs(t, p, out) && SourceAt(v, t, g, p + |out|) && out != []
    ensures Shaped(v) && h.off < v.Bpc()
    ensures var (v2, h1, w) := WriteFile(v, h, t.dst, out); WriteStepDone(v, t, g, p, out, v2, h1, w)
  {
    hide Inv, Handled, WriteFile, Files, Abs, Copied, WithSize, Shaped, Vol.RootEntries, Stale, Stock;
    hide OnlyEntry, Gap, WroteOver, WriteStepDone;
    HandledEntryIs(v, t.j, h, t.dst);
    HandledFile(v, t.j, h, t.dst);
    HandledEntryIs(v, t.i, g, t.src);
    WriteRefines(v, t.j, h, t.dst, out);
    WriteSetsSize(v, t.j, h, t.dst, out);
    WriteKeepsOthers(v, t.j, h, t.dst, out);
    var (v2, h1, w) := WriteFile(v, h, t.dst, out);
    hide ChunkIs;
    SizeOverSize(t.dir, t.j, p, h1.size);
    SourceKept(v, t, g, p + |out|, h, p, out, v2, h1, w);
    WriteStepEnds(v, t, g, h, p, out, v2, h1, w);
  }

  lemma SourceKept(v: Vol, t: Job, g: Cursor, q: nat, h: Cursor, p: nat, out: seq<Byte>, v2: Vol, h1: Cursor, w: nat)
    requires CopyAt(v, t, h, p) && SourceAt(v, t, g, q) && OnlyEntry(v, v2, t.j)
    requires t.dst in Files(v) && h.pos <= |Files(v)[t.dst].bytes| && v.Bpc() > 0
    requires WroteOver(v, t.j, h, t.dst, out, v2, h1, w)
    ensures SourceAt(v2, t, g, q)
  {
    hide Inv, Handled, Files, Abs, AbsWriteOver, Copied, WithSize, Vol.RootEntries, OnlyEntry, Gap;
    HandledEntryIs(v, t.j, h, t.dst);
    HandledEntryIs(v, t.i, g, t.src);
    OthersHandled(v, v2, t.j, t.i, g, t.src);
  }

  lemma WriteStepEnds(v: Vol, t: Job, g: Cursor, h: Cursor, p: nat, out: seq<Byte>, v2: Vol, h1: Cursor, w: nat)
    requires CopyAt(v, t, h, p) && ChunkIs(t, p, out) && out != [] && SourceAt(v2, t, g, p + |out|)
    requires |Files(v)[t.dst].bytes| <= Files(v)[t.dst].clusters * v.Bpc() && |v.buf| == v.Bpc()
    requires WroteOver(v, t.j, h, t.dst, out, v2, h1, w) && h1.size == Max(h.size, h.pos + w)
    requires v2.root < |v2.data| && h1.size < WORD && v2.data[v2.root] == WithSize(t.dir, t.j, h1.size)
    ensures WriteStepDone(v, t, g, p, out, v2, h1, w)
  {
    hide Inv, Handled, Files, Abs, AbsWriteOver, Copied, WithSize, Vol.RootEntries, Stale, Stock, Gap, SourceAt;
    AbsFields(v);
    AbsFields(v2);
    AbsWriteOn(Abs(v), t.dst, out, v.buf);
    StepEnds(Abs(v), t, p, w, |out|);
    StepBytes(v, t, p, out, w);
  }

  lemma SizeOverSize(dir: seq<Byte>, j: nat, a: nat, b: nat)
    requires j < Count(dir) && a < WORD && b < WORD
    ensures WithSize(WithSize(dir, j, a), j, b) == WithSize(dir, j, b)
  {
    hide Le32;
  }

  lemma StepEnds(a: AbsFs, t: Job, p: nat, w: nat, m: nat)
    requires JobOk(t, a.bpc) && t.dst in a.files && p <= Stock(a, t.dst) && w == Min(m, Stock(a, t.dst) - p)
    requires p + m <= |t.f| && (m == CHUNK || p + m == |t.f|) && p % CHUNK == 0
    ensures (p + w) % CHUNK == 0 || p + w == |t.f|
    ensures w == 0 < m ==> p % a.bpc == 0
  {
    WholeChunks(a.files[t.dst].clusters + a.free, a.bpc);
  }

  lemma StepBytes(v: Vol, t: Job, p: nat, out: seq<Byte>, w: nat)
    requires JobOk(t, v.Bpc()) && p <= |t.f| && p % CHUNK == 0 && ChunkIs(t, p, out) && w <= |out| && out != []
    requires w == 0 ==> p % v.Bpc() == 0
    requires p % v.Bpc() != 0 ==> v.buf == WithSize(t.dir, t.j, p)
    ensures Stale(Copied(t.f, p, t.dir, t.j), p, v.Bpc(), v.buf) + out[..w] == Copied(t.f, p + w, t.dir, t.j)
  {
    hide WithSize, Copied, BlockStart, Stale;
    var was := Copied(t.f, p, t.dir, t.j);
    ChunkInBlock(p, v.Bpc());
    if w > 0 { CopiedStep(t.f, p, t.dir, t.j, w); }
    if p % v.Bpc() == 0 {
      StaleAtBoundary(was, v.buf);
      assert out[..w] == t.f[p..p + w];
    } else {
      StaleAtEnd(was, v.buf, out[..w]);
      assert out[..w] == v.buf[p - BlockStart(p, v.Bpc())..p + w - BlockStart(p, v.Bpc())];
    }
  }

  lemma StaleAtBoundary(f: seq<Byte>, buf: seq<Byte>)
    requires |buf| > 0 && |f| % |buf| == 0
    ensures Stale(f, |f|, |buf|, buf) == f
  {
  }

  /** What a write behind the end of the file, inside a cluster, makes of that cluster. */
  lemma StaleAtEnd(f: seq<Byte>, buf: seq<Byte>, b: seq<Byte>)
    requires |buf| > 0 && |f| % |buf| != 0
    ensures BlockStart(|f|, |buf|) <= |f| < BlockStart(|f|, |buf|) + |buf|
    ensures var at := BlockStart(|f|, |buf|);
            |f| + |b| - at <= |buf| && b == buf[|f| - at..|f| + |b| - at] ==>
              Stale(f, |f|, |buf|, buf) + b == f[..at] + buf[..|f| + |b| - at]
  {
    hide BlockStart;
    var at := BlockStart(|f|, |buf|);
    if |f| + |b| - at <= |buf| && b == buf[|f| - at..|f| + |b| - at] {
      assert buf[..|f| - at] + b == buf[..|f| + |b| - at];
      assert Stale(f, |f|, |buf|, buf) == f[..at] + buf[..|f| - at];
    }
  }

  // ---- the whole loop ----

  ghost predicate LoopCopied(v: Vol, t: Job, p: nat, v': Vol, g': Cursor, h': Cursor, n: nat)
    requires t.dst in Files(v)
  {
    && p + n == Min(|t.f|, Stock(Abs(v), t.dst)) && CopyAt(v', t, h', p + n) && OthersAs(Abs(v), Abs(v'), t.dst)
    && Gap(v'.PoolOf()) == Gap(v.PoolOf()) && (exists q :: SourceAt(v', t, g', q))
  }

  /** The loop copies as much as there is and as there is room for; everything else stays as it was. */
  lemma {:induction false} LoopCopies(v: Vol, t: Job, g: Cursor, h: Cursor, p: nat)
    requires CopyAt(v, t, h, p) && SourceAt(v, t, g, p)
    ensures Shaped(v) && g.off < v.Bpc() && h.off < v.Bpc()
    ensures var (v', g', h', n) := CopyLoop(v, g, h, t.dst); LoopCopied(v, t, p, v', g', h', n)
    decreases |t.f| - p
  {
    hide Inv, Handled, Read, WriteFile, Files, Abs, Copied, WithSize, Shaped, Vol.RootEntries, Stock, Gap, CopyAt;
    hide OthersAs, SourceAt;
    CopyParts(v, t, h, p);
    ReadStep(v, t, g, h, p);
    var (v1, g1, out) := Read(v, g, CHUNK);
    ReadStepParts(v, t, h, p, v1, g1, out);
    AbsFields(v);
    AbsFields(v1);
    if out == [] {
      NothingCopied(v, t, p, v1, g1, h);
    } else {
      WriteStep(v1, t, g1, h, p, out);
      var (v2, h1, w) := WriteFile(v1, h, t.dst, out);
      WriteStepParts(v1, t, g1, p, out, v2, h1, w);
      AbsFields(v2);
      if w == |out| {
        LoopCopies(v2, t, g1, h1, p + w);
        var (v3, g3, h3, n) := CopyLoop(v2, g1, h1, t.dst);
        LoopJoins(v, t, p, w, v2, v3, g3, h3, n);
      } else {
        LoopStops(v, t, p, |out|, v2, g1, h1, w);
      }
    }
  }

  lemma CopyParts(v: Vol, t: Job, h: Cursor, p: nat)
    requires CopyAt(v, t, h, p)
    ensures Shaped(v) && h.off < v.Bpc() && t.dst in Files(v) && p <= |t.f| && p <= Stock(Abs(v), t.dst)
  {
    hide Inv, Handled, Files, Abs, Copied, WithSize, Shaped, Vol.RootEntries;
    HandledEntryIs(v, t.j, h, t.dst);
    HandledFile(v, t.j, h, t.dst);
    AbsFields(v);
    MulMono(Files(v)[t.dst].clusters, Files(v)[t.dst].clusters + v.free, v.Bpc());
  }

  lemma ReadStepParts(v: Vol, t: Job, h: Cursor, p: nat, v1: Vol, g1: Cursor, out: seq<Byte>)
    requires ReadStepDone(v, t, h, p, v1, g1, out) && p <= |t.f|
    ensures CopyAt(v1, t, h, p) && ChunkIs(t, p, out) && SourceAt(v1, t, g1, p + |out|) && Abs(v1) == Abs(v)
    ensures v1.PoolOf() == v.PoolOf() && |out| == Min(CHUNK, |t.f| - p)
  {
    hide CopyAt, SourceAt, Abs;
  }

  lemma WriteStepParts(v: Vol, t: Job, g: Cursor, p: nat, out: seq<Byte>, v2: Vol, h1: Cursor, w: nat)
    requires t.dst in Files(v) && WriteStepDone(v, t, g, p, out, v2, h1, w)
    ensures p <= Stock(Abs(v), t.dst) && w == Min(|out|, Stock(Abs(v), t.dst) - p)
    ensures CopyAt(v2, t, h1, p + w) && SourceAt(v2, t, g, p + |out|) && t.dst in Files(v2)
    ensures OthersAs(Abs(v), Abs(v2), t.dst) && Stock(Abs(v2), t.dst) == Stock(Abs(v), t.dst)
    ensures Gap(v2.PoolOf()) == Gap(v.PoolOf())
  {
    hide Handled, Files, Copied, WithSize, SourceAt, Abs, OthersAs, Gap, Stock;
    AbsFields(v2);
  }

  lemma NothingCopied(v: Vol, t: Job, p: nat, v1: Vol, g1: Cursor, h: Cursor)
    requires t.dst in Files(v) && CopyAt(v1, t, h, p) && SourceAt(v1, t, g1, p) && Abs(v1) == Abs(v)
    requires v1.PoolOf() == v.PoolOf() && p == |t.f| <= Stock(Abs(v), t.dst)
    ensures LoopCopied(v, t, p, v1, g1, h, 0)
  {
    hide CopyAt, SourceAt, Files, Abs, Stock;
  }

  lemma LoopStops(v: Vol, t: Job, p: nat, m: nat, v2: Vol, g1: Cursor, h1: Cursor, w: nat)
    requires t.dst in Files(v) && p + w == Stock(Abs(v), t.dst) && w < m && p + m <= |t.f|
    requires CopyAt(v2, t, h1, p + w) && SourceAt(v2, t, g1, p + m)
    requires OthersAs(Abs(v), Abs(v2), t.dst) && Gap(v2.PoolOf()) == Gap(v.PoolOf())
    ensures LoopCopied(v, t, p, v2, g1, h1, w)
  {
    hide CopyAt, SourceAt, Files, Abs, Stock, OthersAs, Gap;
  }

  lemma LoopJoins(v: Vol, t: Job, p: nat, w: nat, v2: Vol, v3: Vol, g3: Cursor, h3: Cursor, n: nat)
    requires t.dst in Files(v) && t.dst in Files(v2) && LoopCopied(v2, t, p + w, v3, g3, h3, n)
    requires OthersAs(Abs(v), Abs(v2), t.dst) && Stock(Abs(v2), t.dst) == Stock(Abs(v), t.dst)
    requires Gap(v2.PoolOf()) == Gap(v.PoolOf())
    ensures LoopCopied(v, t, p, v3, g3, h3, w + n)
  {
    hide CopyAt, SourceAt, Files, Abs, Stock, Gap;
  }

  // ---- the command ----

  /** `cp`: the source must be there and the copy must not; open both, copy, close both. */
  function Copy(v: Vol, src: seq<Byte>, dst: seq<Byte>): (r: (Vol, bool, nat))
    requires Shaped(v)
  {
    var v0 := v.Loaded(v.root);
    if Find(v.RootEntries(), NameOf(src), 0).None? || Find(v.RootEntries(), NameOf(dst), 0).Some? then (v0, false, 0)
    else
      match Open(v0, src, MODE_READ)
      case (v1, None) => (v1, false, 0)
      case (v1, Some(o)) =>
        match Open(v1, dst, MODE_WRITE)
        case (v2, None) => (v2, false, 0)
        case (v2, Some(c)) =>
          if MarksDirectory(o.attr) then (v2, true, 0)
          else var (v3, g, h, n) := CopyLoop(v2, o.cursor, c.cursor, To83(c.filename)); (v3, true, n)
  }

  lemma OpenSource(v: Vol, src: seq<Byte>) returns (i: nat)
    requires Inv(v) && Addressable(v) && NameOf(src) in Files(v) && !Files(v)[NameOf(src)].IsDirectory()
    ensures Shaped(v)
    ensures var (v1, o) := Open(v, src, MODE_READ);
            && o.Some? && !MarksDirectory(o.value.attr) && v1 == v.Loaded(v.root) && Abs(v1) == Abs(v)
            && Handled(v1, i, o.value.cursor, NameOf(src)) && o.value.cursor.pos == 0
  {
    hide Inv, Handled, Open, Shaped, Entries, Find, To83, Files, Abs, AbsFile.IsDirectory, MarksDirectory;
    LoadedInv(v);
    FindIsLookup(v.RootEntries(), NameOf(src));
    OpenFinds(v, src, MODE_READ);
    AbsFields(v);
    i := OpenGivesHandle(v, src, MODE_READ);
    AbsFields(Open(v, src, MODE_READ).0);
  }

  /** A file created beside it leaves an open handle in order. */
  lemma CreateKeepsHandle(v: Vol, name: Name, i: nat, g: Cursor, src: Name)
    requires Handled(v, i, g, src) && name !in Files(v) && Storable(name)
    requires v.free > 0 && Vacancy(v.RootEntries(), 0).Some?
    ensures Shaped(v) && Handled(CreateFile(v, name).0, i, g, src)
  {
    hide Inv, Handled, Entries, CreateWith, Vacancy, Catalog, VacantSlots, FileOf, Gap, OnlyEntry, Storable;
    hide OneEntryChanged, Entry.IsLive;
    HandledInv(v, i, g, src);
    LoadedInv(v);
    LoadedSame(v, v.root);
    HandledUnder(v, v.Loaded(v.root).buf, i, g, src);
    var v0 := v.Loaded(v.root);
    CreateSucceeds(v0, name, ATTR_ARCHIVE);
    var (v', c) := CreateWith(v0, name, ATTR_ARCHIVE);
    var slot := Vacancy(v.RootEntries(), 0).value;
    CreatedInv(v0, v', slot, Entry(name, ATTR_ARCHIVE, c, 0));
    CreatedOnly(v0, v', slot, Entry(name, ATTR_ARCHIVE, c, 0));
    HandleIsLive(v0, i, g, src);
    OthersHandled(v0, v', slot, i, g, src);
  }

  lemma HandleIsLive(v: Vol, i: nat, g: Cursor, src: Name)
    requires Handled(v, i, g, src)
    ensures i < |v.RootEntries()| && !v.RootEntries()[i].IsVacant()
  {
  }

  lemma CreatedOnly(v: Vol, v': Vol, i: nat, e: Entry)
    requires Inv(v') && Created(v, v', i, e) && ChainsIn(v') == ChainsIn(v)[i := [e.first]]
    ensures OnlyEntry(v, v', i)
  {
    hide Inv, Entries, Vol.RootEntries, ChainsIn, Vacancy, Counted, Shaped;
  }

  ghost predicate CopyOpened(v: Vol, i: nat, g: Cursor, src: Name, v2: Vol, o: Opened, j: nat, dst: Name)
  {
    && o.attr == ATTR_ARCHIVE && To83(o.filename) == dst
    && Handled(v2, i, g, src) && Handled(v2, j, o.cursor, dst) && o.cursor.pos == o.cursor.size == 0
    && Abs(v2) == AbsCreate(Abs(v), dst, ATTR_ARCHIVE).0 && v2.root < |v2.data| && v2.buf == v2.data[v2.root]
    && Gap(v2.PoolOf()) == Gap(v.PoolOf()) && |v2.fat| == |v.fat| && v2.Bpc() == v.Bpc()
  }

  lemma OpenCopy(v: Vol, dst: seq<Byte>, i: nat, g: Cursor, src: Name) returns (j: nat)
    requires Handled(v, i, g, src) && NameOf(dst) !in Files(v) && Storable(NameOf(dst))
    requires v.free > 0 && Vacancy(v.RootEntries(), 0).Some?
    ensures Shaped(v)
    ensures var (v2, o) := Open(v, dst, MODE_WRITE); o.Some? && CopyOpened(v, i, g, src, v2, o.value, j, NameOf(dst))
  {
    hide Inv, Handled, Open, Shaped, Entries, Vol.RootEntries, Find, To83, Files, Abs, AbsFile.IsDirectory, Storable;
    hide MarksDirectory, CreateFile, Vacancy, VacantSlots, Gap;
    HandledInv(v, i, g, src);
    HandledEntryIs(v, i, g, src);
    LoadedInv(v);
    FindIsLookup(v.RootEntries(), NameOf(dst));
    OpenMisses(v, dst, MODE_WRITE);
    AbsFields(v);
    j := OpenGivesHandle(v, dst, MODE_WRITE);
    var (v2, o) := Open(v, dst, MODE_WRITE);
    AbsFields(v2);
    CreateKeepsHandle(v, NameOf(dst), i, g, src);
    CreateFileSucceeds(v, NameOf(dst));
    NewFileIsPlain(NameOf(dst), 2);
    HandledFile(v2, j, o.value.cursor, NameOf(dst));
  }

  lemma CreateFileSucceeds(v: Vol, name: Name)
    requires Inv(v) && name !in Files(v) && Storable(name) && v.free > 0 && Vacancy(v.RootEntries(), 0).Some?
    ensures Shaped(v) && CreateFile(v, name).1 != 0 && AbsCreate(Abs(v), name, ATTR_ARCHIVE).1
  {
    hide Inv, Entries, CreateWith, Vacancy, Catalog, VacantSlots, FileOf, Gap, Storable, OneEntryChanged;
    LoadedInv(v);
    LoadedSame(v, v.root);
    CreateSucceeds(v.Loaded(v.root), name, ATTR_ARCHIVE);
    CreateFileRefines(v, name);
  }

  /** The size of a new file is there already. */
  lemma SizeZero(dir: seq<Byte>, j: nat)
    requires j < Count(dir) && Entries(dir)[j].size == 0
    ensures WithSize(dir, j, 0) == dir
  {
    EntryAt(dir, j);
    var w := Window(dir, ENTRY_SIZE * j + 28, 4);
    assert Window(Window(dir, ENTRY_SIZE * j, ENTRY_SIZE), 28, 4) == w;
    assert w == [0, 0, 0, 0] == Le32(0);
  }

  /** The volume once both files are open. */
  function BothOpen(v: Vol, src: seq<Byte>, dst: seq<Byte>): (r: Vol)
    requires Shaped(v)
    ensures Shaped(r) && r.Bpc() == v.Bpc()
  {
    Open(Open(v.Loaded(v.root), src, MODE_READ).0, dst, MODE_WRITE).0
  }

  /** Its directory. */
  function CopyDir(v: Vol, src: seq<Byte>, dst: seq<Byte>): (dir: seq<Byte>)
    requires Shaped(v)
  {
    var v2 := BothOpen(v, src, dst);
    if v2.root < |v2.data| then v2.data[v2.root] else v2.buf
  }

  /** How many bytes the free clusters hold. */
  function FreeBytes(v: Vol): nat { v.free * v.Bpc() }

  /** A file to be copied, to a name that is new, and a cluster and a slot for the copy. */
  ghost predicate MayCopy(v: Vol, src: Name, dst: Name)
  {
    && Inv(v) && Capacity(v) + CHUNK < WORD && v.Bpc() % CHUNK == 0
    && src in Files(v) && !Files(v)[src].IsDirectory() && dst !in Files(v) && Storable(dst)
    && v.free > 0 && Vacancy(v.RootEntries(), 0).Some?
  }

  /** All of `f` that fits has been copied to the new file `name`, which has entry `j` of the directory `dir`, and the
      copy holds what `Copied` says. */
  ghost predicate CopyDone(v: Vol, f: seq<Byte>, name: Name, dir: seq<Byte>, j: nat, v': Vol, ok: bool, n: nat)
  {
    && ok && Inv(v') && n == Min(|f|, FreeBytes(v)) && |f| < WORD && |dir| == v.Bpc() > 0
    && j < Count(dir) && Entries(dir)[j].name == name
    && name in Files(v') && Files(v')[name].bytes == Copied(f, n, dir, j)
    && OthersAs(Abs(v), Abs(v'), name) && Gap(v'.PoolOf()) == Gap(v.PoolOf())
  }

  /** The opened files are ready to be copied. */
  lemma CopyStarts(v: Vol, i: nat, g: Cursor, src: Name, v2: Vol, o: Opened, j: nat, dst: Name) returns (t: Job)
    requires Handled(v, i, g, src) && g.pos == 0 && dst !in Files(v) && src != dst && v.free > 0
    requires CopyOpened(v, i, g, src, v2, o, j, dst) && AbsCreate(Abs(v), dst, ATTR_ARCHIVE).1
    requires Capacity(v) + CHUNK < WORD && v.Bpc() % CHUNK == 0
    ensures src in Files(v) && v2.root < |v2.data| && j < Count(v2.data[v2.root])
    ensures t == Job(i, src, j, dst, Files(v)[src].bytes, v2.data[v2.root])
    ensures CopyAt(v2, t, o.cursor, 0) && SourceAt(v2, t, g, 0) && Stock(Abs(v2), dst) == FreeBytes(v)
    ensures OthersAs(Abs(v), Abs(v2), dst) && Entries(t.dir)[j].name == dst && |t.dir| == v.Bpc() > 0
    ensures Gap(v2.PoolOf()) == Gap(v.PoolOf()) && dst in Files(v2) && To83(o.filename) == dst
  {
    hide Inv, Handled, Files, VacantSlots, Entries, WithSize, AbsFile.IsDirectory, Shaped, To83;
    HandledFile(v, i, g, src);
    HandledFile(v2, i, g, src);
    HandleBelow(v, i, g, src);
    HandledFile(v2, j, o.cursor, dst);
    AbsFields(v);
    AbsFields(v2);
    EntryOfHandle(v2, j, o.cursor, dst);
    t := Job(i, src, j, dst, Files(v)[src].bytes, v2.data[v2.root]);
    SizeZero(t.dir, j);
  }

  lemma EntryOfHandle(v: Vol, j: nat, h: Cursor, name: Name)
    requires Handled(v, j, h, name)
    ensures v.root < |v.data| && |v.data[v.root]| == v.Bpc() && j < Count(v.data[v.root])
    ensures Entries(v.data[v.root])[j].size == h.size && Entries(v.data[v.root])[j].name == name
  {
  }

  lemma CopyIs(v: Vol, src: seq<Byte>, dst: seq<Byte>, v1: Vol, o: Opened, v2: Vol, c: Opened)
    requires Shaped(v) && v1.Bpc() == v.Bpc() && Shaped(v1) && !MarksDirectory(o.attr) && v2.root < |v2.data|
    requires Find(v.RootEntries(), NameOf(src), 0).Some? && Find(v.RootEntries(), NameOf(dst), 0).None?
    requires Open(v.Loaded(v.root), src, MODE_READ) == (v1, Some(o)) && Open(v1, dst, MODE_WRITE) == (v2, Some(c))
    ensures Shaped(v2) && o.cursor.off < v2.Bpc() && c.cursor.off < v2.Bpc()
    ensures var (v3, g, h, n) := CopyLoop(v2, o.cursor, c.cursor, To83(c.filename)); Copy(v, src, dst) == (v3, true, n)
    ensures CopyDir(v, src, dst) == v2.data[v2.root]
  {
    hide Open, CopyLoop, Shaped, Find, To83, MarksDirectory, Vol.RootEntries;
  }

  /** What `cp` does: sound volume, all other files as they were, as many bytes as fit, and of these what the shared
      buffer makes of them. */
  lemma CopyGives(v: Vol, src: seq<Byte>, dst: seq<Byte>) returns (j: nat)
    requires MayCopy(v, NameOf(src), NameOf(dst))
    ensures Shaped(v)
    ensures var (v', ok, n) := Copy(v, src, dst);
            && NameOf(src) in Files(v)
            && CopyDone(v, Files(v)[NameOf(src)].bytes, NameOf(dst), CopyDir(v, src, dst), j, v', ok, n)
  {
    hide Inv, Handled, Open, CopyLoop, Shaped, Entries, Vol.RootEntries, Find, To83, Files, Abs, AbsFile.IsDirectory;
    hide Storable, MarksDirectory, Vacancy, VacantSlots, Gap, Stock, OthersAs, CopyAt, SourceAt, AbsCreate, CopyOpened;
    hide Copied, Copy, CopyDir, LoopCopied, CopyDone;
    LoadedInv(v);
    FindIsLookup(v.RootEntries(), NameOf(src));
    FindIsLookup(v.RootEntries(), NameOf(dst));
    AbsFields(v);
    var v0 := v.Loaded(v.root);
    LoadedSame(v, v.root);
    AbsFields(v0);
    var i := OpenSource(v0, src);
    var (v1, o) := Open(v0, src, MODE_READ);
    assert v1.PoolOf() == v.PoolOf() && v1.RootEntries() == v.RootEntries();
    AbsFields(v1);
    j := OpenCopy(v1, dst, i, o.value.cursor, NameOf(src));
    var (v2, c) := Open(v1, dst, MODE_WRITE);
    CreateFileSucceeds(v1, NameOf(dst));
    var t := CopyStarts(v1, i, o.value.cursor, NameOf(src), v2, c.value, j, NameOf(dst));
    CopyIs(v, src, dst, v1, o.value, v2, c.value);
    LoopCopies(v2, t, o.value.cursor, c.value.cursor, 0);
    var (v3, g, h, n) := CopyLoop(v2, o.value.cursor, c.value.cursor, NameOf(dst));
    LoopIsCopy(v, v2, t, v3, g, h, n);
  }

  lemma LoopIsCopy(v: Vol, v2: Vol, t: Job, v3: Vol, g: Cursor, h: Cursor, n: nat)
    requires t.dst in Files(v2) && LoopCopied(v2, t, 0, v3, g, h, n) && OthersAs(Abs(v), Abs(v2), t.dst)
    requires t.dst !in Files(v) && Stock(Abs(v2), t.dst) == FreeBytes(v) && Gap(v2.PoolOf()) == Gap(v.PoolOf())
    requires |t.dir| == v.Bpc() > 0 && t.j < Count(t.dir) && Entries(t.dir)[t.j].name == t.dst
    ensures CopyDone(v, t.f, t.dst, t.dir, t.j, v3, true, n)
  {
    hide Handled, Abs, Gap, Entries, Stock, Copied, WithSize, SourceAt, Inv, Files;
    HandledInv(v3, t.j, h, t.dst);
  }

  // ---- when the copy is right ----

  /** Every cluster of `f` that takes more than one chunk looks like the directory. */
  predicate LooksLikeDirectory(f: seq<Byte>, dir: seq<Byte>, j: nat)
    requires |f| < WORD && |dir| > 0 && j < Count(dir)
  {
    forall q {:trigger f[q]} :: 0 <= q < |f| ==>
      var at := BlockStart(q, |dir|);
      var end := Min(|f|, at + |dir|);
      end - at > CHUNK ==> f[q] == WithSize(dir, j, LastChunk(at, end))[q - at]
  }

  /** A file that begins with another byte does not. */
  lemma FirstByteTells(f: seq<Byte>, dir: seq<Byte>, j: nat)
    requires CHUNK < |f| < WORD && |dir| > CHUNK && j < Count(dir) && f[0] != dir[0]
    ensures !LooksLikeDirectory(f, dir, j)
  {
    assert BlockStart(0, |dir|) == 0;
    assert WithSize(dir, j, LastChunk(0, Min(|f|, |dir|)))[0] == dir[0];
  }

  lemma CopiedIsRightIff(f: seq<Byte>, dir: seq<Byte>, j: nat)
    requires |f| < WORD && |dir| > 0 && j < Count(dir)
    ensures Copied(f, |f|, dir, j) == f <==> |f| <= CHUNK || |dir| <= CHUNK || LooksLikeDirectory(f, dir, j)
  {
    hide WithSize;
    var c := Copied(f, |f|, dir, j);
    if c == f {
      forall q {:trigger f[q]} | 0 <= q < |f|
        ensures c[q] == f[q] == CopiedByte(f, |f|, dir, j, q)
      {
      }
    } else {
      var q :| 0 <= q < |f| && c[q] != f[q];
      assert c[q] == CopiedByte(f, |f|, dir, j, q);
    }
  }

  /** `cp` of a file for which there is room: the copy is the file exactly when the file is no longer than 512 bytes,
      the clusters of the volume are no longer than that, or the file looks like the directory. */
  lemma CopyIsRightIff(v: Vol, src: seq<Byte>, dst: seq<Byte>) returns (j: nat)
    requires MayCopy(v, NameOf(src), NameOf(dst)) && |Files(v)[NameOf(src)].bytes| <= FreeBytes(v)
    ensures Shaped(v) && NameOf(src) in Files(v)
    ensures var f, dir := Files(v)[NameOf(src)].bytes, CopyDir(v, src, dst); var (v', ok, n) := Copy(v, src, dst);
            && CopyDone(v, f, NameOf(dst), dir, j, v', ok, n) && n == |f|
            && (Files(v')[NameOf(dst)].bytes == f <==>
                  |f| <= 512 || v.Bpc() <= 512 || LooksLikeDirectory(f, dir, j))
  {
    hide Inv, Copy, CopyDir, Shaped, Copied, Files, Abs, LooksLikeDirectory, Vol.RootEntries, Entries, OthersAs, Gap;
    j := CopyGives(v, src, dst);
    CopiedIsRightIff(Files(v)[NameOf(src)].bytes, CopyDir(v, src, dst), j);
  }
}
