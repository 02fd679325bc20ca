/**
 Open files: the handle table and the loops of `fs_open`, `fs_read`, `fs_write` and `fs_seek` on the mounted
 volume. Reading and seeking only need the table to be navigable; writing follows the chain of the open file.
 */
module DriverFiles {
  import opened Bytes
  import opened FatImage
  import opened Chains
  import opened Allocator
  import opened Names
  import opened Directory
  import opened VolumeState
  import opened FileContent
  import opened FileWrite
  import opened VolumeOps
  import opened AbstractFs
  import opened OpenHandles
  import opened Driver
  import opened DriverDirectory

  /** Every link in the table leads to a cluster of the volume or to an end. */
  ghost predicate Linked(fat: seq<nat>)
  {
    forall c: nat :: InRange(fat, c) ==> fat[c] < |fat| || fat[c] >= FAT32_EOC
  }

  /** A cursor that stands on a cluster of the volume or at an end. */
  ghost predicate Standing(v: Vol, h: Cursor)
  {
    h.off < v.Bpc() && h.first < |v.fat| && (h.cur < |v.fat| || h.cur >= FAT32_EOC)
  }

  /** Sound volumes are linked, and their entries start inside. */
  lemma SoundIsLinked(v: Vol)
    requires Inv(v)
    ensures HeadsInside(v) && Linked(v.fat)
  {
    hide Entries, Entry.IsLive, DirOk, Counted, Fitting;
    var es, chains := v.RootEntries(), ChainsIn(v);
    InvParts(v);
    forall c: nat | InRange(v.fat, c)
      ensures v.fat[c] < |v.fat| || v.fat[c] >= FAT32_EOC
    {
      if v.fat[c] != FAT32_FREE && c != v.root {
        assert Covered(chains, c);
        var i :| 0 <= i < |chains| && c in chains[i];
        assert Heading(v.root, Heads(es)[i], v.fat, chains[i]);
        var k :| 0 <= k < |chains[i]| && chains[i][k] == c;
        if k + 1 < |chains[i]| { assert v.fat[chains[i][k]] == chains[i][k + 1]; }
      }
    }
    forall i: nat | i < |es| && es[i].IsLive()
      ensures es[i].first < |v.fat|
    {
      assert Heading(v.root, Heads(es)[i], v.fat, chains[i]);
    }
  }

  // ---- seek ----

  /** One step of a cursor inside its cluster, and on to the next cluster when that is used up. */
  method Advance(fs: Volume, h: FileHandle, m: nat)
    requires fs.Valid() && fs.mounted && h.clusterOffset + m <= fs.g.Bpc()
    modifies h`position, h`clusterOffset, h`currentCluster
    ensures Shaped(fs.State()) && fs.State().Bpc() == fs.g.Bpc() > 0
            && h.At() == Moved(fs.State().fat, fs.g.Bpc(), old(h.At()), m)
  {
    hide FatTable, ClusterTable, Mirrored, Fits, Volume.State, Volume.Valid;
    BufferSize(fs);
    h.position := h.position + m;
    h.clusterOffset := h.clusterOffset + m;
    if h.clusterOffset >= fs.g.Bpc() {
      h.currentCluster := fs.GetFat(h.currentCluster);
      h.clusterOffset := 0;
    }
  }

  /** One turn of the seek loop. */
  lemma SeekTurn(v: Vol, h: Cursor, target: nat)
    requires Shaped(v) && h.off < v.Bpc() && h.pos < target && 2 <= h.cur < FAT32_EOC
    ensures var m := Min(target - h.pos, v.Bpc() - h.off); var h1 := Moved(v.fat, v.Bpc(), h, m);
            && 0 < m && h1.pos == h.pos + m && h1.off < v.Bpc() && SeekLoop(v, h, target) == SeekLoop(v, h1, target)
  {
  }

  /** `fs_seek`. */
  method SeekTo(fs: Volume, h: FileHandle, position: nat) returns (ok: bool)
    requires fs.Valid() && fs.mounted
    modifies h`position, h`clusterOffset, h`currentCluster
    ensures ok == (h.inUse && !h.isDirectory) && Shaped(fs.State())
    ensures h.At() == if ok then Seek(fs.State(), old(h.At()), position) else old(h.At())
  {
    hide FatTable, ClusterTable, Mirrored, Fits, Moved, Linked, SeekLoop, Volume.State, Volume.Valid;
    BufferSize(fs);
    hide Shaped;
    if !h.inUse || h.isDirectory { return false; }
    ghost var v, start := fs.State(), h.At();
    var target := if position > h.fileSize then h.fileSize else position;
    h.currentCluster, h.clusterOffset, h.position := h.firstCluster, 0, 0;
    while h.position < target && 2 <= h.currentCluster < FAT32_EOC
      invariant fs.Valid() && fs.State() == v && h.clusterOffset < v.Bpc()
      invariant SeekLoop(v, h.At(), target) == Seek(v, start, position)
      invariant h.position <= target
      decreases target - h.position
    {
      SeekTurn(v, h.At(), target);
      Advance(fs, h, Min(target - h.position, fs.g.Bpc() - h.clusterOffset));
    }
    SeekStops(v, h.At(), target);
    return true;
  }

  lemma SeekStops(v: Vol, h: Cursor, target: nat)
    requires Shaped(v) && h.off < v.Bpc() && (h.pos >= target || !(2 <= h.cur < FAT32_EOC))
    ensures SeekLoop(v, h, target) == h
  {
  }

  /** `fs_tell`. */
  method Tell(h: FileHandle) returns (position: nat)
    ensures position == if h.inUse then h.position else 0
  {
    if !h.inUse { return 0; }
    return h.position;
  }

  // ---- read ----

  /** Bytes copied out of the shared buffer. */
  method CopyOut(fs: Volume, off: nat, m: nat, dst: array<Byte>, at: nat)
    requires fs.Valid() && fs.mounted && off + m <= fs.g.Bpc() && at + m <= dst.Length && dst != fs.buffer
             && dst != fs.ramdisk
    modifies dst
    ensures fs.Valid() && fs.State() == old(fs.State()) && off + m <= |fs.State().buf|
    ensures dst[..at + m] == old(dst[..at]) + Window(fs.State().buf, off, m) && dst[at + m..] == old(dst[at + m..])
  {
    hide FatTable, ClusterTable, Mirrored, Fits, Splice;
    ghost var before := dst[..];
    assert fs.State().buf == fs.buffer[..fs.g.Bpc()];
    PrefixWindow(fs.buffer[..], fs.g.Bpc(), off, m);
    SpliceSides(before, at, fs.buffer[off..off + m]);
    Poke(dst, at, fs.buffer[off..off + m]);
  }

  lemma PrefixWindow(s: seq<Byte>, n: nat, off: nat, m: nat)
    requires off + m <= n <= |s|
    ensures Window(s[..n], off, m) == s[off..off + m]
  {
  }

  lemma SpliceSides(s: seq<Byte>, at: nat, t: seq<Byte>)
    requires at + |t| <= |s|
    ensures Splice(s, at, t)[..at + |t|] == s[..at] + t && Splice(s, at, t)[at + |t|..] == s[at + |t|..]
  {
  }

  /** One turn of the read loop, and what is left of it. */
  lemma ReadStep(v: Vol, h: Cursor, n: nat)
    requires Shaped(v) && Standing(v, h) && Linked(v.fat) && 0 < n && InRange(v.fat, h.cur)
    ensures var m := Min(n, v.Bpc() - h.off); var h1 := Moved(v.fat, v.Bpc(), h, m);
            var v1 := if h.off == 0 then v.Loaded(h.cur) else v;
            && 0 < m && Shaped(v1) && v1.Bpc() == v.Bpc() && v1.fat == v.fat && v1 == v.(buf := v1.buf)
            && Standing(v1, h1)
            && var rest := ReadLoop(v1, h1, n - m);
               ReadLoop(v, h, n) == (rest.0, rest.1, Window(v1.buf, h.off, m) + rest.2)
  {
  }

  lemma ReadStops(v: Vol, h: Cursor, n: nat)
    requires Shaped(v) && h.off < v.Bpc() && (n == 0 || !InRange(v.fat, h.cur))
    ensures ReadLoop(v, h, n) == (v, h, [])
  {
  }

  /** The loop of `fs_read`. */
  method ReadChunks(fs: Volume, h: FileHandle, dst: array<Byte>, size: nat) returns (n: nat)
    requires fs.Valid() && fs.mounted && Linked(fs.State().fat) && Standing(fs.State(), h.At())
    requires size <= dst.Length && dst != fs.buffer && dst != fs.ramdisk
    modifies fs.buffer, dst, h`position, h`clusterOffset, h`currentCluster
    ensures fs.Valid() && Shaped(old(fs.State())) && n <= size
    ensures (fs.State(), h.At(), dst[..n]) == ReadLoop(old(fs.State()), old(h.At()), size)
    ensures dst[n..] == old(dst[n..])
  {
    hide FatTable, ClusterTable, Mirrored, Fits, Moved, Linked, ReadLoop, Volume.State, Volume.Valid;
    BufferSize(fs);
    ReadStops(fs.State(), h.At(), 0);
    hide Shaped;
    ghost var v := fs.State();
    ghost var whole := ReadLoop(v, h.At(), size);
    n := 0;
    ghost var got: seq<Byte> := [];
    assert got + whole.2 == whole.2;
    while n < size && 2 <= h.currentCluster < FAT32_EOC
      invariant fs.Valid() && n <= size && Linked(fs.State().fat) && Standing(fs.State(), h.At())
      invariant Shaped(fs.State()) && fs.State().Bpc() == fs.g.Bpc() && fs.State().fat == v.fat
      invariant dst[n..] == old(dst[n..])
      invariant var rest := ReadLoop(fs.State(), h.At(), size - n); whole == (rest.0, rest.1, got + rest.2)
      invariant got == dst[..n]
      decreases size - n
    {
      ghost var from := n;
      n := ReadChunk(fs, h, dst, n, size);
      ghost var rest := ReadLoop(fs.State(), h.At(), size - n).2;
      assert got + (dst[from..n] + rest) == (got + dst[from..n]) + rest;
      got := got + dst[from..n];
      assert got == dst[..n];
    }
    ReadStops(fs.State(), h.At(), size - n);
    assert dst[..n] + [] == dst[..n];
  }

  /** One turn of it. */
  method ReadChunk(fs: Volume, h: FileHandle, dst: array<Byte>, n: nat, size: nat) returns (n': nat)
    requires fs.Valid() && fs.mounted && Linked(fs.State().fat) && Standing(fs.State(), h.At()) && n < size
             && InRange(fs.State().fat, h.currentCluster)
    requires size <= dst.Length && dst != fs.buffer && dst != fs.ramdisk
    modifies fs.buffer, dst, h`position, h`clusterOffset, h`currentCluster
    ensures fs.Valid() && n < n' <= size && Standing(fs.State(), h.At()) && fs.State().fat == old(fs.State()).fat
    ensures Shaped(old(fs.State())) && Shaped(fs.State()) && fs.State().Bpc() == fs.g.Bpc()
    ensures dst[n'..] == old(dst[n'..])
    ensures var rest := ReadLoop(fs.State(), h.At(), size - n');
            n <= n' && dst[..n] == old(dst[..n])
                && ReadLoop(old(fs.State()), old(h.At()), size - n) == (rest.0, rest.1, dst[n..n'] + rest.2)
  {
    hide FatTable, ClusterTable, Mirrored, Fits, Moved, Linked, ReadLoop, Volume.State, Volume.Valid;
    BufferSize(fs);
    hide Shaped;
    ReadStep(fs.State(), h.At(), size - n);
    ClusterNumbers(fs);
    if h.clusterOffset == 0 { var read := fs.ReadCluster(h.currentCluster); }
    var m := Min(size - n, fs.g.Bpc() - h.clusterOffset);
    n' := n + m;
    BufferSize(fs);
    ghost var before := dst[..];
    ghost var w := fs.State();
    CopyOut(fs, h.clusterOffset, m, dst, n);
    ghost var chunk := Window(w.buf, h.clusterOffset, m);
    assert dst[..n'] == before[..n] + chunk;
    assert dst[n..n'] == dst[..n'][n..] == chunk;
    Advance(fs, h, m);
    assert dst[n'..] == before[n'..];
  }

  /** Links and cursor stay inside the volume. */
  ghost predicate Readable(v: Vol, h: Cursor) { Linked(v.fat) && Standing(v, h) && h.size < WORD }

  /** `fs_read` into `dst`. */
  method ReadFile(fs: Volume, h: FileHandle, dst: array<Byte>, size: nat) returns (n: nat)
    requires fs.Valid() && fs.mounted && size <= dst.Length && dst != fs.buffer && dst != fs.ramdisk
    requires h.inUse && !h.isDirectory ==> Readable(fs.State(), h.At())
    requires h.inUse && !h.isDirectory && h.position < h.fileSize && (h.position + size) % WORD > h.fileSize ==>
             h.fileSize - h.position <= dst.Length
    modifies fs.buffer, dst, h`position, h`clusterOffset, h`currentCluster
    ensures fs.Valid() && n <= dst.Length && dst[n..] == old(dst[n..]) && Shaped(old(fs.State()))
    ensures if h.inUse && !h.isDirectory then (fs.State(), h.At(), dst[..n]) == Read(old(fs.State()), old(h.At()), size)
            else n == 0 && fs.State() == old(fs.State()) && h.At() == old(h.At())
  {
    hide FatTable, ClusterTable, Mirrored, Fits, Moved, Linked, ReadLoop, Volume.State, Volume.Valid;
    BufferSize(fs);
    hide Shaped;
    if !h.inUse || h.isDirectory { return 0; }
    if h.position >= h.fileSize { return 0; }
    n := ReadChunks(fs, h, dst, if (h.position + size) % WORD > h.fileSize then h.fileSize - h.position else size);
  }

  // ---- write ----

  /** The loop of `fs_write` that looks for the last cluster of the chain. */
  method FindLast(fs: Volume, first: nat) returns (last: nat)
    requires fs.Valid() && fs.mounted && GoodChain(fs.State().fat, first)
    ensures var ch := Chain(fs.State().fat, first); ch != [] && last == ch[|ch| - 1]
  {
    ghost var ch := Chain(fs.State().fat, first);
    hide FatTable, ClusterTable, Mirrored, Fits, Chain, Volume.State, Volume.Valid;
    last := first;
    ghost var k: nat := 0;
    while true
      invariant k < |ch| && last == ch[k]
      decreases |ch| - k
    {
      OnChain(fs, ch, k);
      var next := fs.GetFat(last);
      if next >= FAT32_EOC { break; }
      last := next;
      k := k + 1;
    }
  }

  /** A fresh cluster does not disturb a chain. */
  lemma ChainAfterAllocate(p: Pool, first: nat)
    requires PoolOk(p) && GoodChain(p.fat, first)
    ensures GoodChain(Allocate(p).0.fat, first) && Chain(Allocate(p).0.fat, first) == Chain(p.fat, first)
  {
    ScanResult(p.fat, p.hint, |p.fat|);
    ScanResult(p.fat, 2, p.hint);
    ChainNotFree(p.fat, Chain(p.fat, first));
    ChainFrame(p.fat, Allocate(p).0.fat, first);
  }

  /** Link cluster `c` behind the last one of the chain. */
  method LinkBehind(fs: Volume, first: nat, c: nat)
    requires fs.Valid() && fs.mounted && GoodChain(fs.State().fat, first) && c < |fs.State().fat|
    modifies fs.ramdisk, fs`mirrored
    ensures fs.Valid() && fs.mirrored >= old(fs.mirrored)
    ensures fs.State() == old(fs.State()).(fat := LinkLast(old(fs.State()).fat, first, c))
  {
    hide FatTable, ClusterTable, Mirrored, Fits, Chain, Volume.State, Volume.Valid;
    ClusterNumbers(fs);
    ghost var ch := Chain(fs.State().fat, first);
    var last := FindLast(fs, first);
    OnChain(fs, ch, |ch| - 1);
    var linked := fs.SetFat(last, c);
  }

  /** Allocate and link a cluster when the cursor is not on one. */
  method GrowFile(fs: Volume, h: FileHandle) returns (ok: bool)
    requires fs.Valid() && fs.mounted && Standing(fs.State(), h.At())
    requires h.firstCluster >= 2 ==> GoodChain(fs.State().fat, h.firstCluster)
    modifies fs.ramdisk, fs.buffer, fs`mirrored, fs`freeClusters, fs`nextFree, h`firstCluster, h`currentCluster,
        h`clusterOffset
    ensures fs.Valid() && fs.mirrored >= old(fs.mirrored) && Shaped(old(fs.State()))
    ensures (fs.State(), h.At(), ok) == Grow(old(fs.State()), old(h.At()))
  {
    hide FatTable, ClusterTable, Mirrored, Fits, Allocate, Chain, LinkLast, Volume.State, Volume.Valid;
    fs.CountersOfState();
    ClusterNumbers(fs);
    hide Shaped;
    ghost var v := fs.State();
    if h.currentCluster < 2 || h.currentCluster >= FAT32_EOC {
      AllocateInRange(v.PoolOf());
      if h.firstCluster >= 2 { ChainAfterAllocate(v.PoolOf(), h.firstCluster); }
      hide GoodChain;
      var c := fs.AllocateCluster();
      if c == 0 {
        assert fs.State() == v;
        return false;
      }
      fs.ClearBuffer();
      if h.firstCluster < 2 {
        h.firstCluster := c;
      } else {
        LinkBehind(fs, h.firstCluster, c);
      }
      h.currentCluster, h.clusterOffset := c, 0;
    }
    return true;
  }

  /** Fill the rest of the current cluster, or as much of it as the bytes from `at` on need. */
  method PutBytes(fs: Volume, h: FileHandle, src: seq<Byte>, at: nat) returns (m: nat)
    requires fs.Valid() && fs.mounted && InRange(fs.State().fat, h.currentCluster) && h.clusterOffset < fs.g.Bpc()
             && at < |src|
    modifies fs.ramdisk, fs.buffer, h`position, h`clusterOffset, h`currentCluster, h`fileSize
    ensures fs.Valid() && Shaped(old(fs.State())) && old(fs.State()).Bpc() == fs.g.Bpc()
    ensures (fs.State(), h.At(), m) == Put(old(fs.State()), old(h.At()), src[at..])
  {
    hide FatTable, ClusterTable, Mirrored, Fits, Splice, Volume.State, Volume.Valid;
    ClusterNumbers(fs);
    fs.CountersOfState();
    BufferSize(fs);
    if h.clusterOffset == 0 { var read := fs.ReadCluster(h.currentCluster); }
    var room := fs.g.Bpc() - h.clusterOffset;
    m := if |src| - at < room then |src| - at else room;
    assert src[at..at + m] == src[at..][..m];
    fs.PokeBuffer(h.clusterOffset, src[at..at + m]);
    var stored := fs.WriteCluster(h.currentCluster);
    MoveOn(fs, h, m);
  }

  /** The handle after `m` bytes written to its cluster. */
  method MoveOn(fs: Volume, h: FileHandle, m: nat)
    requires fs.Valid() && fs.mounted && h.clusterOffset + m <= fs.g.Bpc()
    modifies h`position, h`clusterOffset, h`currentCluster, h`fileSize
    ensures Shaped(fs.State()) && fs.State().Bpc() == fs.g.Bpc() > 0
    ensures var h0 := old(h.At()); var h1 := Moved(fs.State().fat, fs.g.Bpc(), h0, m);
            h.At() == h1.(size := Max(h0.size, h1.pos),
                          cur := if h0.off + m == fs.g.Bpc() && h1.cur >= FAT32_EOC then FAT32_EOC else h1.cur)
  {
    hide FatTable, ClusterTable, Mirrored, Fits, Volume.State, Volume.Valid;
    BufferSize(fs);
    h.position := h.position + m;
    h.clusterOffset := h.clusterOffset + m;
    if h.position > h.fileSize { h.fileSize := h.position; }
    if h.clusterOffset >= fs.g.Bpc() {
      var next := fs.GetFat(h.currentCluster);
      h.currentCluster := if next >= FAT32_EOC then FAT32_EOC else next;
      h.clusterOffset := 0;
    }
  }

  /** `update_file_size`. */
  method StoreSize(fs: Volume, filename: seq<Byte>, size: nat)
    requires fs.Valid() && fs.mounted
    modifies fs.ramdisk, fs.buffer
    ensures fs.Valid() && Shaped(old(fs.State())) && fs.State() == UpdateSize(old(fs.State()), To83(filename), size)
  {
    hide FatTable, ClusterTable, Mirrored, Fits, Entries, Splice, Find, To83, Volume.State, Volume.Valid;
    BufferSize(fs);
    RootInside(fs);
    ghost var v := fs.State();
    LoadRoot(fs);
    var name := Converted(filename);
    var slot := ScanForName(fs, name);
    if slot.None? { return; }
    FoundInBuffer(v, name, slot.value);
    BufferSize(fs);
    SlotInside(fs, slot.value);
    fs.PokeBuffer(ENTRY_SIZE * slot.value + 28, Le32(size % WORD));
    var stored := fs.WriteCluster(fs.cwd);
  }

  /** The handle's file is entry `i` of a volume whose chains are sound, and its cursor is in block `k`. */
  ghost predicate OpenOn(v: Vol, h: Cursor, i: nat, k: nat)
  {
    Placed(v, Heads(v.RootEntries()), ChainsIn(v), i, h, k)
  }

  /** While writing, the cursor stands on the volume and its chain is sound. */
  lemma PlacedStands(v: Vol, heads: seq<Option<nat>>, chains: seq<seq<nat>>, i: nat, h: Cursor, k: nat)
    requires Placed(v, heads, chains, i, h, k)
    ensures Shaped(v) && Standing(v, h) && h.off < v.Bpc() && GoodChain(v.fat, h.first) && i < |chains| && i < |heads|
  {
    WritingChain(v, heads, chains, i, h, k);
    ChainFound(v.fat, chains[i]);
    assert InRange(v.fat, chains[i][0]);
    if k < |chains[i]| { assert InRange(v.fat, chains[i][k]); }
  }

  /** One turn of the write loop on a volume, its result, and what the rest of the loop will make of it. */
  ghost predicate TurnDone(v: Vol, h: Cursor, b: seq<Byte>, heads: seq<Option<nat>>, chains': seq<seq<nat>>, i: nat,
      k': nat)
    requires Shaped(v) && h.off < v.Bpc() && b != []
  {
    var (v1, h1, ok) := Grow(v, h);
    if !ok then WriteLoop(v, h, b) == (v, h, 0) && v1 == v && h1 == h
    else
      && InRange(v1.fat, h1.cur) && h1.off < v1.Bpc()
      && var (v2, h2, m) := Put(v1, h1, b);
         && Placed(v2, heads, chains', i, h2, k') && Shaped(v2) && h2.off < v2.Bpc()
         && var (v3, h3, w) := WriteLoop(v2, h2, b[m..]);
            WriteLoop(v, h, b) == (v3, h3, m + w)
  }

  /** One turn of the write loop when the buffer holds the current cluster. */
  lemma WritingStep(v: Vol, heads: seq<Option<nat>>, chains: seq<seq<nat>>, i: nat, h: Cursor, k: nat, b: seq<Byte>)
    returns (chains': seq<seq<nat>>, k': nat)
    requires Writing(v, heads, chains, i, h, k) && b != []
    ensures Shaped(v) && h.off < v.Bpc() && TurnDone(v, h, b, heads, chains', i, k')
  {
    hide Grow, Put, Writing, Placed, Shaped;
    WritingChain(v, heads, chains, i, h, k);
    chains' := GrowKeepsWriting(v, heads, chains, i, h, k);
    k' := k;
    var (v1, h1, ok) := Grow(v, h);
    GrowFails(v, h);
    if ok {
      WritingChain(v1, heads, chains', i, h1, k);
      PutKeepsWriting(v1, heads, chains', i, h1, k, b);
      k' := if h1.off + Put(v1, h1, b).2 == v1.Bpc() then k + 1 else k;
      var (v2, h2, m) := Put(v1, h1, b);
      WritingChain(v2, heads, chains', i, h2, k');
      WritingIsPlaced(v2, heads, chains', i, h2, k');
      WriteTurn(v, h, b, v1, h1, v2, h2, m);
    }
  }

  /** One turn of the write loop, whatever the buffer holds. */
  lemma WriteStep(v: Vol, heads: seq<Option<nat>>, chains: seq<seq<nat>>, i: nat, h: Cursor, k: nat, b: seq<Byte>)
    returns (chains': seq<seq<nat>>, k': nat)
    requires Placed(v, heads, chains, i, h, k) && b != []
    ensures Shaped(v) && h.off < v.Bpc() && TurnDone(v, h, b, heads, chains', i, k')
  {
    ImposedIsWriting(v, heads, chains, i, h, k);
    WritingChain(v, heads, chains, i, h, k);
    hide Placed, Writing;
    chains', k' := WritingStep(Imposed(v, h), heads, chains, i, h, k, b);
    TurnIgnoresDisk(v, h, b, heads, chains', i, k');
  }

  lemma TurnIgnoresDisk(v: Vol, h: Cursor, b: seq<Byte>, heads: seq<Option<nat>>, chains': seq<seq<nat>>, i: nat,
      k': nat)
    requires Shaped(v) && h.off < v.Bpc() && b != [] && (h.off != 0 ==> InRange(v.fat, h.cur))
    requires TurnDone(Imposed(v, h), h, b, heads, chains', i, k')
    ensures TurnDone(v, h, b, heads, chains', i, k')
  {
    hide Placed, WriteLoop, Put, Shaped;
    WriteIgnoresDisk(v, h, b);
    if h.off != 0 {
      PutIgnoresDisk(v, h, b);
      assert Grow(v, h) == (v, h, true) && Grow(Imposed(v, h), h) == (Imposed(v, h), h, true);
    }
  }

  lemma GrowFails(v: Vol, h: Cursor)
    requires Shaped(v)
    ensures !Grow(v, h).2 ==> Grow(v, h).0 == v && Grow(v, h).1 == h
  {
    hide Allocate, LinkLast;
  }

  /** The loop of `fs_write`. */
  method WriteChunks(fs: Volume, h: FileHandle, src: seq<Byte>, ghost heads: seq<Option<nat>>,
      ghost chains: seq<seq<nat>>, ghost i: nat, ghost k: nat)
    returns (n: nat)
    requires fs.Valid() && fs.mounted && Placed(fs.State(), heads, chains, i, h.At(), k)
    modifies fs.ramdisk, fs.buffer, fs`mirrored, fs`freeClusters, fs`nextFree
    modifies h`position, h`clusterOffset, h`currentCluster, h`firstCluster, h`fileSize
    ensures fs.Valid() && fs.mirrored >= old(fs.mirrored) && Shaped(old(fs.State()))
            && old(h.At()).off < old(fs.State()).Bpc()
    ensures (fs.State(), h.At(), n) == WriteLoop(old(fs.State()), old(h.At()), src)
  {
    hide FatTable, ClusterTable, Mirrored, Fits, Grow, Put, Placed, WriteLoop, Standing, GoodChain, Volume.State;
    hide Volume.Valid;
    PlacedStands(fs.State(), heads, chains, i, h.At(), k);
    hide Shaped;
    ghost var whole := WriteLoop(fs.State(), h.At(), src);
    ghost var cs, j := chains, k;
    assert src[0..] == src;
    n := 0;
    while n < |src|
      invariant fs.Valid() && fs.mirrored >= old(fs.mirrored) && n <= |src|
                && Placed(fs.State(), heads, cs, i, h.At(), j)
      invariant Shaped(fs.State()) && h.At().off < fs.State().Bpc()
      invariant var rest := WriteLoop(fs.State(), h.At(), src[n..]); whole == (rest.0, rest.1, n + rest.2)
    {
      PlacedStands(fs.State(), heads, cs, i, h.At(), j);
      cs, j := WriteStep(fs.State(), heads, cs, i, h.At(), j, src[n..]);
      var ok := GrowFile(fs, h);
      if !ok { return; }
      SizesAgree(fs);
      var m := PutBytes(fs, h, src, n);
      assert src[n..][m..] == src[n + m..];
      n := n + m;
    }
    NothingLeft(fs.State(), h.At(), src[n..]);
  }

  lemma SizesAgree(fs: Volume)
    requires fs.Valid() && fs.mounted
    ensures fs.State().Bpc() == fs.g.Bpc() > 0
  {
    BufferSize(fs);
  }

  lemma NothingLeft(v: Vol, h: Cursor, b: seq<Byte>)
    requires Shaped(v) && h.off < v.Bpc() && b == []
    ensures WriteLoop(v, h, b) == (v, h, 0)
  {
  }

  /** `fs_write` did on the state what `WriteFile` says. */
  ghost predicate WroteFile(v: Vol, h: Cursor, name: Name, b: seq<Byte>, v': Vol, h': Cursor, n: nat)
  {
    Shaped(v) && h.off < v.Bpc() && (v', h', n) == WriteFile(v, h, name, b)
  }

  /** `fs_write`. Through a handle on a file of a sound volume that the handle's name finds again, it is the write on
      the map of files, with what is in the shared buffer. */
  method WriteTo(fs: Volume, h: FileHandle, src: seq<Byte>, ghost i: nat, ghost k: nat) returns (n: nat)
    requires fs.Valid() && fs.mounted && (h.inUse && !h.isDirectory ==> OpenOn(fs.State(), h.At(), i, k))
    modifies fs.ramdisk, fs.buffer, fs`mirrored, fs`freeClusters, fs`nextFree
    modifies h`position, h`clusterOffset, h`currentCluster, h`firstCluster, h`fileSize
    ensures fs.Valid() && fs.mirrored >= old(fs.mirrored)
    ensures if h.inUse && !h.isDirectory
            then WroteFile(old(fs.State()), old(h.At()), To83(h.filename), src, fs.State(), h.At(), n)
            else n == 0 && fs.State() == old(fs.State()) && h.At() == old(h.At())
    ensures h.inUse && !h.isDirectory && Handled(old(fs.State()), i, old(h.At()), To83(h.filename)) ==>
              WroteSoundly(old(fs.State()), i, old(h.At()), To83(h.filename), src, fs.State(), h.At(), n)
  {
    hide FatTable, ClusterTable, Mirrored, Fits, Placed, WriteLoop, Entries, To83, UpdateSize, Handled, WroteSoundly;
    hide Volume.State;
    hide Volume.Valid;
    if !h.inUse || h.isDirectory { return 0; }
    ghost var v, h0 := fs.State(), h.At();
    PlacedStands(v, Heads(v.RootEntries()), ChainsIn(v), i, h0, k);
    hide Shaped, Standing;
    n := WriteChunks(fs, h, src, Heads(v.RootEntries()), ChainsIn(v), i, k);
    StoreSize(fs, h.filename, h.fileSize);
    if Handled(v, i, h0, To83(h.filename)) { SoundWrite(v, i, h0, To83(h.filename), src, fs.State(), h.At(), n); }
  }

  /** It was the write on the map of files, and left volume and handle sound. */
  ghost predicate WroteSoundly(v: Vol, i: nat, h: Cursor, name: Name, b: seq<Byte>, v': Vol, h': Cursor, n: nat)
  {
    && name in Files(v) && h.pos <= |Files(v)[name].bytes| && v.Bpc() > 0 && Inv(v')
    && WroteOver(v, i, h, name, b, v', h', n)
  }

  lemma SoundWrite(v: Vol, i: nat, h: Cursor, name: Name, b: seq<Byte>, v': Vol, h': Cursor, n: nat)
    requires Handled(v, i, h, name) && WroteFile(v, h, name, b, v', h', n)
    ensures WroteSoundly(v, i, h, name, b, v', h', n)
  {
    hide Inv, Handled, WriteFile, Files, Abs, AbsWriteOver, Gap, Shaped;
    HandledFile(v, i, h, name);
    WriteRefines(v, i, h, name, b);
    HandledInv(v', i, h', name);
  }

  // ---- open ----

  /** The handle holds what `fs_open` puts into one. */
  ghost predicate Holds(h: FileHandle, o: Opened)
    reads h
  {
    h.inUse && h.At() == o.cursor && h.attributes == o.attr && h.filename == o.filename
        && h.isDirectory == MarksDirectory(o.attr)
  }

  /** The loop over the handle table: the first handle not in use. */
  method FreeHandle(fs: Volume) returns (i: nat)
    ensures i <= |fs.handles| && (forall j :: 0 <= j < i ==> fs.handles[j].inUse)
    ensures i < |fs.handles| ==> !fs.handles[i].inUse
  {
    i := 0;
    while i < |fs.handles| && fs.handles[i].inUse
      invariant i <= |fs.handles| && forall j :: 0 <= j < i ==> fs.handles[j].inUse
    {
      i := i + 1;
    }
  }

  /** The fields of a handle set for a file that starts at `first`. */
  method Occupy(h: FileHandle, first: nat, size: nat, attr: Byte, filename: seq<Byte>)
    modifies h
    ensures Holds(h, Opened(OpenCursor(first, size), attr, filename)) && h.isDirectory == MarksDirectory(attr)
  {
    h.inUse := true;
    h.firstCluster, h.currentCluster, h.clusterOffset := first, first, 0;
    h.fileSize, h.position, h.attributes := size, 0, attr;
    h.isDirectory := MarksDirectory(attr);
    h.filename := filename;
  }

  /** What `fs_open` does with a handle at hand. */
  ghost predicate OpenedAs(v: Vol, path: seq<Byte>, mode: seq<Byte>, v': Vol, o: Option<Opened>)
  {
    Shaped(v) && (v', o) == Open(v, path, mode)
  }

  /** The handle for a file that is there. */
  method OpenExisting(fs: Volume, h: FileHandle, i: nat, mode: seq<Byte>)
    requires fs.Valid() && fs.mounted && i < fs.g.Bpc() / ENTRY_SIZE && i < |Entries(fs.State().buf)|
    modifies h
    ensures Shaped(fs.State()) && fs.State() == old(fs.State())
    ensures var e := Entries(fs.State().buf)[i]; var start := OpenCursor(e.first, e.size);
            Holds(h, Opened(if Appends(mode) && !e.IsDirectory() then Seek(fs.State(), start, e.size) else start,
                            e.attr, From83(e.name)))
  {
    hide FatTable, ClusterTable, Mirrored, Fits, Entries, From83, Seek, Linked, DecodeEntry, Volume.State, Volume.Valid;
    BufferSize(fs);
    hide Shaped;
    BufferEntry(fs, i);
    var first, isDirectory := EntryFields(fs, i);
    var size := SizeField(fs, i);
    var attr := fs.buffer[ENTRY_SIZE * i + 11];
    var filename := NameFrom83(fs.buffer[ENTRY_SIZE * i..ENTRY_SIZE * i + 11]);
    Occupy(h, first, size, attr, filename);
    if Appends(mode) { var sought := SeekTo(fs, h, h.fileSize); }
  }

  /** `fs_open`. */
  method OpenFile(fs: Volume, path: seq<Byte>, mode: seq<Byte>) returns (h: FileHandle?, ghost o: Option<Opened>)
    requires fs.Valid()
    modifies fs.ramdisk, fs.buffer, fs`mirrored, fs`freeClusters, fs`nextFree, fs.handles
    ensures fs.Valid() && fs.mirrored >= old(fs.mirrored)
    ensures !fs.mounted || (forall k :: k in fs.handles ==> old(k.inUse)) ==>
              h == null && fs.ramdisk[..] == old(fs.ramdisk[..]) && fs.freeClusters == old(fs.freeClusters)
    ensures fs.mounted && (exists k :: k in fs.handles && !old(k.inUse)) ==>
              OpenedAs(old(fs.State()), path, mode, fs.State(), o) && (h != null <==> o.Some?)
    ensures h != null ==> h in fs.handles && !old(h.inUse) && o.Some? && Holds(h, o.value)
    ensures forall k :: k in fs.handles && k != h ==>
            k.inUse == old(k.inUse) && k.At() == old(k.At()) && k.filename == old(k.filename)
            && k.isDirectory == old(k.isDirectory)
  {
    hide FatTable, ClusterTable, Mirrored, Fits, Entries, Find, To83, From83, Seek, CreateWith, Open, Volume.State;
    hide Volume.Valid, Entry.IsLive, Entry.IsDirectory, Shaped;
    h, o := null, None;
    if !fs.mounted { return; }
    var free := FreeHandle(fs);
    if free == |fs.handles| { return; }
    BufferSize(fs);
    RootInside(fs);
    ghost var v := fs.State();
    o := Open(v, path, mode).1;
    LoadRoot(fs);
    var name := Converted(Strip(path));
    var slot := ScanForName(fs, name);
    match slot
    case Some(i) =>
      OpenFinds(v, path, mode);
      BufferSize(fs);
      h := fs.handles[free];
      SeekSameBuffer(v, v.Loaded(v.root).buf, OpenCursor(v.RootEntries()[i].first, v.RootEntries()[i].size),
          v.RootEntries()[i].size);
      OpenExisting(fs, h, i, mode);
    case None =>
      OpenMisses(v, path, mode);
      if !Creates(mode) { return; }
      var c := CreateNode(fs, Strip(path), ATTR_ARCHIVE);
      if c == 0 { return; }
      h := fs.handles[free];
      Occupy(h, c, 0, ATTR_ARCHIVE, Strip(path));
  }
}
