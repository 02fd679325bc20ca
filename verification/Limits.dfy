/**
 Where the driver falls short of the map-of-files picture, each with the exact condition under which it does
 not: writing into the middle of a cluster, as appending and the second of two writes do, writing to an entry without
 a cluster, reads whose size wraps around, creating or renaming to an unstorable name, `fs_mkdir` on a path with a
 leading slash, and the size update of a file whose 8.3 name does not survive printing.
 */
module Limits {
  import opened Bytes
  import opened FatImage
  import opened Chains
  import opened Allocator
  import opened Names
  import opened Directory
  import opened VolumeState
  import opened FileContent
  import opened FileWrite
  import opened VolumeOps
  import opened AbstractFs
  import opened Refinement
  import opened Edits
  import opened Writes
  import opened OpenHandles
  import opened Sessions
  import RamDisk

  // ---- writing in the middle of a cluster with a stale buffer ----

  /** Laying `b` over a file one of whose blocks has been replaced is laying it over the file exactly when the
      replaced block differs only under `b`. */
  lemma OverlaidIff(f: seq<Byte>, f': seq<Byte>, at: nat, t: seq<Byte>, off: nat, b: seq<Byte>, w: nat)
    requires at + |t| <= |f| && off < |t| && Overlaid(Splice(f, at, t), f', at + off, b, w)
    requires w == |b| || off + w >= |t|
    ensures Overlaid(f, f', at + off, b, w) <==> Agrees(Window(f, at, |t|), off, |b|, |t|, t)
  {
    if Agrees(Window(f, at, |t|), off, |b|, |t|, t) { AgreesIsOverlaid(f, f', at, t, off, b, w); }
    if Overlaid(f, f', at + off, b, w) { OverlaidAgrees(f, f', at, t, off, b, w); }
  }

  /** Inside one cluster, byte by byte. */
  lemma AgreesInCluster(c: seq<Byte>, off: nat, size: nat, t: seq<Byte>)
    requires off < |c| == |t|
    ensures Agrees(c, off, size, |t|, t) <==>
            forall p {:trigger c[p]} :: 0 <= p < |t| && (p < off || off + size <= p) ==> t[p] == c[p]
  {
    assert BlockStart(off, |t|) == 0;
  }

  lemma AgreesIsOverlaid(f: seq<Byte>, f': seq<Byte>, at: nat, t: seq<Byte>, off: nat, b: seq<Byte>, w: nat)
    requires at + |t| <= |f| && off < |t| && Overlaid(Splice(f, at, t), f', at + off, b, w)
    requires (w == |b| || off + w >= |t|) && Agrees(Window(f, at, |t|), off, |b|, |t|, t)
    ensures Overlaid(f, f', at + off, b, w)
  {
    var g, c := Splice(f, at, t), Window(f, at, |t|);
    AgreesInCluster(c, off, |b|, t);
    hide Agrees, Splice;
    assert forall p :: 0 <= p < |t| ==> g[at + p] == t[p] && f[at + p] == c[p];
    forall p | 0 <= p < |f| && (p < at + off || at + off + w <= p)
      ensures g[p] == f[p]
    {
      if at <= p < at + |t| { assert t[p - at] == c[p - at]; }
    }
  }

  lemma OverlaidAgrees(f: seq<Byte>, f': seq<Byte>, at: nat, t: seq<Byte>, off: nat, b: seq<Byte>, w: nat)
    requires at + |t| <= |f| && off < |t| && Overlaid(Splice(f, at, t), f', at + off, b, w)
    requires (w == |b| || off + w >= |t|) && Overlaid(f, f', at + off, b, w)
    ensures Agrees(Window(f, at, |t|), off, |b|, |t|, t)
  {
    var g, c := Splice(f, at, t), Window(f, at, |t|);
    AgreesInCluster(c, off, |b|, t);
    hide Agrees, Splice;
    assert forall p :: 0 <= p < |t| ==> g[at + p] == t[p] && f[at + p] == c[p];
    forall p {:trigger c[p]} | 0 <= p < |t| && (p < off || off + |b| <= p)
      ensures t[p] == c[p]
    {
      assert g[at + p] == f'[at + p] == f[at + p];
    }
  }

  /** The loop has written `w` bytes, all that fit; `chains'[i]` is the file's chain afterwards. */
  ghost predicate LoopWrote(v: Vol, heads: seq<Option<nat>>, chains: seq<seq<nat>>, i: nat, h: Cursor, b: seq<Byte>,
                            v': Vol, chains': seq<seq<nat>>, h': Cursor, k': nat, w: nat)
  {
    && Writing(v', heads, chains', i, h', k') && i < |chains| == |chains'|
    && h'.pos == h.pos + w && Room(v, chains[i], h) >= 0 && w == Min(|b|, Room(v, chains[i], h))
  }

  /** A write in the middle of a cluster, whatever the shared buffer holds: the clusters of the file afterwards are the
      overlay they should be exactly when the buffer agrees with the cluster on every byte that the write does not
      cover. */
  lemma UnalignedWriteIsRightIff(v: Vol, heads: seq<Option<nat>>, chains: seq<seq<nat>>, i: nat, h: Cursor, k: nat,
      b: seq<Byte>)
    returns (chains': seq<seq<nat>>, k': nat)
    requires Placed(v, heads, chains, i, h, k) && 0 < h.off && b != []
    ensures Shaped(v) && InRange(v.fat, h.cur) && h.off < v.Bpc() && i < |chains| && |v.data[h.cur]| == v.Bpc()
    ensures var (v', h', w) := WriteLoop(v, h, b); LoopWrote(v, heads, chains, i, h, b, v', chains', h', k', w)
    ensures var (v', h', w) := WriteLoop(v, h, b);
            Overlaid(Flat(v.data, chains[i]), Flat(v'.data, chains'[i]), h.pos, b, w) <==>
            Agrees(v.data[h.cur], h.off, |b|, v.Bpc(), v.buf)
  {
    hide WriteLoop, Flat, Splice, Overlaid, Agrees, Writing, Written, Shaped, Imposed, Window, Room, IsChain;
    WritingChain(v, heads, chains, i, h, k);
    ImposedIsWriting(v, heads, chains, i, h, k);
    ImposedFlat(v, heads, chains, i, h, k);
    chains', k' := WriteOverlays(v, heads, chains, i, h, k, b);
    var (v', h', w) := WriteLoop(v, h, b);
    WrittenOverlays(Imposed(v, h), chains, i, h, b, v', chains', h', w);
    RoomInBlock(v, chains[i], h, k);
    hide Placed;
    OverlaidIff(Flat(v.data, chains[i]), Flat(v'.data, chains'[i]), k * v.Bpc(), v.buf, h.off, b, w);
  }

  lemma RoomInBlock(v: Vol, ch: seq<nat>, h: Cursor, k: nat)
    requires CursorAt(ch, v.Bpc(), h, k) && k < |ch|
    ensures Room(v, ch, h) >= v.Bpc() - h.off
  {
    Blocks(k, |ch|, v.Bpc());
  }

  lemma WrittenOverlays(v: Vol, chains: seq<seq<nat>>, i: nat, h: Cursor, b: seq<Byte>, v': Vol, chains': seq<seq<nat>>,
      h': Cursor, w: nat)
    requires Written(v, chains, i, h, b, v', chains', h', w)
    ensures i < |chains| == |chains'| && Overlaid(Flat(v.data, chains[i]), Flat(v'.data, chains'[i]), h.pos, b, w)
    ensures h'.pos == h.pos + w
  {
  }

  /** The shared buffer holds the root directory, as it does after opening a file and after every write. */
  predicate BufferIsRoot(v: Vol) { v.root < |v.data| && v.buf == v.data[v.root] }

  /** A write through a handle when the buffer holds the directory: it is the write it should be exactly when it
      starts at a cluster boundary, or the directory's bytes happen to agree with the file's where it matters. */
  lemma WriteFromDirectoryIff(v: Vol, i: nat, h: Cursor, name: Name, b: seq<Byte>)
    requires Handled(v, i, h, name) && BufferIsRoot(v) && b != []
    ensures Shaped(v) && h.off < v.Bpc() && name in Files(v) && h.pos <= |Files(v)[name].bytes|
    ensures |v.data[v.root]| == v.Bpc() > 0
    ensures var (v', h', w) := WriteFile(v, h, name, b);
            (Abs(v'), w) == AbsWrite(Abs(v), name, h.pos, b) <==>
            h.pos % v.Bpc() == 0 || Agrees(Files(v)[name].bytes, h.pos, |b|, v.Bpc(), v.data[v.root])
  {
    hide Inv, Handled, WriteFile, Abs, Files, AbsWrite, AbsWriteOver, Agrees, Vol.RootEntries, FileOf, ChainsIn;
    var k := HandledPlaced(v, i, h, name);
    HandledFile(v, i, h, name);
    AbsFields(v);
    WriteRefines(v, i, h, name, b);
    WriteIsOverlayIff(Abs(v), name, h.pos, b, v.buf);
  }

  lemma WroteParts(v: Vol, i: nat, h: Cursor, name: Name, b: seq<Byte>, v': Vol, h': Cursor, w: nat)
    requires name in Files(v) && h.pos <= |Files(v)[name].bytes| && v.Bpc() > 0
             && WroteOver(v, i, h, name, b, v', h', w)
    ensures Handled(v', i, h', name) && BufferIsRoot(v')
  {
  }

  /** Two writes one after the other through one handle, as `echo` makes them: the second finds the directory in the
      buffer, whatever the first found. */
  lemma SecondWriteIsRightIff(v: Vol, i: nat, h: Cursor, name: Name, a: seq<Byte>, b: seq<Byte>)
    requires Handled(v, i, h, name) && b != []
    ensures Shaped(v) && h.off < v.Bpc()
    ensures var (v1, h1, w1) := WriteFile(v, h, name, a);
            && name in Files(v1) && h1.pos <= |Files(v1)[name].bytes| && v1.root < |v1.data|
            && |v1.data[v1.root]| == v1.Bpc() > 0
            && var (v2, h2, w2) := WriteFile(v1, h1, name, b);
               (Abs(v2), w2) == AbsWrite(Abs(v1), name, h1.pos, b) <==>
               h1.pos % v1.Bpc() == 0 || Agrees(Files(v1)[name].bytes, h1.pos, |b|, v1.Bpc(), v1.data[v1.root])
  {
    hide Inv, Handled, WriteFile, Abs, Files, AbsWrite, AbsWriteOver, WroteOver, Agrees, Vol.RootEntries, FileOf;
    hide ChainsIn;
    var k := HandledPlaced(v, i, h, name);
    WriteRefines(v, i, h, name, a);
    var (v1, h1, w1) := WriteFile(v, h, name, a);
    WroteParts(v, i, h, name, a, v1, h1, w1);
    HandledFile(v1, i, h1, name);
    WriteFromDirectoryIff(v1, i, h1, name, b);
  }

  lemma FirstWriteFits(v: Vol, i: nat, h: Cursor, name: Name, a: seq<Byte>)
    requires Handled(v, i, h, name) && h.pos == 0 && |a| <= v.Bpc()
    ensures v.Bpc() > 0 && name in Files(v) && Accepted(Abs(v), Files(v)[name], 0, |a|) == |a|
  {
    hide Inv, Handled, Abs, Files, Accepted, ChainsIn, FileOf, Vol.RootEntries;
    HandledFile(v, i, h, name);
    HandleChain(v, i, h, name);
    AbsFields(v);
    AcceptsCluster(Abs(v), Files(v)[name], |a|);
  }

  lemma AcceptsCluster(a: AbsFs, f: AbsFile, size: nat)
    requires f.clusters >= 1 && size <= a.bpc
    ensures Accepted(a, f, 0, size) == size
  {
    MulMono(1, f.clusters + a.free, a.bpc);
  }

  /** What an unaligned write leaves in front of it in its cluster is the buffer. */
  lemma FrontIsBuffer(a: AbsFs, n: Name, pos: nat, b: seq<Byte>, buf: seq<Byte>)
    requires n in a.files && 0 < pos <= |a.files[n].bytes| && pos < a.bpc == |buf| && b != []
    ensures AbsWriteOver(a, n, pos, b, buf).0.files[n].bytes[..pos] == buf[..pos]
  {
    hide Accepted, Clusters;
    PosInBlock(pos, a.bpc, 0, pos);
  }

  /** `echo` into a file: the text and the newline are two writes, and a text shorter than a cluster is overwritten by
      the beginning of the root directory when the newline is written. */
  lemma EchoShowsDirectory(v: Vol, i: nat, h: Cursor, name: Name, text: seq<Byte>, b: seq<Byte>)
    requires Handled(v, i, h, name) && h.pos == 0 && 0 < |text| < v.Bpc() && b != []
    ensures Shaped(v) && h.off < v.Bpc()
    ensures var (v1, h1, w1) := WriteFile(v, h, name, text); var (v2, h2, w2) := WriteFile(v1, h1, name, b);
            && name in Files(v2) && |text| <= |Files(v2)[name].bytes| && v1.root < |v1.data|
            && |text| <= |v1.data[v1.root]|
            && Files(v2)[name].bytes[..|text|] == v1.data[v1.root][..|text|]
            && i < |v1.RootEntries()| && v1.RootEntries()[i].name == name
  {
    hide Inv, Handled, WriteFile, Abs, Files, AbsWrite, AbsWriteOver, WroteOver, Agrees, Vol.RootEntries, FileOf;
    hide ChainsIn, Accepted;
    var k := HandledPlaced(v, i, h, name);
    FirstWriteFits(v, i, h, name, text);
    WriteRefines(v, i, h, name, text);
    var (v1, h1, w1) := WriteFile(v, h, name, text);
    AbsFields(v);
    FirstPosition(v, i, h, name, text, v1, h1, w1);
    WroteParts(v, i, h, name, text, v1, h1, w1);
    HandledFile(v1, i, h1, name);
    HandledEntry(v1, i, h1, name);
    AbsFields(v1);
    WriteRefines(v1, i, h1, name, b);
    var (v2, h2, w2) := WriteFile(v1, h1, name, b);
    WroteAbs(v1, i, h1, name, b, v2, h2, w2);
    AbsFields(v2);
    FrontIsBuffer(Abs(v1), name, |text|, b, v1.buf);
  }

  lemma HandledEntry(v: Vol, i: nat, h: Cursor, name: Name)
    requires Handled(v, i, h, name)
    ensures i < |v.RootEntries()| && v.RootEntries()[i].name == name && Shaped(v)
  {
    hide Entries;
  }

  lemma FirstPosition(v: Vol, i: nat, h: Cursor, name: Name, b: seq<Byte>, v': Vol, h': Cursor, w: nat)
    requires name in Files(v) && h.pos == 0 && v.Bpc() > 0 && WroteOver(v, i, h, name, b, v', h', w)
    requires Accepted(Abs(v), Files(v)[name], 0, |b|) == |b|
    ensures h'.pos == |b| && v'.Bpc() == v.Bpc()
  {
    hide Handled, Files, VacantSlots, Clusters, Stale;
    assert Seeing(Abs(v), name, 0, v.buf).files[name].clusters == Files(v)[name].clusters;
  }

  lemma WroteAbs(v: Vol, i: nat, h: Cursor, name: Name, b: seq<Byte>, v': Vol, h': Cursor, w: nat)
    requires name in Files(v) && h.pos <= |Files(v)[name].bytes| && v.Bpc() > 0
             && WroteOver(v, i, h, name, b, v', h', w)
    ensures Abs(v') == AbsWriteOver(Abs(v), name, h.pos, b, v.buf).0
  {
    hide Handled, AbsWriteOver;
  }

  /** On the driver's own disk the directory begins with the name of the test file: whatever short text `echo` puts into
      that file, the file then begins with a "T". */
  lemma EchoOnDriverDisk(v: Vol, text: seq<Byte>, b: seq<Byte>)
    requires RamDisk.FreshVolume(v, [RamDisk.DRIVER_FILE]) && Addressable(v) && 0 < |text| < RamDisk.CLUSTER && b != []
    ensures Shaped(v) && v.Bpc() == RamDisk.CLUSTER
    ensures var h := OpenCursor(3, 26); var name := RamDisk.TEST_NAME;
            var (v1, h1, w1) := WriteFile(v, h, name, text); var (v2, h2, w2) := WriteFile(v1, h1, name, b);
            name in Files(v2) && |Files(v2)[name].bytes| > 0 && Files(v2)[name].bytes[0] == 84
  {
    hide Inv, Handled, WriteFile, Abs, Files, RamDisk.FreshVolume, Entries, FileOf, ChainsIn;
    var name := RamDisk.TEST_NAME;
    RamDisk.FreshSize(v, [RamDisk.DRIVER_FILE]);
    RamDisk.BuiltIsSoundIff(v, [RamDisk.DRIVER_FILE]);
    RamDisk.FreshIsShaped(v, [RamDisk.DRIVER_FILE]);
    RamDisk.StorableIsLive([RamDisk.DRIVER_FILE], 0);
    hide RamDisk.EntriesWith;
    assert v.RootEntries()[0] == Entry(name, ATTR_ARCHIVE, 3, 26) by {
      RamDisk.FilesAreLaidOut(v, [RamDisk.DRIVER_FILE], 0);
    }
    PlainEntry(name);
    StartHandle(v, 0);
    var h := OpenCursor(3, 26);
    EchoShowsDirectory(v, 0, h, name, text, b);
    var (v1, h1, w1) := WriteFile(v, h, name, text);
    FirstNameByte(v1);
    var (v2, h2, w2) := WriteFile(v1, h1, name, b);
    var f := Files(v2)[name].bytes;
    assert f[0] == f[..|text|][0] == v1.data[v1.root][..|text|][0] == v1.data[v1.root][0];
  }

  lemma PlainEntry(name: Name)
    ensures !Entry(name, ATTR_ARCHIVE, 3, 26).IsDirectory()
  {
  }

  lemma FirstNameByte(v: Vol)
    requires v.root < |v.data| && 0 < |v.RootEntries()|
    ensures |v.data[v.root]| > 0 && v.data[v.root][0] == v.RootEntries()[0].name[0]
  {
    EntryAt(v.data[v.root], 0);
  }

  /** Appending, as `echo` does with `>>`: open in mode "a" and write. The new bytes go where they should, and the old
      ones stay, exactly when the file ends at a cluster boundary or the directory's bytes agree with its last, partly
      filled cluster. */
  lemma AppendIsRightIff(v: Vol, path: seq<Byte>, mode: seq<Byte>, b: seq<Byte>) returns (v1: Vol, h: Cursor)
    requires Inv(v) && Addressable(v) && NameOf(path) in Files(v) && !Files(v)[NameOf(path)].IsDirectory()
    requires mode != [] && mode[0] == 97 && b != []
    ensures Shaped(v) && Shaped(v1) && h.off < v1.Bpc() && v1.root < |v1.data| && |v1.data[v1.root]| == v1.Bpc() > 0
    ensures var (v', o) := Open(v, path, mode); v' == v1 && o.Some? && o.value.cursor == h && Abs(v1) == Abs(v)
    ensures var f := Files(v)[NameOf(path)].bytes; var (v', h', w) := WriteFile(v1, h, NameOf(path), b);
            (Abs(v'), w) == AbsWrite(Abs(v), NameOf(path), |f|, b) <==>
            |f| % v1.Bpc() == 0 || Agrees(f, |f|, |b|, v1.Bpc(), v1.data[v1.root])
  {
    hide Inv, Handled, WriteFile, Abs, Files, AbsWrite, AbsWriteOver, WroteOver, Agrees, Vol.RootEntries, FileOf;
    hide ChainsIn, Open;
    hide AbsFile.IsDirectory, MarksDirectory, Shaped;
    LoadedInv(v);
    AbsFields(v);
    var i := OpenGivesHandle(v, path, mode);
    var (v0, o) := Open(v, path, mode);
    AbsFields(v0);
    v1, h := v0, o.value.cursor;
    WriteFromDirectoryIff(v1, i, h, NameOf(path), b);
  }

  // ---- reads that wrap around ----

  /** The read loop stops at the end of the chain. */
  lemma {:induction false} ReadStopsAtEnd(v: Vol, ch: seq<nat>, h: Cursor, k: nat, n: nat)
    requires Shaped(v) && IsChain(v.fat, ch) && CursorAt(ch, v.Bpc(), h, k) && h.pos + n >= |ch| * v.Bpc()
    ensures h.pos <= |ch| * v.Bpc() && ReadLoop(v, h, n) == ReadLoop(v, h, |ch| * v.Bpc() - h.pos)
    decreases n
  {
    hide ReadLoop;
    if k == |ch| {
      NothingBehind(v, h, n);
      NothingBehind(v, h, 0);
    } else {
      var bpc := v.Bpc();
      var v1, h1 := v.(buf := if h.off == 0 then v.data[h.cur] else v.buf), Moved(v.fat, bpc, h, bpc - h.off);
      Blocks(k, |ch|, bpc);
      MovedStaysOnChain(v.fat, ch, bpc, h, k, bpc - h.off);
      ReadTurn(v, h, n, bpc - h.off);
      ReadTurn(v, h, |ch| * bpc - h.pos, bpc - h.off);
      ReadStopsAtEnd(v1, ch, h1, k + 1, n - (bpc - h.off));
    }
  }

  lemma NothingBehind(v: Vol, h: Cursor, n: nat)
    requires Shaped(v) && h.off < v.Bpc() && (n == 0 || h.cur >= FAT32_EOC)
    ensures ReadLoop(v, h, n) == (v, h, [])
  {
  }

  /** A read of any size below 2^32: it delivers the next bytes of the file exactly when position and size add up to
      less than 2^32, nothing is left, or the file fills its clusters. Otherwise the sum wraps around, the read is not
      cut at the end of the file, and the rest of the last cluster is handed out too. */
  lemma LongReadIsRightIff(v: Vol, ch: seq<nat>, h: Cursor, n: nat)
    requires Shaped(v) && HandleOk(v, ch, h) && Coherent(v, h) && Addressable(v) && n < WORD
    ensures h.off < v.Bpc() && |Contents(v, ch, h.size)| == h.size
    ensures Read(v, h, n).2 == Contents(v, ch, h.size)[h.pos..h.pos + Min(n, h.size - h.pos)] <==>
            h.pos + n < WORD || h.pos == h.size || h.size == |ch| * v.Bpc()
  {
    hide ReadLoop, Flat, Shaped, Seen, Coherent, Contents, Window, IsChain;
    ChainUniform(v, ch);
    ContentsLength(v, ch, h.size);
    var k: nat :| CursorAt(ch, v.Bpc(), h, k);
    ChainIsShort(v.fat, ch);
    MulMono(|ch|, |v.fat|, v.Bpc());
    if h.pos + n < WORD {
      ReadReturnsContents(v, ch, h, n);
    } else if h.pos < h.size {
      WrappedReadIs(v, ch, h, k, n);
      ContentsSlice(v, ch, h.size, h.pos, h.size - h.pos);
    }
  }

  lemma WrappedReadIs(v: Vol, ch: seq<nat>, h: Cursor, k: nat, n: nat)
    requires Shaped(v) && IsChain(v.fat, ch) && CursorAt(ch, v.Bpc(), h, k) && Coherent(v, h)
    requires h.pos < h.size <= |ch| * v.Bpc() < WORD <= h.pos + n && n < WORD
    ensures Uniform(v.data, ch, v.Bpc()) && |Flat(v.data, ch)| == |ch| * v.Bpc()
    ensures Read(v, h, n).2 == Window(Flat(v.data, ch), h.pos, |ch| * v.Bpc() - h.pos)
  {
    hide ReadLoop, Flat, Shaped, Seen, Coherent, Window, IsChain;
    ReadStopsAtEnd(v, ch, h, k, n);
    var k' := ReadDelivers(v, ch, h, k, |ch| * v.Bpc() - h.pos);
    SeenWhenCoherent(v, ch, h, k);
    FlatLength(v.data, ch, v.Bpc());
  }

  // ---- writing through an entry without a cluster ----

  /** First clusters of the live entries that have one: 0 and 1 stand for none. */
  function OwnHeads(es: seq<Entry>): (h: seq<Option<nat>>)
    ensures |h| == |es|
    ensures forall i {:trigger h[i]} :: 0 <= i < |es| ==>
            h[i] == if es[i].IsLive() && es[i].first >= 2 then Some(es[i].first) else None
  {
    seq(|es|, (i: nat) requires i < |es| => if es[i].IsLive() && es[i].first >= 2 then Some(es[i].first) else None)
  }

  /** A volume on which files without a cluster are allowed, with the chains of the others. */
  ghost predicate LooselySound(v: Vol, chains: seq<seq<nat>>)
  {
    && Shaped(v) && DirOk(v.RootEntries()) && Counted(v.PoolOf()) && Addressable(v)
    && Partition(v.root, OwnHeads(v.RootEntries()), v.fat, chains)
  }

  /** The first turn on a file without a cluster is an allocation; the rest is a write to the new chain. */
  lemma FirstClusterTurn(v: Vol, heads: seq<Option<nat>>, chains: seq<seq<nat>>, i: nat, first: nat, size: nat,
      b: seq<Byte>)
    returns (v1: Vol, h1: Cursor, c: nat)
    requires Shaped(v) && Counted(v.PoolOf()) && Partition(v.root, heads, v.fat, chains) && v.free > 0
    requires i < |heads| && heads[i].None? && first < 2 && b != []
    ensures |chains| == |heads| && Writing(v1, heads[i := Some(c)], chains[i := [c]], i, h1, 0) && Shaped(v1)
            && h1.off < v1.Bpc()
    ensures v1.data == v.data && v1.root == v.root && |v1.fat| == |v.fat| && v1.Bpc() == v.Bpc()
            && v1.free == v.free - 1
    ensures h1 == Cursor(c, c, 0, size, 0) && WriteLoop(v, OpenCursor(first, size), b) == WriteLoop(v1, h1, b)
  {
    var h := OpenCursor(first, size);
    AllocateIsFirstFit(v.PoolOf());
    var (p, c0) := Allocate(v.PoolOf());
    c := c0;
    PartitionCreate(v.root, heads, v.fat, chains, i, c);
    v1 := v.WithPool(p).(buf := Zeros(v.Bpc()));
    h1 := h.(first := c, cur := c, off := 0);
    assert Grow(v, h) == (v1, h1, true) && Grow(v1, h1) == (v1, h1, true);
    assert v1.PoolOf() == p;
    hide Grow, Allocate, Partition, Counted, LinkLast;
    var (v2, h2, m) := Put(v1, h1, b);
    hide Put;
    WriteTurn(v, h, b, v1, h1, v2, h2, m);
    WriteTurn(v1, h1, b, v1, h1, v2, h2, m);
  }

  /** What the write loop does from the start of a file: `w` bytes, all that fit, into chain `ch` past the root. */
  ghost predicate Started(v: Vol, b: seq<Byte>, v2: Vol, ch: seq<nat>, h2: Cursor, size: nat, w: nat)
  {
    && Shaped(v2) && v2.root == v.root < |v.data| == |v2.data| && v2.data[v.root] == v.data[v.root]
    && v2.Bpc() == v.Bpc()
    && IsChain(v2.fat, ch) && v.root !in ch && Uniform(v2.data, ch, v2.Bpc()) && h2.first == ch[0]
    && h2.size == Max(size, w)
    && w <= |b| && w <= |ch| * v2.Bpc() <= Capacity(v)
    && w <= |Flat(v2.data, ch)| && Flat(v2.data, ch)[..w] == b[..w]
  }

  lemma StartedFrom(v: Vol, heads: seq<Option<nat>>, chains: seq<seq<nat>>, i: nat, h: Cursor, b: seq<Byte>,
                    v2: Vol, chains': seq<seq<nat>>, h2: Cursor, w: nat, k: nat)
    requires Written(v, chains, i, h, b, v2, chains', h2, w) && Writing(v2, heads, chains', i, h2, k) && Shaped(v)
    requires h.pos == 0 && |v2.fat| == |v.fat| && i < |chains'|
    ensures Started(v, b, v2, chains'[i], h2, h.size, w)
  {
    hide Flat, Counted, Partition;
    WritingChain(v2, heads, chains', i, h2, k);
    ChainIsShort(v2.fat, chains'[i]);
    MulMono(|chains'[i]|, |v2.fat|, v2.Bpc());
  }

  /** The size update leaves the first cluster alone. */
  lemma SizeUpdateKeepsFirst(v: Vol, i: nat, size: nat)
    requires Shaped(v) && DirOk(v.RootEntries()) && i < |v.RootEntries()| && v.RootEntries()[i].IsLive() && size < WORD
    ensures var v' := UpdateSize(v, v.RootEntries()[i].name, size);
            && Shaped(v') && |v'.RootEntries()| == |v.RootEntries()|
            && v'.RootEntries()[i] == v.RootEntries()[i].(size := size)
            && v'.fat == v.fat && v'.root == v.root && |v'.data| == |v.data| && v'.Bpc() == v.Bpc()
            && (forall c :: 0 <= c < |v.data| && c != v.root ==> v'.data[c] == v.data[c])
  {
    hide Entries, WithSize, DirOk, Find, Entry.IsLive;
    FindsLive(v.RootEntries(), i);
    FindInRange(v.RootEntries(), v.RootEntries()[i].name, 0);
    SizeRefines(v.data[v.root], i, size);
  }

  /** Reading from the first cluster of the chain delivers what was written. */
  lemma ReadsBack(v: Vol, b: seq<Byte>, v2: Vol, ch: seq<nat>, h2: Cursor, size: nat, w: nat, v': Vol)
    requires Started(v, b, v2, ch, h2, size, w) && 0 < w && Addressable(v)
    requires Shaped(v') && v'.fat == v2.fat && v'.root == v2.root && |v'.data| == |v2.data| && v'.Bpc() == v2.Bpc()
    requires forall c :: 0 <= c < |v2.data| && c != v2.root ==> v'.data[c] == v2.data[c]
    ensures Read(v', OpenCursor(ch[0], Max(size, w)), w).2 == b[..w]
  {
    hide Flat, Read, ReadLoop, Shaped;
    var h := OpenCursor(ch[0], Max(size, w));
    assert forall j :: 0 <= j < |ch| ==> ch[j] in ch;
    FlatFrame(v2.data, v'.data, ch);
    FlatLength(v2.data, ch, v2.Bpc());
    assert IsChain(v'.fat, ch);
    UniformSize(v', ch);
    assert CursorAt(ch, v'.Bpc(), h, 0);
    ReadIsClampedLoop(v', h, w);
    var k' := ReadDelivers(v', ch, h, 0, w);
    assert Window(Flat(v'.data, ch), 0, w) == Flat(v'.data, ch)[..w] == b[..w];
  }

  lemma UniformSize(v: Vol, ch: seq<nat>)
    requires Shaped(v)
    ensures v.Bpc() > 0
  {
  }

  lemma ReadsNothing(v: Vol, first: nat, size: nat, n: nat)
    requires Shaped(v) && first < 2
    ensures Read(v, OpenCursor(first, size), n).2 == []
  {
  }

  /** How many bytes fit into `n` clusters and those that the allocator will still give. */
  function RoomFor(v: Vol, n: nat): nat { (n + v.free) * v.Bpc() }

  ghost predicate StartedOn(v: Vol, n: nat, e: Entry, b: seq<Byte>, v2: Vol, ch: seq<nat>, h2: Cursor, w: nat)
  {
    && 0 < w == Min(|b|, RoomFor(v, n)) && Started(v, b, v2, ch, h2, e.size, w)
    && ch != [] && (e.first >= 2 ==> ch[0] == e.first)
  }

  lemma LooseParts(v: Vol, chains: seq<seq<nat>>, i: nat)
    requires LooselySound(v, chains) && i < |v.RootEntries()|
    ensures Shaped(v) && v.Bpc() > 0 && |chains| == |v.RootEntries()| && v.RootEntries()[i].size < WORD
            && DirOk(v.RootEntries())
    ensures Heading(v.root, OwnHeads(v.RootEntries())[i], v.fat, chains[i])
  {
    SizeBelow(v, i);
  }

  /** The write loop from the start of a file with a chain. */
  lemma WriteWithChain(v: Vol, chains: seq<seq<nat>>, i: nat, b: seq<Byte>) returns (ch: seq<nat>)
    requires LooselySound(v, chains) && i < |v.RootEntries()| && v.RootEntries()[i].IsLive() && b != []
    requires i < |chains| && v.RootEntries()[i].first >= 2
    ensures Shaped(v)
    ensures var e := v.RootEntries()[i]; var (v2, h2, w) := WriteLoop(v, OpenCursor(e.first, e.size), b);
            StartedOn(v, |chains[i]|, e, b, v2, ch, h2, w)
  {
    hide WriteLoop, Written, Counted, Entries, Vol.RootEntries, DirOk, Entry.IsLive, Flat, Overlaid, Started, Shaped;
    hide Room;
    LooseParts(v, chains, i);
    var e, heads := v.RootEntries()[i], OwnHeads(v.RootEntries());
    var h := OpenCursor(e.first, e.size);
    StartOfChain(v, chains[i], h);
    hide Partition, CursorAt, Writing, IsChain;
    RoomAtStart(v, chains[i], h);
    assert Imposed(v, h) == v;
    var chains', k' := WriteOverlays(v, heads, chains, i, h, 0, b);
    var (v2, h2, w) := WriteLoop(v, h, b);
    SameFatSize(v, chains, i, h, b, v2, chains', h2, w, heads, k');
    StartedFrom(v, heads, chains, i, h, b, v2, chains', h2, w, k');
    ch := chains'[i];
    StartedHead(v, b, v2, ch, h2, e.size, w);
  }

  /** The write loop from the start of a file without one. */
  lemma WriteWithoutChain(v: Vol, chains: seq<seq<nat>>, i: nat, b: seq<Byte>) returns (ch: seq<nat>)
    requires LooselySound(v, chains) && i < |v.RootEntries()| && b != [] && v.free > 0
    requires i < |chains| && v.RootEntries()[i].first < 2
    ensures Shaped(v)
    ensures var e := v.RootEntries()[i]; var (v2, h2, w) := WriteLoop(v, OpenCursor(e.first, e.size), b);
            StartedOn(v, |chains[i]|, e, b, v2, ch, h2, w)
  {
    hide WriteLoop, Written, Counted, Entries, Vol.RootEntries, DirOk, Entry.IsLive, Flat, Overlaid, Started, Shaped;
    hide Room;
    LooseParts(v, chains, i);
    var e, heads := v.RootEntries()[i], OwnHeads(v.RootEntries());
    var v1, h1, c := FirstClusterTurn(v, heads, chains, i, e.first, e.size, b);
    hide Partition, CursorAt, Writing, IsChain;
    RoomAtStart(v1, [c], h1);
    var heads1, chains1 := heads[i := Some(c)], chains[i := [c]];
    var chains', k' := WritingOverlays(v1, heads1, chains1, i, h1, 0, b);
    var (v2, h2, w) := WriteLoop(v1, h1, b);
    SameFatSize(v1, chains1, i, h1, b, v2, chains', h2, w, heads1, k');
    StartedFrom(v1, heads1, chains1, i, h1, b, v2, chains', h2, w, k');
    ch := chains'[i];
    StartedSame(v, v1, b, v2, ch, h2, e.size, w);
    StartedHead(v, b, v2, ch, h2, e.size, w);
  }

  lemma SameFatSize(v: Vol, chains: seq<seq<nat>>, i: nat, h: Cursor, b: seq<Byte>, v2: Vol, chains': seq<seq<nat>>,
                    h2: Cursor, w: nat, heads: seq<Option<nat>>, k': nat)
    requires Shaped(v) && Written(v, chains, i, h, b, v2, chains', h2, w) && Writing(v2, heads, chains', i, h2, k')
    ensures |v2.fat| == |v.fat| && i < |chains'| && h2.first == h.first
  {
    hide Flat, Overlaid, Partition, Counted;
  }

  lemma StartedHead(v: Vol, b: seq<Byte>, v2: Vol, ch: seq<nat>, h2: Cursor, size: nat, w: nat)
    requires Started(v, b, v2, ch, h2, size, w)
    ensures ch != [] && h2.first == ch[0]
  {
  }

  /** The loop of a write from the start of live entry `i`, with or without a chain of its own. */
  lemma WriteFromStart(v: Vol, chains: seq<seq<nat>>, i: nat, b: seq<Byte>) returns (ch: seq<nat>)
    requires LooselySound(v, chains) && i < |v.RootEntries()| && v.RootEntries()[i].IsLive() && b != []
    requires i < |chains| && (v.RootEntries()[i].first < 2 ==> v.free > 0)
    ensures Shaped(v)
    ensures var e := v.RootEntries()[i]; var (v2, h2, w) := WriteLoop(v, OpenCursor(e.first, e.size), b);
            StartedOn(v, |chains[i]|, e, b, v2, ch, h2, w)
  {
    hide LooselySound, StartedOn, WriteLoop, Shaped, Entries, Entry.IsLive;
    if v.RootEntries()[i].first >= 2 { ch := WriteWithChain(v, chains, i, b); }
    else { ch := WriteWithoutChain(v, chains, i, b); }
  }

  lemma StartOfChain(v: Vol, ch: seq<nat>, h: Cursor)
    requires Shaped(v) && IsChain(v.fat, ch) && h == OpenCursor(ch[0], h.size)
    ensures CursorAt(ch, v.Bpc(), h, 0)
  {
  }

  lemma RoomAtStart(v: Vol, ch: seq<nat>, h: Cursor)
    requires Shaped(v) && h.pos == 0
    ensures Room(v, ch, h) == RoomFor(v, |ch|) && (|ch| > 0 ==> Room(v, ch, h) > 0)
  {
    assert (|ch| + v.free) * v.Bpc() == |ch| * v.Bpc() + v.free * v.Bpc();
  }

  lemma StartedSame(v: Vol, v1: Vol, b: seq<Byte>, v2: Vol, ch: seq<nat>, h2: Cursor, size: nat, w: nat)
    requires Started(v1, b, v2, ch, h2, size, w) && v1.data == v.data && v1.root == v.root
    requires |v1.fat| == |v.fat| && v1.Bpc() == v.Bpc()
    ensures Started(v, b, v2, ch, h2, size, w)
  {
  }

  /** All that fits has been written, and the entry has the new size. */
  ghost predicate ResizedTo(v: Vol, v': Vol, i: nat, n: nat, b: seq<Byte>, w: nat)
  {
    && 0 < w == Min(|b|, RoomFor(v, n)) && i < |v.RootEntries()| == |v'.RootEntries()|
    && v'.RootEntries()[i] == v.RootEntries()[i].(size := Max(v.RootEntries()[i].size, w))
  }

  /** What opening entry `i` again and reading `n` bytes delivers. */
  function ReadBack(v: Vol, i: nat, n: nat): seq<Byte>
    requires Shaped(v) && i < |v.RootEntries()|
  {
    Read(v, OpenCursor(v.RootEntries()[i].first, v.RootEntries()[i].size), n).2
  }

  lemma LooseAddressable(v: Vol, chains: seq<seq<nat>>)
    requires LooselySound(v, chains)
    ensures Addressable(v)
  {
  }

  /** Writing through a live entry and reading back as many bytes as were accepted: the bytes come back exactly when the
      entry has a cluster. Without one the write takes clusters and reports bytes written, but the directory is not told
      of the new first cluster. */
  lemma WriteIsKeptIff(v: Vol, chains: seq<seq<nat>>, i: nat, b: seq<Byte>)
    requires LooselySound(v, chains) && i < |v.RootEntries()| && v.RootEntries()[i].IsLive() && b != []
    requires i < |chains| && (v.RootEntries()[i].first < 2 ==> v.free > 0)
    ensures Shaped(v)
    ensures var e := v.RootEntries()[i]; var (v', h', w) := WriteFile(v, OpenCursor(e.first, e.size), e.name, b);
            ResizedTo(v, v', i, |chains[i]|, b, w) && (ReadBack(v', i, w) == b[..w] <==> e.first >= 2)
  {
    hide WriteLoop, UpdateSize, Read, Started, Partition, Counted, Entries, DirOk, Entry.IsLive, RoomFor, LooselySound;
    hide Shaped;
    LooseParts(v, chains, i);
    assert Addressable(v) by { LooseAddressable(v, chains); }
    var e := v.RootEntries()[i];
    var ch := WriteFromStart(v, chains, i, b);
    var (v2, h2, w) := WriteLoop(v, OpenCursor(e.first, e.size), b);
    StartedParts(v, b, v2, ch, h2, e.size, w);
    SizeUpdateKeepsFirst(v2, i, h2.size);
    var v' := UpdateSize(v2, e.name, h2.size);
    if e.first >= 2 { ReadsBack(v, b, v2, ch, h2, e.size, w, v'); }
    else { ReadsNothing(v', e.first, Max(e.size, w), w); }
  }

  lemma StartedParts(v: Vol, b: seq<Byte>, v2: Vol, ch: seq<nat>, h2: Cursor, size: nat, w: nat)
    requires Started(v, b, v2, ch, h2, size, w)
    ensures Shaped(v2) && v2.root == v.root && v2.RootEntries() == v.RootEntries() && h2.size == Max(size, w)
    ensures w <= Capacity(v) && ch != []
  {
    hide Entries, Flat;
  }

  lemma SizeBelow(v: Vol, i: nat)
    requires Shaped(v) && i < |v.RootEntries()|
    ensures v.RootEntries()[i].size < WORD
  {
    hide DecodeEntry;
  }

  // ---- names ----

  /** With the same heads, a table that differs only in a cluster marked in use has no partition: the
      cluster belongs to nobody. */
  lemma LostCluster(root: nat, heads: seq<Option<nat>>, fat: seq<nat>, chains: seq<seq<nat>>, c: nat,
      chains': seq<seq<nat>>)
    requires Partition(root, heads, fat, chains) && InRange(fat, c) && fat[c] == FAT32_FREE && c != root
    ensures !Partition(root, heads, fat[c := FAT32_EOC], chains')
  {
    var fat' := fat[c := FAT32_EOC];
    if Partition(root, heads, fat', chains') {
      assert Covered(chains', c);
      var j :| 0 <= j < |chains'| && c in chains'[j];
      assert Heading(root, heads[j], fat, chains[j]) && Heading(root, heads[j], fat', chains'[j]);
      PartitionInUse(root, heads, fat, chains);
      HeadingFrame(root, heads[j], fat, fat', chains[j]);
      ChainFound(fat', chains[j]);
      ChainFound(fat', chains'[j]);
    }
  }

  lemma UnstorableIsLost(v: Vol, v': Vol, i: nat, e: Entry)
    requires Inv(v) && OneEntryChanged(v, v', i, e, [e.first]) && !v.RootEntries()[i].IsLive() && !e.IsLive()
    requires InRange(v.fat, e.first) && v.fat[e.first] == FAT32_FREE && e.first != v.root
             && v'.fat == v.fat[e.first := FAT32_EOC]
    ensures !Inv(v')
  {
    hide Inv, Entries, Partition, ChainsIn, Entry.IsLive;
    InvParts(v);
    HeadsUpdate(v.RootEntries(), i, e);
    LostCluster(v.root, Heads(v.RootEntries()), v.fat, ChainsIn(v), e.first, ChainsIn(v'));
    assert Heads(v'.RootEntries()) == Heads(v.RootEntries());
    if Inv(v') { InvParts(v'); }
  }

  lemma DuplicateIsUnsound(v: Vol, v': Vol, i: nat, e: Entry)
    requires Inv(v) && OneEntryChanged(v, v', i, e, [e.first]) && v.RootEntries()[i].IsVacant() && e.IsLive()
    requires e.name in Catalog(v.RootEntries())
    ensures !Inv(v')
  {
    hide Inv, Entries, Catalog, Shaped;
    LoadedInv(v);
    var j := CatalogWitness(v.RootEntries(), e.name);
    assert v'.RootEntries()[j] == v.RootEntries()[j] && v'.RootEntries()[i] == e;
    if Inv(v') { LoadedInv(v'); }
  }

  /** With both stocks available, entering a file leaves the volume sound exactly when the name is storable
      and new. A name starting with the deletion mark loses its cluster. */
  lemma CreationIsSoundIff(v: Vol, name: Name, attr: Byte)
    requires Inv(v) && v.free > 0 && Vacancy(v.RootEntries(), 0).Some? && attr in [ATTR_ARCHIVE, ATTR_DIRECTORY]
    ensures Shaped(v)
    ensures Inv(CreateWith(v, name, attr).0) <==> Storable(name) && name !in Files(v)
  {
    hide Inv, Entries, CreateWith, OneEntryChanged, Counted, Gap, FirstCluster, FileOf;
    LoadedInv(v);
    CreateEffect(v, name, attr);
    var (v', c) := CreateWith(v, name, attr);
    var i, e := Vacancy(v.RootEntries(), 0).value, Entry(name, attr, c, 0);
    assert !v.RootEntries()[i].IsLive();
    if !Storable(name) {
      UnstorableIsLost(v, v', i, e);
    } else if name in Files(v) {
      DuplicateIsUnsound(v, v', i, e);
    } else {
      CreateRefines(v, name, attr);
    }
  }

  /** `fs_mkdir` looks up a path without its leading slash and enters it with it. On a path that starts with
      a slash it is sound exactly when the slashed name is itself new, so the second call breaks the
      directory: two entries of the same name. */
  lemma SlashedMakeDirectoryIsSoundIff(v: Vol, lookup: Name, name: Name)
    requires Inv(v) && v.free > 0 && Vacancy(v.RootEntries(), 0).Some? && lookup !in Files(v) && Storable(name)
    ensures Shaped(v)
    ensures Inv(MakeDirectory(v, lookup, name).0) <==> name !in Files(v)
  {
    hide Inv, Entries, CreateWith, MakeDirectory, Vacancy, Catalog, FileOf, Find, Shaped;
    LoadedInv(v);
    LoadedSame(v, v.root);
    FindIsLookup(v.RootEntries(), lookup);
    MakeDirectoryIsCreate(v, lookup, name);
    CreationIsSoundIff(v.Loaded(v.root), name, ATTR_DIRECTORY);
  }

  /** `fs_mkdir` called twice with the same new path that starts with a slash: both calls succeed, the first leaves a
      sound volume, the second two entries of the same name. */
  lemma SlashedTwiceBreaks(v: Vol, p: seq<Byte>)
    requires Inv(v) && v.free >= 2 && |VacantSlots(v.RootEntries())| >= 2
    requires p != [] && p[0] == 47 && NameOf(p) != To83(p) && Storable(To83(p))
    requires NameOf(p) !in Files(v) && To83(p) !in Files(v)
    ensures Shaped(v)
    ensures var (v1, first) := MakeDirectory(v, NameOf(p), To83(p));
            var (v2, second) := MakeDirectory(v1, NameOf(p), To83(p));
            first && Inv(v1) && second && !Inv(v2)
  {
    hide Inv, Entries, MakeDirectory, Vacancy, VacantSlots, Catalog, FileOf, Find, Shaped, To83, NameOf, Files;
    hide Storable;
    LoadedInv(v);
    var (v1, first) := MakeDirectory(v, NameOf(p), To83(p));
    LoadedInv(v);
    VacancyIffSlots(v.RootEntries());
    SlashedMakeDirectoryIsSoundIff(v, NameOf(p), To83(p));
    SlashedMakeDirectoryEnters(v, NameOf(p), To83(p));
    LoadedInv(v1);
    VacancyIffSlots(v1.RootEntries());
    SlashedMakeDirectoryIsSoundIff(v1, NameOf(p), To83(p));
    SlashedMakeDirectorySucceeds(v1, NameOf(p), To83(p));
  }

  /** A path with one leading slash has two different names in `fs_mkdir`. */
  lemma SlashedNamesDiffer(p: seq<Byte>)
    requires p != [] && p[0] == 47 && (|p| > 1 ==> p[1] != 47)
    ensures NameOf(p) != To83(p) && To83(p)[0] == 47
  {
    assert LastDot(p) != 0;
    var q := p[1..];
    assert To83(p)[0] == 47;
    if LastDot(q) > 0 || (LastDot(q) < 0 && q != []) { assert To83(q)[0] == Upper(q[0]); }
  }

  lemma SlashedMakeDirectorySucceeds(v: Vol, lookup: Name, name: Name)
    requires Inv(v) && v.free > 0 && Vacancy(v.RootEntries(), 0).Some? && lookup !in Files(v)
    ensures Shaped(v) && MakeDirectory(v, lookup, name).1
  {
    hide Inv, Entries, CreateWith, MakeDirectory, Vacancy, Catalog, FileOf, Find, Shaped, OneEntryChanged;
    LoadedInv(v);
    LoadedSame(v, v.root);
    FindIsLookup(v.RootEntries(), lookup);
    MakeDirectoryIsCreate(v, lookup, name);
    CreateEffect(v.Loaded(v.root), name, ATTR_DIRECTORY);
  }

  lemma SlashedMakeDirectoryEnters(v: Vol, lookup: Name, name: Name)
    requires Inv(v) && v.free >= 2 && |VacantSlots(v.RootEntries())| >= 2 && Storable(name)
    requires lookup !in Files(v) && name !in Files(v)
    ensures Shaped(v)
    ensures var (v1, ok) := MakeDirectory(v, lookup, name);
            && ok && Inv(v1) && v1.free > 0 && VacantSlots(v1.RootEntries()) != {}
            && Files(v1).Keys == Files(v).Keys + {name}
  {
    hide Inv, Entries, CreateWith, MakeDirectory, Catalog, FileOf, Find, Shaped, Files, VacantSlots;
    LoadedInv(v);
    LoadedSame(v, v.root);
    FindIsLookup(v.RootEntries(), lookup);
    MakeDirectoryIsCreate(v, lookup, name);
    CreateRefines(v.Loaded(v.root), name, ATTR_DIRECTORY);
    var v1 := MakeDirectory(v, lookup, name).0;
    assert Abs(v1).free == Abs(v).free - 1 && Abs(v1).slots == Abs(v).slots - 1;
  }

  /** Renaming a file to a free name leaves the volume sound exactly when the directory can hold the name. */
  lemma RenamingIsSoundIff(v: Vol, from: Name, to: Name)
    requires Inv(v) && from in Files(v) && to !in Files(v)
    ensures Shaped(v)
    ensures Inv(RenameEntry(v, from, to).0) <==> Storable(to)
  {
    hide Inv, Entries, RenameEntry, Catalog, FileOf, Find, Shaped, WithName, Storable, Files;
    LoadedInv(v);
    LoadedSame(v, v.root);
    if Storable(to) {
      RenameRefines(v, from, to);
    } else {
      FindIsLookup(v.RootEntries(), from);
      FindIsLookup(v.RootEntries(), to);
      RenameEntryIs(v, from, to);
      var i := Find(v.RootEntries(), from, 0).value;
      RenamedAway(v.Loaded(v.root), i, to);
    }
  }

  /** An entry under a name that cannot be looked up has lost its clusters. */
  lemma RenamedAway(v: Vol, i: nat, to: Name)
    requires Inv(v) && i < |v.RootEntries()| && v.RootEntries()[i].IsLive() && !Storable(to)
    ensures v.root < |v.data| && i < Count(v.data[v.root])
    ensures !Inv(v.(buf := WithName(v.data[v.root], i, to)).Stored(v.root))
  {
    hide Inv, Entries, WithName, Entry.IsLive, Shaped, ChainsIn;
    LoadedInv(v);
    NameRefines(v.data[v.root], i, to);
    var v' := v.(buf := WithName(v.data[v.root], i, to)).Stored(v.root);
    UnstorableIsDead(v.RootEntries()[i].(name := to));
    if Inv(v') { EntryLost(v, v', i, v.RootEntries()[i].(name := to)); }
  }

  lemma UnstorableIsDead(e: Entry)
    ensures !Storable(e.name) ==> !e.IsLive()
  {
  }

  lemma EntryLost(v: Vol, v': Vol, i: nat, e: Entry)
    requires Inv(v) && i < |v.RootEntries()| && v.RootEntries()[i].IsLive() && !e.IsLive()
    requires v'.fat == v.fat && v'.root == v.root && v'.RootEntries() == v.RootEntries()[i := e]
    ensures !Inv(v')
  {
    hide Inv, Entries, Vol.RootEntries, Entry.IsLive, Fitting, DirOk, Counted, Chain, IsChain, Shaped, Covered;
    InvParts(v);
    LiveChain(v, i);
    var c := v.RootEntries()[i].first;
    assert c in ChainsIn(v)[i];
    PartitionInUse(v.root, Heads(v.RootEntries()), v.fat, ChainsIn(v));
    Uncovered(v.root, Heads(v.RootEntries()), v.fat, ChainsIn(v), i, c);
    assert ChainsIn(v') == ChainsIn(v)[i := []];
    if Inv(v') { InvParts(v'); }
  }

  lemma Uncovered(root: nat, heads: seq<Option<nat>>, fat: seq<nat>, chains: seq<seq<nat>>, i: nat, c: nat)
    requires Partition(root, heads, fat, chains) && i < |chains| && c in chains[i]
    ensures !Covered(chains[i := []], c)
  {
    hide Heading;
  }

  /** The size update that ends `fs_write` finds the entry that was opened exactly when the entry's name
      survives printing. */
  lemma SizeUpdateFindsOwnIff(es: seq<Entry>, i: nat)
    requires DirOk(es) && i < |es| && es[i].IsLive() && IsCString(es[i].name)
    ensures Find(es, To83(From83(es[i].name)), 0) == Some(i) <==> Canonical(es[i].name)
  {
    hide DirOk, Canonical, To83, From83, Entry.IsLive, Find;
    RoundTripIffCanonical(es[i].name);
    FindsLive(es, i);
    FindInRange(es, To83(From83(es[i].name)), 0);
  }
}
