/**
 The builders of RAM-disk images: `init_ramdisk`, which lays a list of files out on a 16 MB disk, and the
 first-use initialisation of the driver's own 4 MB disk, which holds one test file.

 Both write a boot sector, a first FAT copy (the second stays empty), a root directory and one cluster a file.
 The image they build denotes the tables `FatWith` and `DataWith`, and these make a sound volume exactly when
 the names of the files are storable and different.
 */
module RamDisk {
  import opened Bytes
  import opened FatImage
  import opened Chains
  import opened Allocator
  import opened Directory
  import opened VolumeState
  import opened FileContent
  import opened VolumeOps
  import opened AbstractFs
  import opened Refinement
  import opened Driver

  const CHAIN_END: nat := 0x0FFF_FFFF
  const CLUSTER: nat := 4096
  const MAX_FILES: nat := 16

  /** A file to be put on the disk: its 8.3 name and its content. */
  datatype IsoFile = IsoFile(name: Name, content: seq<Byte>)
  {
    function Kept(): nat { Min(|content|, CLUSTER) }
  }

  // ---- pokes on the image ----

  function WordPos(g: Geometry, c: nat): nat { g.fatStart * SECTOR_SIZE + 4 * c }

  /** The word of cluster `c` in the first FAT copy. */
  lemma WordAt(d: seq<Byte>, g: Geometry, c: nat)
    requires Fits(g, |d|) && c < g.Limit()
    ensures WordPos(g, c) + 4 <= g.dataStart * SECTOR_SIZE <= |d|
    ensures RawFat(d, g, 0, c) == De32(Window(d, WordPos(g, c), 4))
  {
    FatSectorFits(g, |d|, 0, c / 128);
    hide De32;
    assert FatSectorPos(g, 0, c / 128) + 4 * (c % 128) == WordPos(g, c);
    WindowOfWindow(d, FatSectorPos(g, 0, c / 128), SECTOR_SIZE, 4 * (c % 128), 4);
  }

  /** A word stored in the first FAT copy changes that entry alone. */
  lemma WordStored(d: seq<Byte>, g: Geometry, c: nat, x: nat)
    requires Fits(g, |d|) && c < g.Limit() && x < LOW28
    ensures WordPos(g, c) + 4 <= |d|
    ensures var d' := Splice(d, WordPos(g, c), Le32(x));
            && FatTable(d', g) == (if c < 2 then FatTable(d, g) else FatTable(d, g)[c := x])
            && ClusterTable(d', g) == ClusterTable(d, g)
  {
    hide De32, Le32, RawFat;
    WordAt(d, g, c);
    var d' := Splice(d, WordPos(g, c), Le32(x));
    forall e: nat | g.HasCluster(e)
      ensures FatEntry(d', g, e) == if e == c then x else FatEntry(d, g, e)
    {
      WordAt(d, g, e);
      WordAt(d', g, e);
      WindowOfSplice(d, WordPos(g, c), Le32(x), WordPos(g, e), 4);
      De32OfLe32(x);
      assert Window(Le32(x), 0, 4) == Le32(x);
    }
    forall e: nat | g.HasCluster(e)
      ensures Cluster(d', g, e) == Cluster(d, g, e)
    {
      ClusterFits(g, |d|, e);
      WindowOfSplice(d, WordPos(g, c), Le32(x), ClusterPos(g, e), g.Bpc());
    }
  }

  /** Bytes stored inside a cluster change that cluster alone. */
  lemma DataStored(d: seq<Byte>, g: Geometry, c: nat, off: nat, t: seq<Byte>)
    requires Fits(g, |d|) && g.HasCluster(c) && off + |t| <= g.Bpc()
    ensures ClusterPos(g, c) + off + |t| <= |d| && |ClusterTable(d, g)[c]| == g.Bpc()
    ensures var d' := Splice(d, ClusterPos(g, c) + off, t);
            && FatTable(d', g) == FatTable(d, g)
            && ClusterTable(d', g) == ClusterTable(d, g)[c := Splice(ClusterTable(d, g)[c], off, t)]
  {
    ClusterFits(g, |d|, c);
    var block := Splice(Cluster(d, g, c), off, t);
    ClusterWriteRefines(d, g, c, block);
    SpliceInto(d, ClusterPos(g, c), g.Bpc(), off, t);
  }

  lemma SpliceInto(d: seq<Byte>, at: nat, n: nat, off: nat, t: seq<Byte>)
    requires at + n <= |d| && off + |t| <= n
    ensures Splice(d, at, Splice(Window(d, at, n), off, t)) == Splice(d, at + off, t)
  {
  }

  // ---- the tables of a built image ----

  function FatWith(limit: nat, n: nat): (fat: seq<nat>)
    ensures |fat| == limit
    ensures forall c {:trigger fat[c]} :: 0 <= c < limit ==>
              fat[c] == if c < 2 then FAT32_EOC else if c < 3 + n then CHAIN_END else FAT32_FREE
  {
    seq(limit, (c: nat) => if c < 2 then FAT32_EOC else if c < 3 + n then CHAIN_END else FAT32_FREE)
  }

  function RootBytes(files: seq<IsoFile>, n: nat): (r: seq<Byte>)
    requires n <= |files| <= MAX_FILES
    ensures |r| == CLUSTER
  {
    if n == 0 then Zeros(CLUSTER)
    else WithNew(RootBytes(files, n - 1), n - 1, files[n - 1].name, ATTR_ARCHIVE, 2 + n, files[n - 1].Kept())
  }

  function FileBytes(f: IsoFile): (r: seq<Byte>)
    ensures |r| == CLUSTER
  {
    f.content[..f.Kept()] + Zeros(CLUSTER - f.Kept())
  }

  function DataWith(limit: nat, files: seq<IsoFile>, n: nat): (data: seq<seq<Byte>>)
    requires n <= |files| <= MAX_FILES
    ensures |data| == limit
    ensures forall c {:trigger data[c]} :: 0 <= c < limit ==>
              data[c] == if c < 2 then [] else if c == 2 then RootBytes(files, n)
                         else if c < 3 + n then FileBytes(files[c - 3]) else Zeros(CLUSTER)
  {
    seq(limit, (c: nat) =>
      if c < 2 then [] else if c == 2 then RootBytes(files, n)
      else if c < 3 + n then FileBytes(files[c - 3]) else Zeros(CLUSTER))
  }

  /** The layouts the builders use: the root is cluster 2, clusters have 4096 bytes, 16 files fit. */
  ghost predicate Plain(g: Geometry) { g.root == 2 && g.spc == 8 && g.Limit() >= 3 + MAX_FILES && g.fatStart >= 2 }

  /** The image denotes the tables with the first `n` files laid out. */
  ghost predicate Built(d: seq<Byte>, g: Geometry, files: seq<IsoFile>, n: nat)
  {
    && Fits(g, |d|) && Plain(g) && n <= |files| <= MAX_FILES
    && FatTable(d, g) == FatWith(g.Limit(), n) && ClusterTable(d, g) == DataWith(g.Limit(), files, n)
  }

  lemma BlankCluster(d: seq<Byte>, g: Geometry, c: nat)
    requires Fits(g, |d|) && g.HasCluster(c) && forall k :: g.fatStart * SECTOR_SIZE <= k < |d| ==> d[k] == 0
    ensures FatEntry(d, g, c) == FAT32_FREE && Cluster(d, g, c) == Zeros(g.Bpc())
  {
    WordAt(d, g, c);
    ClusterFits(g, |d|, c);
  }

  lemma BlankTables(d: seq<Byte>, g: Geometry)
    requires Fits(g, |d|) && Plain(g) && forall k :: g.fatStart * SECTOR_SIZE <= k < |d| ==> d[k] == 0
    ensures FatTable(d, g)[2 := CHAIN_END] == FatWith(g.Limit(), 0) && ClusterTable(d, g) == DataWith(g.Limit(), [], 0)
  {
    forall c: nat | g.HasCluster(c)
      ensures FatEntry(d, g, c) == FAT32_FREE && Cluster(d, g, c) == Zeros(g.Bpc())
    {
      BlankCluster(d, g, c);
    }
    hide FatEntry, Cluster, Zeros;
    assert RootBytes([], 0) == Zeros(CLUSTER);
  }

  // ---- the builders ----

  /** What lies in front of the FAT. */
  function Head(d: seq<Byte>, g: Geometry): seq<Byte> {
    if g.fatStart * SECTOR_SIZE <= |d| then d[..g.fatStart * SECTOR_SIZE] else d
  }

  /** A word stored in the first FAT copy. */
  method PokeWord(disk: array<Byte>, g: Geometry, c: nat, x: nat)
    requires Fits(g, disk.Length) && c < g.Limit() && x < LOW28
    modifies disk
    ensures FatTable(disk[..], g) == (if c < 2 then old(FatTable(disk[..], g)) else old(FatTable(disk[..], g))[c := x])
    ensures ClusterTable(disk[..], g) == old(ClusterTable(disk[..], g)) && Head(disk[..], g) == old(Head(disk[..], g))
  {
    hide FatTable, ClusterTable, Fits, Le32;
    WordStored(disk[..], g, c, x);
    Poke(disk, WordPos(g, c), Le32(x));
  }

  /** Bytes stored inside a cluster. */
  method PokeData(disk: array<Byte>, g: Geometry, c: nat, off: nat, t: seq<Byte>)
    requires Fits(g, disk.Length) && g.HasCluster(c) && off + |t| <= g.Bpc()
    modifies disk
    ensures FatTable(disk[..], g) == old(FatTable(disk[..], g)) && Head(disk[..], g) == old(Head(disk[..], g))
    ensures |old(ClusterTable(disk[..], g))[c]| == g.Bpc()
    ensures ClusterTable(disk[..], g) ==
            old(ClusterTable(disk[..], g))[c := Splice(old(ClusterTable(disk[..], g))[c], off, t)]
  {
    hide FatTable, ClusterTable;
    DataStored(disk[..], g, c, off, t);
    ClusterFits(g, disk.Length, c);
    assert g.fatStart * SECTOR_SIZE <= ClusterPos(g, c) by { WordAt(disk[..], g, 0); }
    hide Fits;
    Poke(disk, ClusterPos(g, c) + off, t);
  }

  /** The five field writes fill an empty entry. */
  lemma EntryPieces(dir: seq<Byte>, i: nat, name: Name, first: nat, size: nat)
    requires i < Count(dir) && Window(dir, ENTRY_SIZE * i, ENTRY_SIZE) == Zeros(ENTRY_SIZE) && first < 0x1_0000
             && size < WORD
    ensures var at := ENTRY_SIZE * i;
            var d1 := Splice(Splice(dir, at, name), at + 11, [ATTR_ARCHIVE]);
            var d2 := Splice(Splice(d1, at + 26, Le16(first)), at + 20, Le16(0));
            Splice(d2, at + 28, Le32(size)) == WithNew(dir, i, name, ATTR_ARCHIVE, first, size)
  {
    hide Le16, Le32;
    var at := ENTRY_SIZE * i;
    var b := MakeEntry(name, ATTR_ARCHIVE, first, size);
    assert at + ENTRY_SIZE <= |dir|;
    assert forall k :: 0 <= k < ENTRY_SIZE ==> Window(dir, at, ENTRY_SIZE)[k] == dir[at + k];
    assert b[..11] == name && b[11] == ATTR_ARCHIVE;
    ZeroHalf();
    assert b[20..22] == Le16(0) && b[26..28] == Le16(first) && b[28..] == Le32(size);
    assert forall k :: 12 <= k < 20 || 22 <= k < 26 ==> b[k] == 0;
    var r := Splice(Splice(Splice(Splice(Splice(dir, at, name), at + 11, [ATTR_ARCHIVE]), at + 26, Le16(first)),
        at + 20, Le16(0)), at + 28, Le32(size));
    forall k | 0 <= k < |dir|
      ensures r[k] == WithNew(dir, i, name, ATTR_ARCHIVE, first, size)[k]
    {
      FivePieces(dir, at, name, ATTR_ARCHIVE, Le16(first), Le16(0), Le32(size), k);
      if at <= k < at + ENTRY_SIZE {
        var j := k - at;
        if j < 11 { assert b[j] == b[..11][j]; }
        else if 20 <= j < 22 { assert b[j] == b[20..22][j - 20]; }
        else if 26 <= j < 28 { assert b[j] == b[26..28][j - 26]; }
        else if 28 <= j { assert b[j] == b[28..][j - 28]; }
      }
    }
  }

  lemma FivePieces(d: seq<Byte>, at: nat, name: Name, attr: Byte, low: seq<Byte>, high: seq<Byte>, size: seq<Byte>,
                   k: nat)
    requires at + ENTRY_SIZE <= |d| && |low| == |high| == 2 && |size| == 4 && k < |d|
    ensures var j := k - at;
            Splice(Splice(Splice(Splice(Splice(d, at, name), at + 11, [attr]), at + 26, low), at + 20, high),
                   at + 28, size)[k] ==
            if 0 <= j < 11 then name[j] else if j == 11 then attr else if 20 <= j < 22 then high[j - 20]
            else if 26 <= j < 28 then low[j - 26] else if 28 <= j < 32 then size[j - 28] else d[k]
  {
  }

  lemma ZeroHalf()
    ensures Le16(0) == [0, 0]
  {
  }

  /** Rewriting the size of an entry just made. */
  lemma EntryResized(dir: seq<Byte>, i: nat, name: Name, first: nat, size: nat, kept: nat)
    requires i < Count(dir) && first < WORD && size < WORD && kept < WORD
    ensures Splice(WithNew(dir, i, name, ATTR_ARCHIVE, first, size), ENTRY_SIZE * i + 28, Le32(kept)) ==
            WithNew(dir, i, name, ATTR_ARCHIVE, first, kept)
  {
    hide Le32, Le16;
    var a, b := MakeEntry(name, ATTR_ARCHIVE, first, size), MakeEntry(name, ATTR_ARCHIVE, first, kept);
    assert a[..28] == b[..28] && b[28..] == Le32(kept);
    var at := ENTRY_SIZE * i;
    var r := Splice(WithNew(dir, i, name, ATTR_ARCHIVE, first, size), at + 28, Le32(kept));
    forall k | 0 <= k < |dir|
      ensures r[k] == WithNew(dir, i, name, ATTR_ARCHIVE, first, kept)[k]
    {
      if at <= k < at + 28 { assert a[k - at] == a[..28][k - at] == b[..28][k - at]; }
      else if at + 28 <= k < at + ENTRY_SIZE { assert b[k - at] == b[28..][k - at - 28]; }
    }
  }

  /** Slots not filled yet are empty. */
  lemma {:induction false} SlotEmpty(files: seq<IsoFile>, n: nat, i: nat)
    requires n <= i < CLUSTER / ENTRY_SIZE && n <= |files| <= MAX_FILES
    ensures Window(RootBytes(files, n), ENTRY_SIZE * i, ENTRY_SIZE) == Zeros(ENTRY_SIZE)
  {
    if n > 0 {
      SlotEmpty(files, n - 1, i);
      var b := MakeEntry(files[n - 1].name, ATTR_ARCHIVE, 2 + n, files[n - 1].Kept());
      WindowOfSplice(RootBytes(files, n - 1), ENTRY_SIZE * (n - 1), b, ENTRY_SIZE * i, ENTRY_SIZE);
    }
  }

  lemma ContentStored(f: IsoFile)
    ensures Splice(Zeros(CLUSTER), 0, f.content[..f.Kept()]) == FileBytes(f)
  {
  }

  /** The tables after one more file. */
  lemma TablesGrow(limit: nat, files: seq<IsoFile>, n: nat, fat: seq<nat>, data: seq<seq<Byte>>)
    requires n < |files| <= MAX_FILES && 3 + MAX_FILES <= limit
    requires fat == FatWith(limit, n)[3 + n := CHAIN_END]
    requires data == DataWith(limit, files, n)[3 + n := FileBytes(files[n])][2 := RootBytes(files, n + 1)]
    ensures fat == FatWith(limit, n + 1) && data == DataWith(limit, files, n + 1)
  {
    hide RootBytes, FileBytes;
  }

  /** The root cluster with entry `n` filled in, its size still that of the whole content. */
  method EnterFile(disk: array<Byte>, g: Geometry, ghost files: seq<IsoFile>, n: nat, f: IsoFile)
    requires Built(disk[..], g, files, n) && n < |files| && f == files[n] && |f.content| < WORD
    modifies disk
    ensures Fits(g, disk.Length) && FatTable(disk[..], g) == FatWith(g.Limit(), n)
            && Head(disk[..], g) == old(Head(disk[..], g))
    ensures ClusterTable(disk[..], g) ==
            DataWith(g.Limit(), files, n)
            [2 := WithNew(RootBytes(files, n), n, f.name, ATTR_ARCHIVE, 3 + n, |f.content|)]
  {
    hide FatTable, ClusterTable, RootBytes, WithNew, Le16, Le32, Splice, Head;
    SlotEmpty(files, n, n);
    EntryPieces(RootBytes(files, n), n, f.name, 3 + n, |f.content|);
    PokeData(disk, g, 2, ENTRY_SIZE * n, f.name);
    PokeData(disk, g, 2, ENTRY_SIZE * n + 11, [ATTR_ARCHIVE]);
    PokeData(disk, g, 2, ENTRY_SIZE * n + 26, Le16(3 + n));
    PokeData(disk, g, 2, ENTRY_SIZE * n + 20, Le16(0));
    PokeData(disk, g, 2, ENTRY_SIZE * n + 28, Le32(|f.content|));
  }

  /** One turn of the loop over the files. */
  method AddFile(disk: array<Byte>, g: Geometry, ghost files: seq<IsoFile>, n: nat, f: IsoFile)
    requires Built(disk[..], g, files, n) && n < |files| && f == files[n] && |f.content| < WORD
    modifies disk
    ensures Built(disk[..], g, files, n + 1) && Head(disk[..], g) == old(Head(disk[..], g))
  {
    hide FatTable, ClusterTable, WithNew, Le32, Splice, Head, FileBytes;
    ghost var root := RootBytes(files, n);
    EnterFile(disk, g, files, n, f);
    PokeWord(disk, g, 3 + n, CHAIN_END);
    ContentStored(f);
    var copied := if |f.content| > CLUSTER then CLUSTER else |f.content|;
    PokeData(disk, g, 3 + n, 0, f.content[..copied]);
    if copied < |f.content| {
      EntryResized(root, n, f.name, 3 + n, |f.content|, copied);
      PokeData(disk, g, 2, ENTRY_SIZE * n + 28, Le32(copied));
    }
    TablesGrow(g.Limit(), files, n, FatTable(disk[..], g), ClusterTable(disk[..], g));
  }

  // ---- the boot sector ----

  /** The fields of the boot sector that describe the layout, and its signature. */
  ghost predicate BootShows(head: seq<Byte>, sectors: nat, fatSize: nat)
    requires sectors < WORD && fatSize < WORD
  {
    && |head| >= 2 * SECTOR_SIZE
    && Window(head, 11, 6) == Le16(SECTOR_SIZE) + [8] + Le16(32) + [2]
    && Window(head, 32, 8) == Le32(sectors) + Le32(fatSize) && Window(head, 44, 4) == Le32(2)
    && Window(head, 510, 2) == [0x55, 0xAA]
  }

  function LayoutOf(sectors: nat, fatSize: nat): Geometry
    requires sectors >= 32 + 2 * fatSize
  {
    Geometry(32, 2, fatSize, 32 + 2 * fatSize, 2, 8, (sectors - (32 + 2 * fatSize)) / 8)
  }

  /** Mounting reads the layout back. */
  lemma BootReads(d: seq<Byte>, sectors: nat, fatSize: nat)
    requires sectors < WORD && fatSize < WORD && sectors >= 32 + 2 * fatSize && BootShows(d, sectors, fatSize)
    ensures SectorSizeOk(d) && BootGeometry(d) == LayoutOf(sectors, fatSize)
  {
    hide Le32, De32;
    WindowOfWindow(d, 11, 6, 0, 2);
    WindowOfWindow(d, 11, 6, 3, 2);
    WindowOfWindow(d, 32, 8, 0, 4);
    WindowOfWindow(d, 32, 8, 4, 4);
    var w, u := Window(d, 11, 6), Window(d, 32, 8);
    assert Window(w, 0, 2) == Le16(SECTOR_SIZE) && Window(w, 3, 2) == Le16(32) && w[2] == d[13] && w[5] == d[16];
    assert Window(u, 0, 4) == Le32(sectors) && Window(u, 4, 4) == Le32(fatSize);
    De32OfLe32(sectors);
    De32OfLe32(fatSize);
    De32OfLe32(2);
  }

  /** The other fields of the boot sector, and the FSInfo sector: "SYNCWIDE" behind the jump, the serial number, the
      labels "SYNCWIDEOS " and "FAT32   ", and the signatures. */
  ghost predicate LabelsShow(d: seq<Byte>) { |d| >= 2 * SECTOR_SIZE && BootLabels(d) && InfoLabels(d) }

  ghost predicate BootLabels(d: seq<Byte>)
    requires |d| >= 2 * SECTOR_SIZE
  {
    && d[..11] == [0xEB, 0x58, 0x90] + [83, 89, 78, 67, 87, 73, 68, 69]
    && d[21] == 0xF8 && d[24..28] == [63, 0, 255, 0] && d[48..52] == [1, 0, 6, 0] && d[64] == 0x80
    && d[66..90] == [0x29, 0x78, 0x56, 0x34, 0x12, 83, 89, 78, 67, 87, 73, 68, 69, 79, 83, 32,
                     70, 65, 84, 51, 50, 32, 32, 32]
  }

  ghost predicate InfoLabels(d: seq<Byte>)
    requires |d| >= 2 * SECTOR_SIZE
  {
    && d[512..516] == [0x52, 0x52, 0x61, 0x41] && d[996..1000] == [0x72, 0x72, 0x41, 0x61]
    && d[1000..1004] == [255, 255, 255, 255] && d[1004..1008] == [3, 0, 0, 0] && d[1020..1024] == [0, 0, 0x55, 0xAA]
  }

  /** A field outside those that describe the layout. */
  lemma BootKept(d: seq<Byte>, at: nat, t: seq<Byte>, sectors: nat, fatSize: nat)
    requires sectors < WORD && fatSize < WORD && BootShows(d, sectors, fatSize) && at + |t| <= |d|
    requires at + |t| <= 11 || (17 <= at && at + |t| <= 32) || (40 <= at && at + |t| <= 44)
             || (48 <= at && at + |t| <= 510) || 512 <= at
    ensures BootShows(Splice(d, at, t), sectors, fatSize)
  {
    hide Le32;
    WindowOfSplice(d, at, t, 11, 6);
    WindowOfSplice(d, at, t, 32, 8);
    WindowOfSplice(d, at, t, 44, 4);
    WindowOfSplice(d, at, t, 510, 2);
  }

  /** The fields that describe the layout, and the signature. */
  method WriteLayout(disk: array<Byte>, sectors: nat, fatSize: nat)
    requires disk.Length >= 2 * SECTOR_SIZE && sectors < WORD && fatSize < WORD
    modifies disk
    ensures BootShows(disk[..], sectors, fatSize)
    ensures forall k :: 2 * SECTOR_SIZE <= k < disk.Length ==> disk[k] == old(disk[k])
  {
    hide Le32, Splice;
    Poke(disk, 11, Le16(SECTOR_SIZE) + [8] + Le16(32) + [2]);
    ghost var d1 := disk[..];
    Poke(disk, 32, Le32(sectors) + Le32(fatSize));
    ghost var d2 := disk[..];
    Poke(disk, 44, Le32(2));
    Poke(disk, 510, Le16(0xAA55));
    FieldsKept(old(disk[..]), Le16(SECTOR_SIZE) + [8] + Le16(32) + [2], Le32(sectors) + Le32(fatSize), Le32(2),
               Le16(0xAA55));
    SignatureBytes();
  }

  lemma SignatureBytes()
    ensures Le16(0xAA55) == [0x55, 0xAA]
  {
  }

  lemma FieldsKept(d: seq<Byte>, a: seq<Byte>, b: seq<Byte>, c: seq<Byte>, e: seq<Byte>)
    requires |d| >= 2 * SECTOR_SIZE && |a| == 6 && |b| == 8 && |c| == 4 && |e| == 2
    ensures var d' := Splice(Splice(Splice(Splice(d, 11, a), 32, b), 44, c), 510, e);
            && Window(d', 11, 6) == a && Window(d', 32, 8) == b && Window(d', 44, 4) == c && Window(d', 510, 2) == e
            && forall k :: 512 <= k < |d| ==> d'[k] == d[k]
  {
  }

  /** A field of the boot sector or of the FSInfo sector that does not describe the layout. */
  method Label(disk: array<Byte>, at: nat, t: seq<Byte>, ghost sectors: nat, ghost fatSize: nat)
    requires sectors < WORD && fatSize < WORD && BootShows(disk[..], sectors, fatSize)
    requires at + |t| <= 11 || (17 <= at && at + |t| <= 32) || (48 <= at && at + |t| <= 510)
             || (512 <= at && at + |t| <= 2 * SECTOR_SIZE)
    modifies disk
    ensures BootShows(disk[..], sectors, fatSize) && disk[..] == Splice(old(disk[..]), at, t)
    ensures forall k :: 2 * SECTOR_SIZE <= k < disk.Length ==> disk[k] == old(disk[k])
  {
    BootKept(disk[..], at, t, sectors, fatSize);
    ghost var before := disk[..];
    assert forall k :: 2 * SECTOR_SIZE <= k < |before| ==> Splice(before, at, t)[k] == before[k];
    hide BootShows;
    Poke(disk, at, t);
    assert forall k :: 2 * SECTOR_SIZE <= k < disk.Length ==> disk[k] == disk[..][k];
  }

  const OEM: seq<Byte> := [0xEB, 0x58, 0x90, 83, 89, 78, 67, 87, 73, 68, 69]
  const LABELS: seq<Byte> :=
    [0x29, 0x78, 0x56, 0x34, 0x12, 83, 89, 78, 67, 87, 73, 68, 69, 79, 83, 32, 70, 65, 84, 51, 50, 32, 32, 32]

  /** The other fields that `init_ramdisk` sets in the first two sectors. */
  method WriteLabels(disk: array<Byte>, ghost sectors: nat, ghost fatSize: nat)
    requires sectors < WORD && fatSize < WORD && BootShows(disk[..], sectors, fatSize)
    modifies disk
    ensures BootShows(disk[..], sectors, fatSize) && LabelsShow(disk[..])
    ensures forall k :: 2 * SECTOR_SIZE <= k < disk.Length ==> disk[k] == old(disk[k])
  {
    assert disk.Length >= 2 * SECTOR_SIZE;
    hide BootShows, Le16, Le32, Splice, LabelsShow;
    ghost var d := disk[..];
    Label(disk, 0, OEM, sectors, fatSize);
    Label(disk, 21, [0xF8], sectors, fatSize);
    Label(disk, 24, Le16(63) + Le16(255), sectors, fatSize);
    Label(disk, 48, Le16(1) + Le16(6), sectors, fatSize);
    Label(disk, 64, [0x80], sectors, fatSize);
    Label(disk, 66, LABELS, sectors, fatSize);
    ghost var d' := disk[..];
    Label(disk, 512, Le32(0x41615252), sectors, fatSize);
    Label(disk, 996, Le32(0x61417272), sectors, fatSize);
    Label(disk, 1000, Le32(0xFFFFFFFF), sectors, fatSize);
    Label(disk, 1004, Le32(3), sectors, fatSize);
    Label(disk, 1020, Le32(0xAA550000), sectors, fatSize);
    LabelsSet(d, d', disk[..]);
  }

  lemma LabelsSet(d: seq<Byte>, d': seq<Byte>, d'': seq<Byte>)
    requires |d| >= 2 * SECTOR_SIZE
    requires d' == Splice(Splice(Splice(Splice(Splice(Splice(d, 0, OEM), 21, [0xF8]), 24, Le16(63) + Le16(255)),
                                        48, Le16(1) + Le16(6)), 64, [0x80]), 66, LABELS)
    requires d'' == Splice(Splice(Splice(Splice(Splice(d', 512, Le32(0x41615252)), 996, Le32(0x61417272)),
                                         1000, Le32(0xFFFFFFFF)), 1004, Le32(3)), 1020, Le32(0xAA550000))
    ensures LabelsShow(d'')
  {
    hide Le16, Le32, BootLabels, InfoLabels;
    LabelWords();
    BootLabelsSet(d);
    InfoLabelsSet(d', Le32(0x41615252), Le32(0x61417272), Le32(0xFFFFFFFF), Le32(3), Le32(0xAA550000));
  }

  lemma LabelWords()
    ensures Le16(63) + Le16(255) == [63, 0, 255, 0] && Le16(1) + Le16(6) == [1, 0, 6, 0] && Le32(3) == [3, 0, 0, 0]
    ensures Le32(0x41615252) == [0x52, 0x52, 0x61, 0x41] && Le32(0x61417272) == [0x72, 0x72, 0x41, 0x61]
    ensures Le32(0xFFFFFFFF) == [255, 255, 255, 255] && Le32(0xAA550000) == [0, 0, 0x55, 0xAA]
  {
  }

  lemma BootLabelsSet(d: seq<Byte>)
    requires |d| >= 2 * SECTOR_SIZE
    ensures BootLabels(Splice(Splice(Splice(Splice(Splice(Splice(d, 0, OEM), 21, [0xF8]), 24, [63, 0, 255, 0]),
                                            48, [1, 0, 6, 0]), 64, [0x80]), 66, LABELS))
  {
    var r := Splice(Splice(Splice(Splice(Splice(Splice(d, 0, OEM), 21, [0xF8]), 24, [63, 0, 255, 0]),
                                  48, [1, 0, 6, 0]), 64, [0x80]), 66, LABELS);
    assert r[66..90] == LABELS;
  }

  lemma InfoLabelsSet(d: seq<Byte>, a: seq<Byte>, b: seq<Byte>, c: seq<Byte>, e: seq<Byte>, f: seq<Byte>)
    requires |d| >= 2 * SECTOR_SIZE && BootLabels(d)
    requires a == [0x52, 0x52, 0x61, 0x41] && b == [0x72, 0x72, 0x41, 0x61] && c == [255, 255, 255, 255]
             && e == [3, 0, 0, 0] && f == [0, 0, 0x55, 0xAA]
    ensures LabelsShow(Splice(Splice(Splice(Splice(Splice(d, 512, a), 996, b), 1000, c), 1004, e), 1020, f))
  {
  }

  /** Sizes for which the layout lies on the disk. */
  ghost predicate Roomy(length: nat, sectors: nat, fatSize: nat)
  {
    && sectors < WORD && fatSize < WORD && sectors >= 32 + 2 * fatSize && length == sectors * SECTOR_SIZE
    && Fits(LayoutOf(sectors, fatSize), length) && Plain(LayoutOf(sectors, fatSize))
  }

  /** The disk zeroed. */
  method Clear(disk: array<Byte>)
    modifies disk
    ensures forall k :: 0 <= k < disk.Length ==> disk[k] == 0
  {
    var i := 0;
    while i < disk.Length
      invariant i <= disk.Length && forall k :: 0 <= k < i ==> disk[k] == 0
    {
      disk[i] := 0;
      i := i + 1;
    }
  }

  /** The three reserved entries of the FAT on an otherwise empty image. */
  method StartFat(disk: array<Byte>, g: Geometry, ghost files: seq<IsoFile>)
    requires Fits(g, disk.Length) && Plain(g) && |files| <= MAX_FILES
    requires forall k :: g.fatStart * SECTOR_SIZE <= k < disk.Length ==> disk[k] == 0
    modifies disk
    ensures Built(disk[..], g, files, 0) && Head(disk[..], g) == old(Head(disk[..], g))
  {
    hide FatTable, ClusterTable, Head;
    BlankTables(disk[..], g);
    PokeWord(disk, g, 0, FAT32_EOC);
    PokeWord(disk, g, 1, CHAIN_END);
    PokeWord(disk, g, 2, CHAIN_END);
    assert DataWith(g.Limit(), files, 0) == DataWith(g.Limit(), [], 0);
  }

  /** The labels lie in the first two sectors. */
  lemma LabelsInside(d: seq<Byte>)
    requires |d| >= 2 * SECTOR_SIZE
    ensures LabelsShow(d) <==> LabelsShow(d[..2 * SECTOR_SIZE])
  {
  }

  lemma HeadShows(d: seq<Byte>, sectors: nat, fatSize: nat)
    requires sectors < WORD && fatSize < WORD && sectors >= 32 + 2 * fatSize && |d| >= 32 * SECTOR_SIZE
    ensures BootShows(Head(d, LayoutOf(sectors, fatSize)), sectors, fatSize) <==> BootShows(d, sectors, fatSize)
    ensures LabelsShow(Head(d, LayoutOf(sectors, fatSize))) <==> LabelsShow(d)
  {
    hide Le32;
    var head := Head(d, LayoutOf(sectors, fatSize));
    assert Window(head, 11, 6) == Window(d, 11, 6) && Window(head, 32, 8) == Window(d, 32, 8)
        && Window(head, 44, 4) == Window(d, 44, 4) && Window(head, 510, 2) == Window(d, 510, 2);
    assert head[..2 * SECTOR_SIZE] == d[..2 * SECTOR_SIZE];
    LabelsInside(head);
    LabelsInside(d);
  }

  /** The files that end up on the disk: the first sixteen, or the test file when there is none. */
  function Chosen(files: seq<IsoFile>, fallback: IsoFile): (r: seq<IsoFile>)
    ensures 1 <= |r| <= MAX_FILES
  {
    if files == [] then [fallback] else files[..Min(|files|, MAX_FILES)]
  }

  /** Of many files the first 16 are taken, and of a long one the first 4096 bytes; without any, a file of 30 bytes. */
  lemma ChosenAre(files: seq<IsoFile>)
    ensures var r := Chosen(files, TEST_FILE);
            if files == [] then |r| == 1 && r[0].name == TEST_NAME && |r[0].content| == 30
            else r == if |files| > 16 then files[..16] else files
    ensures forall f: IsoFile :: f.content[..f.Kept()] == if |f.content| > 4096 then f.content[..4096] else f.content
    ensures |DRIVER_FILE.content| == 26
  {
  }

  /** The loop over the files. */
  method AddFiles(disk: array<Byte>, g: Geometry, files: seq<IsoFile>)
    requires Built(disk[..], g, files[..Min(|files|, MAX_FILES)], 0)
    requires forall f :: f in files ==> |f.content| < WORD
    modifies disk
    ensures Built(disk[..], g, files[..Min(|files|, MAX_FILES)], Min(|files|, MAX_FILES))
    ensures Head(disk[..], g) == old(Head(disk[..], g))
  {
    hide Built, Head;
    ghost var kept := files[..Min(|files|, MAX_FILES)];
    var added: nat := 0;
    while added < |files| && added < MAX_FILES
      invariant added <= |kept| && Built(disk[..], g, kept, added) && Head(disk[..], g) == old(Head(disk[..], g))
    {
      AddFile(disk, g, kept, added, files[added]);
      added := added + 1;
    }
  }

  /** An empty volume: cleared, with its boot sector and the start of its FAT. */
  method Format(disk: array<Byte>, sectors: nat, fatSize: nat, labels: bool, ghost files: seq<IsoFile>)
    requires Roomy(disk.Length, sectors, fatSize) && |files| <= MAX_FILES
    modifies disk
    ensures Built(disk[..], LayoutOf(sectors, fatSize), files, 0) && BootShows(disk[..], sectors, fatSize)
    ensures labels ==> LabelsShow(disk[..])
  {
    hide Built, BootShows, Head, LabelsShow;
    Clear(disk);
    WriteLayout(disk, sectors, fatSize);
    if labels { WriteLabels(disk, sectors, fatSize); }
    HeadShows(disk[..], sectors, fatSize);
    StartFat(disk, LayoutOf(sectors, fatSize), files);
    HeadShows(disk[..], sectors, fatSize);
  }

  const TEST_NAME: Name := [84, 69, 83, 84, 32, 32, 32, 32, 84, 88, 84]

  /** "Hello from FAT32 filesystem!", a newline and a zero byte. */
  const TEST_FILE: IsoFile := IsoFile(TEST_NAME,
    [72, 101, 108, 108, 111, 32, 102, 114, 111, 109, 32, 70, 65, 84, 51, 50, 32,
     102, 105, 108, 101, 115, 121, 115, 116, 101, 109, 33, 10, 0])

  /** "Hello from FAT32 system!", a newline and a zero byte. */
  const DRIVER_FILE: IsoFile := IsoFile(TEST_NAME,
    [72, 101, 108, 108, 111, 32, 102, 114, 111, 109, 32, 70, 65, 84, 51, 50, 32,
     115, 121, 115, 116, 101, 109, 33, 10, 0])

  const ISO_SECTORS: nat := 32768
  const DRIVER_SECTORS: nat := 8192

  /** `init_ramdisk`, on its 16 MB. */
  method InitRamDisk(disk: array<Byte>, files: seq<IsoFile>)
    requires disk.Length == ISO_SECTORS * SECTOR_SIZE && forall f :: f in files ==> |f.content| < WORD
    modifies disk
    ensures var kept := Chosen(files, TEST_FILE); Built(disk[..], LayoutOf(ISO_SECTORS, 128), kept, |kept|)
    ensures BootShows(disk[..], ISO_SECTORS, 128) && LabelsShow(disk[..])
  {
    hide Built, BootShows, Head, LabelsShow;
    Format(disk, ISO_SECTORS, 128, true, Chosen(files, TEST_FILE));
    HeadShows(disk[..], ISO_SECTORS, 128);
    if |files| > 0 {
      AddFiles(disk, LayoutOf(ISO_SECTORS, 128), files);
    } else {
      AddFile(disk, LayoutOf(ISO_SECTORS, 128), [TEST_FILE], 0, TEST_FILE);
    }
    HeadShows(disk[..], ISO_SECTORS, 128);
  }

  /** The first use of the driver's own disk of 4 MB. */
  method InitDriverDisk(disk: array<Byte>)
    requires disk.Length == DRIVER_SECTORS * SECTOR_SIZE
    modifies disk
    ensures Built(disk[..], LayoutOf(DRIVER_SECTORS, 64), [DRIVER_FILE], 1) && BootShows(disk[..], DRIVER_SECTORS, 64)
  {
    hide Built, BootShows, Head;
    Format(disk, DRIVER_SECTORS, 64, false, [DRIVER_FILE]);
    HeadShows(disk[..], DRIVER_SECTORS, 64);
    AddFile(disk, LayoutOf(DRIVER_SECTORS, 64), [DRIVER_FILE], 0, DRIVER_FILE);
    HeadShows(disk[..], DRIVER_SECTORS, 64);
  }

  // ---- what the image stands for ----

  const BLANK: Entry := Entry(Zeros(11), 0, 0, 0)

  function EntriesWith(files: seq<IsoFile>, n: nat): (es: seq<Entry>)
    requires n <= |files| <= MAX_FILES
    ensures |es| == CLUSTER / ENTRY_SIZE
    ensures forall i {:trigger es[i]} :: 0 <= i < |es| ==>
            es[i] == if i < n then Entry(files[i].name, ATTR_ARCHIVE, 3 + i, files[i].Kept()) else BLANK
  {
    seq(CLUSTER / ENTRY_SIZE, (i: nat) =>
      if i < n then Entry(files[i].name, ATTR_ARCHIVE, 3 + i, files[i].Kept()) else BLANK)
  }

  lemma BlankEntries()
    ensures forall i :: 0 <= i < CLUSTER / ENTRY_SIZE ==> Entries(Zeros(CLUSTER))[i] == BLANK
  {
    forall i | 0 <= i < CLUSTER / ENTRY_SIZE
      ensures Entries(Zeros(CLUSTER))[i] == BLANK
    {
      assert EntryBytes(Zeros(CLUSTER), i) == Zeros(ENTRY_SIZE);
      assert Window(Zeros(ENTRY_SIZE), 0, 11) == Zeros(11);
    }
  }

  /** The root directory lists the files in order. */
  lemma {:induction false} RootListsFiles(files: seq<IsoFile>, n: nat)
    requires n <= |files| <= MAX_FILES
    ensures Entries(RootBytes(files, n)) == EntriesWith(files, n)
  {
    hide Entries, WithNew;
    if n == 0 {
      BlankEntries();
    } else {
      RootListsFiles(files, n - 1);
      NewRefines(RootBytes(files, n - 1), n - 1, files[n - 1].name, ATTR_ARCHIVE, 2 + n, files[n - 1].Kept());
    }
  }

  /** The state of a volume whose image is built and whose counters are as `fs_mount` leaves them. */
  ghost predicate FreshVolume(v: Vol, files: seq<IsoFile>)
  {
    && |files| <= MAX_FILES && 3 + MAX_FILES <= |v.fat| <= FAT32_EOC
    && v == Vol(2, FatWith(|v.fat|, |files|), DataWith(|v.fat|, files, |files|), 0, 3, v.buf) && |v.buf| == CLUSTER
  }

  lemma FreshIsShaped(v: Vol, files: seq<IsoFile>)
    requires FreshVolume(v, files)
    ensures Shaped(v) && Counted(v.PoolOf()) && v.RootEntries() == EntriesWith(files, |files|)
  {
    RootListsFiles(files, |files|);
    hide Entries, RootBytes, FileBytes;
  }

  /** For every list of files: entry `i` starts a chain of one cluster, chains of different entries and the root
      are disjoint, and following it yields exactly the kept part of the content. */
  lemma FilesAreLaidOut(v: Vol, files: seq<IsoFile>, i: nat)
    requires FreshVolume(v, files) && i < |files|
    ensures v.RootEntries()[i] == Entry(files[i].name, ATTR_ARCHIVE, 3 + i, files[i].Kept())
    ensures IsChain(v.fat, [3 + i]) && Chain(v.fat, 3 + i) == [3 + i] && v.root !in Chain(v.fat, 3 + i)
    ensures Contents(v, Chain(v.fat, 3 + i), files[i].Kept()) == files[i].content[..Min(|files[i].content|, CLUSTER)]
  {
    FreshIsShaped(v, files);
    hide Entries, RootBytes, Shaped, Counted, DataWith, Flat;
    SingletonChain(v.fat, 3 + i);
    ChainFound(v.fat, [3 + i]);
    hide Chain, IsChain;
    OneCluster(v, files, i);
  }

  lemma OneCluster(v: Vol, files: seq<IsoFile>, i: nat)
    requires FreshVolume(v, files) && i < |files|
    ensures Flat(v.data, [3 + i]) == FileBytes(files[i])
  {
    hide RootBytes, FileBytes;
    assert [3 + i][..0] == [];
  }

  /** The names can be looked up again, and tell the files apart. */
  predicate NamesOk(files: seq<IsoFile>)
  {
    && (forall i :: 0 <= i < |files| ==> Storable(files[i].name))
    && (forall i, j :: 0 <= i < j < |files| ==> files[i].name != files[j].name)
  }

  lemma StorableIsLive(files: seq<IsoFile>, i: nat)
    requires |files| <= MAX_FILES && i < CLUSTER / ENTRY_SIZE
    ensures EntriesWith(files, |files|)[i].IsLive() <==> i < |files| && Storable(files[i].name)
  {
  }

  function Singles(n: nat, m: nat): (chains: seq<seq<nat>>)
    ensures |chains| == m
    ensures forall i {:trigger chains[i]} :: 0 <= i < m ==> chains[i] == if i < n then [3 + i] else []
  {
    seq(m, (i: nat) => if i < n then [3 + i] else [])
  }

  lemma FreshHeading(v: Vol, files: seq<IsoFile>, i: nat)
    requires FreshVolume(v, files) && NamesOk(files) && i < CLUSTER / ENTRY_SIZE
    ensures var es := EntriesWith(files, |files|); Heading(v.root, Heads(es)[i], v.fat, Singles(|files|, |es|)[i])
  {
    hide RootBytes, FileBytes, DataWith, Entry.IsLive, Storable;
    StorableIsLive(files, i);
    if i < |files| { SingletonChain(v.fat, 3 + i); }
  }

  lemma FreshPartition(v: Vol, files: seq<IsoFile>)
    requires FreshVolume(v, files) && NamesOk(files)
    ensures var es := EntriesWith(files, |files|); Partition(v.root, Heads(es), v.fat, Singles(|files|, |es|))
  {
    hide RootBytes, FileBytes, DataWith, Entry.IsLive, Storable;
    var es := EntriesWith(files, |files|);
    var chains := Singles(|files|, |es|);
    forall i | 0 <= i < |es|
      ensures Heading(v.root, Heads(es)[i], v.fat, chains[i])
    {
      FreshHeading(v, files, i);
    }
    hide IsChain, Heading, EntriesWith, Heads, Covered;
    SinglesCover(|files|, |es|);
  }

  lemma SinglesCover(n: nat, m: nat)
    requires n <= m
    ensures var chains := Singles(n, m);
            && (forall i, j, c :: 0 <= i < |chains| && 0 <= j < |chains| && i != j && c in chains[i] ==>
               c !in chains[j])
            && (forall c: nat :: 3 <= c < 3 + n ==> Covered(chains, c))
  {
    var chains := Singles(n, m);
    forall c: nat | 3 <= c < 3 + n
      ensures Covered(chains, c)
    {
      assert c in chains[c - 3];
    }
  }

  lemma FreshDirectory(files: seq<IsoFile>)
    requires |files| <= MAX_FILES && NamesOk(files)
    ensures DirOk(EntriesWith(files, |files|))
  {
    hide Entry.IsLive, Storable;
    var es := EntriesWith(files, |files|);
    forall i: nat | i < |es|
      ensures es[i].IsLive() <==> i < |files|
      ensures es[i].IsEnd() ==> i >= |files|
    {
      StorableIsLive(files, i);
      EndIsNotLive(es[i]);
    }
  }

  lemma EndIsNotLive(e: Entry)
    ensures e.IsEnd() ==> !e.IsLive()
  {
  }

  lemma FreshFits(files: seq<IsoFile>)
    requires |files| <= MAX_FILES
    ensures var es := EntriesWith(files, |files|); Fitting(es, Singles(|files|, |es|), CLUSTER)
  {
    hide Entry.IsLive;
  }

  /** The chain that following the table finds for entry `j`. */
  lemma FreshChain(v: Vol, files: seq<IsoFile>, j: nat)
    requires FreshVolume(v, files) && j < CLUSTER / ENTRY_SIZE
    ensures |ChainsIn(v)| == CLUSTER / ENTRY_SIZE
    ensures ChainsIn(v)[j] == if j < |files| && Storable(files[j].name) then [3 + j] else []
  {
    FreshIsShaped(v, files);
    StorableIsLive(files, j);
    hide Entries, RootBytes, FileBytes, Storable, Entry.IsLive, Chain;
    if j < |files| { FilesAreLaidOut(v, files, j); }
  }

  /** A file under an unstorable name has a cluster that nothing leads to. */
  lemma UnreachableFile(v: Vol, files: seq<IsoFile>, i: nat)
    requires FreshVolume(v, files) && i < |files| && !Storable(files[i].name)
    ensures !Inv(v)
  {
    if Inv(v) {
      hide Entries, DirOk, RootBytes, FileBytes, DataWith, Counted, Fitting, Chain, ChainsIn, Heads;
      InvParts(v);
      assert Covered(ChainsIn(v), 3 + i);
      var j: nat :| j < |ChainsIn(v)| && 3 + i in ChainsIn(v)[j];
      FreshChain(v, files, 0);
      FreshChain(v, files, j);
    }
  }

  /** The built volume satisfies the whole invariant exactly when the names of the files on it are storable
      and different. */
  lemma BuiltIsSoundIff(v: Vol, files: seq<IsoFile>)
    requires FreshVolume(v, files)
    ensures Inv(v) <==> NamesOk(files)
  {
    FreshIsShaped(v, files);
    hide Entries, RootBytes, FileBytes, DataWith, Counted, Inv, Partition, FreshVolume, Storable, Entry.IsLive, DirOk;
    hide Shaped;
    if NamesOk(files) {
      FreshDirectory(files);
      FreshPartition(v, files);
      FreshFits(files);
      FreshSize(v, files);
      InvFrom(v, Singles(|files|, CLUSTER / ENTRY_SIZE));
    } else if i: nat :| i < |files| && !Storable(files[i].name) {
      UnreachableFile(v, files, i);
    } else {
      var i: nat, j: nat :| i < j < |files| && files[i].name == files[j].name;
      SameNames(v, files, i, j);
    }
  }

  lemma FreshSize(v: Vol, files: seq<IsoFile>)
    requires FreshVolume(v, files)
    ensures v.Bpc() == CLUSTER && |files| <= MAX_FILES
  {
  }

  lemma SameNames(v: Vol, files: seq<IsoFile>, i: nat, j: nat)
    requires FreshVolume(v, files) && i < j < |files| && files[i].name == files[j].name
    requires Storable(files[i].name)
    ensures !Inv(v)
  {
    FreshIsShaped(v, files);
    hide Entries, Counted;
    StorableIsLive(files, i);
    StorableIsLive(files, j);
  }

  ghost predicate Shows(v: Vol, f: IsoFile)
  {
    f.name in Files(v) && Files(v)[f.name] == AbsFile(ATTR_ARCHIVE, f.content[..f.Kept()], 1, false)
  }

  /** The files that a sound built volume shows are the given ones. */
  lemma BuiltFiles(v: Vol, files: seq<IsoFile>)
    requires FreshVolume(v, files) && NamesOk(files)
    ensures forall f :: f in files ==> Shows(v, f)
    ensures forall n :: n in Files(v) ==> exists f :: f in files && f.name == n
  {
    BuiltIsSoundIff(v, files);
    FreshIsShaped(v, files);
    LoadedInv(v);
    hide Entries, EntriesWith, Inv, DirOk, Catalog, Storable, Entry.IsLive, Shows, FreshVolume, Files, Shaped, Counted;
    forall f | f in files
      ensures Shows(v, f)
    {
      var i: nat :| i < |files| && files[i] == f;
      BuiltFile(v, files, i);
    }
    forall n | n in Files(v)
      ensures exists f :: f in files && f.name == n
    {
      var i := CatalogWitness(v.RootEntries(), n);
      LiveSlot(v.RootEntries(), files, i, n);
      assert files[i] in files;
    }
  }

  lemma BuiltFile(v: Vol, files: seq<IsoFile>, i: nat)
    requires FreshVolume(v, files) && NamesOk(files) && Inv(v) && i < |files|
    ensures Shows(v, files[i])
  {
    FreshIsShaped(v, files);
    StorableIsLive(files, i);
    FilesAreLaidOut(v, files, i);
    hide Entries, EntriesWith, RootBytes, FileBytes, DataWith, FatWith, Inv, Catalog, Storable, Entry.IsLive, Contents;
    hide Chain, OnlyDots;
    LoadedInv(v);
    CatalogHas(v.RootEntries(), i);
    PlainFile(v, v.RootEntries()[i]);
  }

  lemma PlainFile(v: Vol, e: Entry)
    requires e.attr == ATTR_ARCHIVE
    ensures FileOf(v, e) ==
            AbsFile(ATTR_ARCHIVE, Contents(v, Chain(v.fat, e.first), e.size), |Chain(v.fat, e.first)|, false)
  {
    hide Contents, Chain;
  }

  lemma LiveSlot(es: seq<Entry>, files: seq<IsoFile>, i: nat, n: Name)
    requires |files| <= MAX_FILES && es == EntriesWith(files, |files|) && LiveAt(es, i, n)
    ensures i < |files| && files[i].name == n
  {
    StorableIsLive(files, i);
  }

  // ---- from the disk to the mounted volume ----

  /** What mounting a built image gives. */
  lemma BuiltIsFresh(d: seq<Byte>, sectors: nat, fatSize: nat, files: seq<IsoFile>, buf: seq<Byte>)
    requires Roomy(|d|, sectors, fatSize) && Built(d, LayoutOf(sectors, fatSize), files, |files|) && |buf| == CLUSTER
    ensures FreshVolume(ImageState(d, LayoutOf(sectors, fatSize), 0, 3, buf), files)
  {
    hide FatTable, ClusterTable;
    LimitBounded(LayoutOf(sectors, fatSize), |d|);
  }

  /** `fs_init` on the driver's own disk: the volume is mounted, sound, shows the one test file, and its free
      counter is zero although a thousand clusters are free. */
  method StartDriver(count: nat) returns (fs: Volume)
    ensures fs.Valid() && fs.mounted && |fs.handles| == count && fs.freeClusters == 0
    ensures FreshVolume(fs.State(), [DRIVER_FILE]) && Inv(fs.State())
    ensures fresh(fs) && forall h :: h in fs.handles ==> !h.inUse
  {
    hide Built, BootShows, FatTable, ClusterTable, Mirrored, FreshVolume, Inv;
    var disk := new Byte[DRIVER_SECTORS * SECTOR_SIZE];
    InitDriverDisk(disk);
    fs := new Volume(disk, count);
    BootReads(disk[..], DRIVER_SECTORS, 64);
    var ok := fs.Mount();
    BuiltIsFresh(disk[..], DRIVER_SECTORS, 64, [DRIVER_FILE], fs.buffer[..fs.g.Bpc()]);
    BuiltIsSoundIff(fs.State(), [DRIVER_FILE]);
  }

  /** Right after mounting, with the counter at zero and the hint at three, the allocator's bookkeeping is sound
      exactly when cluster 2 is in use, as the root directory of the built images is. */
  lemma MountedIsCountedIff(p: Pool)
    requires Sized(p.fat) && |p.fat| >= 3 && p.free == 0 && p.hint == 3
    ensures Counted(p) <==> p.fat[2] != FAT32_FREE
  {
    assert Gap(p) >= 0;
    if p.fat[2] != FAT32_FREE { assert HintTight(p); }
  }

  /** Right after mounting nothing can be created: the gap is the whole number of free clusters. */
  lemma MountedCannotCreate(v: Vol, name: Name)
    requires Inv(v) && v.free == 0 && name !in Files(v) && Storable(name)
    ensures Shaped(v) && Gap(v.PoolOf()) == |FreeSet(v.fat)|
    ensures CreateFile(v, name).1 == 0 && Inv(CreateFile(v, name).0) && Abs(CreateFile(v, name).0) == Abs(v)
  {
    hide Inv, CreateFile, Files, VacantSlots, Vol.RootEntries;
    LoadedInv(v);
    CreateFileRefines(v, name);
    assert Abs(v).free == 0;
  }
}
