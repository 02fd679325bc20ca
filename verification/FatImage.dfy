/**
 The bytes of a FAT32 volume and what they stand for.

 A volume is a flat run of 512-byte sectors: the FAT copies, then the data clusters. This module gives
 the byte image that every low-level write produces, and the two tables the image denotes: `FatTable`
 (the 28-bit entry of every cluster) and `ClusterTable` (the contents of every cluster). The lemmas say
 that each write acts on the tables as a single map update and that nothing else moves.
 */
module FatImage {
  import opened Bytes

  const SECTOR_SIZE: nat := 512
  const FAT32_EOC: nat := 0x0FFF_FFF8
  const FAT32_FREE: nat := 0
  const LOW28: nat := 0x1000_0000

  /** The fields of `g_fs` that describe the layout. Clusters are numbered from 2 to `Limit() - 1`. */
  datatype Geometry = Geometry(
    fatStart: nat, numFats: nat, fatSize: nat, dataStart: nat, root: nat, spc: nat, total: nat)
  {
    function Limit(): nat { total + 2 }
    function Bpc(): nat { spc * SECTOR_SIZE }
    predicate HasCluster(c: nat) { 2 <= c < Limit() }
  }

  /** All FAT sectors and clusters lie on a disk of `size` bytes, the FATs come first, and one FAT has
      an entry for every cluster. `size` is below 2^28, so that no sector number wraps around. */
  ghost predicate Fits(g: Geometry, size: nat)
  {
    && size < LOW28
    && 1 <= g.numFats && 1 <= g.spc
    && g.dataStart == g.fatStart + g.numFats * g.fatSize
    && 4 * g.Limit() <= g.fatSize * SECTOR_SIZE
    && (g.dataStart + g.total * g.spc) * SECTOR_SIZE <= size
    && g.HasCluster(g.root)
  }

  // ---- positions ----

  /** The byte position of sector `s` of FAT copy `k`. */
  function FatSectorPos(g: Geometry, k: nat, s: nat): nat
  {
    (g.fatStart + k * g.fatSize + s) * SECTOR_SIZE
  }

  function ClusterPos(g: Geometry, c: nat): nat
    requires 2 <= c
  {
    (g.dataStart + (c - 2) * g.spc) * SECTOR_SIZE
  }

  lemma FatSectorFits(g: Geometry, size: nat, k: nat, s: nat)
    requires Fits(g, size) && k < g.numFats && s < g.fatSize
    ensures FatSectorPos(g, k, s) + SECTOR_SIZE <= g.dataStart * SECTOR_SIZE <= size
  {
    assert k * g.fatSize + g.fatSize <= g.numFats * g.fatSize by { MulMono(k + 1, g.numFats, g.fatSize); }
    assert 0 <= g.total * g.spc;
  }

  lemma ClusterFits(g: Geometry, size: nat, c: nat)
    requires Fits(g, size) && g.HasCluster(c)
    ensures g.dataStart * SECTOR_SIZE <= ClusterPos(g, c)
    ensures ClusterPos(g, c) + g.Bpc() <= size
  {
    MulMono(c - 1, g.total, g.spc);
    MulMono(0, c - 2, g.spc);
    assert (c - 2) * g.spc + g.spc == (c - 1) * g.spc;
  }

  lemma ClustersApart(g: Geometry, b: nat, c: nat)
    requires 2 <= b < c
    ensures ClusterPos(g, b) + g.Bpc() <= ClusterPos(g, c)
  {
    MulMono(b - 1, c - 2, g.spc);
    assert (b - 2) * g.spc + g.spc == (b - 1) * g.spc;
  }

  lemma FatCopiesApart(g: Geometry, j: nat, k: nat, s: nat, t: nat)
    requires j < k && s < g.fatSize
    ensures FatSectorPos(g, j, s) + SECTOR_SIZE <= FatSectorPos(g, k, t)
  {
    MulMono(j + 1, k, g.fatSize);
    assert j * g.fatSize + g.fatSize == (j + 1) * g.fatSize;
  }

  lemma MulMono(a: int, b: int, c: nat)
    requires a <= b
    ensures a * c <= b * c
  {
  }

  // ---- reading the image ----

  function FatSector(d: seq<Byte>, g: Geometry, k: nat, s: nat): (r: seq<Byte>)
    requires FatSectorPos(g, k, s) + SECTOR_SIZE <= |d|
    ensures |r| == SECTOR_SIZE
  {
    Window(d, FatSectorPos(g, k, s), SECTOR_SIZE)
  }

  /** The raw 32-bit word at entry `e` of a FAT sector. */
  function RawEntry(sector: seq<Byte>, e: nat): (r: nat)
    requires |sector| == SECTOR_SIZE && e < 128
    ensures r < WORD
  {
    De32(Window(sector, 4 * e, 4))
  }

  /** The FAT sector with the low 28 bits of entry `e` replaced and its top 4 bits kept. */
  function PatchedSector(sector: seq<Byte>, e: nat, value: nat): (r: seq<Byte>)
    requires |sector| == SECTOR_SIZE && e < 128
    ensures |r| == SECTOR_SIZE
  {
    var raw := RawEntry(sector, e);
    Splice(sector, 4 * e, Le32(raw - raw % LOW28 + value % LOW28))
  }

  /** The raw word of cluster `c` in FAT copy `k`. */
  function RawFat(d: seq<Byte>, g: Geometry, k: nat, c: nat): (r: nat)
    requires Fits(g, |d|) && k < g.numFats && c < g.Limit()
    ensures r < WORD
  {
    FatSectorFits(g, |d|, k, c / 128);
    RawEntry(FatSector(d, g, k, c / 128), c % 128)
  }

  /** What `fat32_read_fat_entry` answers: EOC outside the cluster range, else 28 bits of the first copy. */
  function FatEntry(d: seq<Byte>, g: Geometry, c: nat): (r: nat)
    requires Fits(g, |d|)
    ensures r < LOW28
  {
    if g.HasCluster(c) then RawFat(d, g, 0, c) % LOW28 else FAT32_EOC
  }

  function Cluster(d: seq<Byte>, g: Geometry, c: nat): (r: seq<Byte>)
    requires Fits(g, |d|) && g.HasCluster(c)
    ensures |r| == g.Bpc()
  {
    ClusterFits(g, |d|, c);
    Window(d, ClusterPos(g, c), g.Bpc())
  }

  function FatTable(d: seq<Byte>, g: Geometry): (t: seq<nat>)
    requires Fits(g, |d|)
    ensures |t| == g.Limit()
    ensures forall c {:trigger t[c]} :: 0 <= c < |t| ==> t[c] < LOW28
    ensures t[0] == t[1] == FAT32_EOC
  {
    seq(g.Limit(), (c: nat) => FatEntry(d, g, c))
  }

  function ClusterTable(d: seq<Byte>, g: Geometry): (t: seq<seq<Byte>>)
    requires Fits(g, |d|)
    ensures |t| == g.Limit()
    ensures forall c {:trigger t[c]} :: 2 <= c < |t| ==> |t[c]| == g.Bpc()
  {
    seq(g.Limit(), (c: nat) => if g.HasCluster(c) then Cluster(d, g, c) else [])
  }

  /** FAT copy `k` holds the same bytes as the first copy in sector `s`. */
  ghost predicate CopyAgrees(d: seq<Byte>, g: Geometry, k: nat, s: nat)
    requires Fits(g, |d|) && k < g.numFats && s < g.fatSize
  {
    FatSectorFits(g, |d|, k, s);
    FatSectorFits(g, |d|, 0, s);
    FatSector(d, g, k, s) == FatSector(d, g, 0, s)
  }

  /** All FAT copies hold the same bytes in sector `s`. */
  ghost predicate Mirrored(d: seq<Byte>, g: Geometry, s: nat)
    requires Fits(g, |d|)
  {
    s < g.fatSize && forall k: nat :: k < g.numFats ==> CopyAgrees(d, g, k, s)
  }

  // ---- writing the image ----

  /** `sector` stored as sector `s` of the first `n` FAT copies. */
  function WithFatSector(d: seq<Byte>, g: Geometry, s: nat, sector: seq<Byte>, n: nat): (r: seq<Byte>)
    requires Fits(g, |d|) && s < g.fatSize && |sector| == SECTOR_SIZE && n <= g.numFats
    ensures |r| == |d|
  {
    if n == 0 then d
    else
      FatSectorFits(g, |d|, n - 1, s);
      Splice(WithFatSector(d, g, s, sector, n - 1), FatSectorPos(g, n - 1, s), sector)
  }

  /** The image after `fat32_write_fat_entry(c, value)`. */
  function WithFatEntry(d: seq<Byte>, g: Geometry, c: nat, value: nat): (r: seq<Byte>)
    requires Fits(g, |d|) && g.HasCluster(c)
    ensures |r| == |d|
  {
    FatSectorFits(g, |d|, 0, c / 128);
    WithFatSector(d, g, c / 128, PatchedSector(FatSector(d, g, 0, c / 128), c % 128, value), g.numFats)
  }

  /** The image after `fat32_write_cluster(c, bytes)`. */
  function WithCluster(d: seq<Byte>, g: Geometry, c: nat, bytes: seq<Byte>): (r: seq<Byte>)
    requires Fits(g, |d|) && g.HasCluster(c) && |bytes| == g.Bpc()
    ensures |r| == |d|
  {
    ClusterFits(g, |d|, c);
    Splice(d, ClusterPos(g, c), bytes)
  }

  // ---- one FAT sector ----

  /** The stored word keeps its top 4 bits and takes the low 28 of the value. */
  lemma PatchedWord(raw: nat, value: nat)
    requires raw < WORD
    ensures var word := raw - raw % LOW28 + value % LOW28;
            0 <= word < WORD && word % LOW28 == value % LOW28 && word / LOW28 == raw / LOW28
  {
    var top, low := raw / LOW28, value % LOW28;
    assert raw - raw % LOW28 + low == top * LOW28 + low;
  }

  lemma PatchedEntry(sector: seq<Byte>, e: nat, value: nat, e': nat)
    requires |sector| == SECTOR_SIZE && e < 128 && e' < 128
    ensures var raw := RawEntry(PatchedSector(sector, e, value), e');
            if e' == e then raw % LOW28 == value % LOW28 && raw / LOW28 == RawEntry(sector, e) / LOW28
            else raw == RawEntry(sector, e')
  {
    hide De32, Le32, Splice;
    var raw := RawEntry(sector, e);
    var word := raw - raw % LOW28 + value % LOW28;
    PatchedWord(raw, value);
    WindowOfSplice(sector, 4 * e, Le32(word), 4 * e', 4);
    if e' == e {
      De32OfLe32(word);
      assert Window(Le32(word), 0, 4) == Le32(word);
    }
  }

  // ---- all copies of one FAT sector ----

  lemma {:induction false} StoredCopy(d: seq<Byte>, g: Geometry, s: nat, sector: seq<Byte>, n: nat, k: nat)
    requires Fits(g, |d|) && s < g.fatSize && |sector| == SECTOR_SIZE && k < n <= g.numFats
    ensures FatSectorPos(g, k, s) + SECTOR_SIZE <= |d|
    ensures FatSector(WithFatSector(d, g, s, sector, n), g, k, s) == sector
  {
    FatSectorFits(g, |d|, n - 1, s);
    FatSectorFits(g, |d|, k, s);
    var before := WithFatSector(d, g, s, sector, n - 1);
    WindowOfSplice(before, FatSectorPos(g, n - 1, s), sector, FatSectorPos(g, k, s), SECTOR_SIZE);
    if k == n - 1 {
      assert Window(sector, 0, SECTOR_SIZE) == sector;
    } else {
      FatCopiesApart(g, k, n - 1, s, s);
      StoredCopy(d, g, s, sector, n - 1, k);
    }
  }

  /** Storing a FAT sector leaves every stretch of bytes alone that overlaps none of its copies. */
  lemma {:induction false} StoredFrame(d: seq<Byte>, g: Geometry, s: nat, sector: seq<Byte>, n: nat, lo: nat, len: nat)
    requires Fits(g, |d|) && s < g.fatSize && |sector| == SECTOR_SIZE && n <= g.numFats
    requires lo + len <= |d|
    requires forall k {:trigger FatSectorPos(g, k, s)} :: 0 <= k < n ==>
               lo + len <= FatSectorPos(g, k, s) || FatSectorPos(g, k, s) + SECTOR_SIZE <= lo
    ensures Window(WithFatSector(d, g, s, sector, n), lo, len) == Window(d, lo, len)
  {
    if n > 0 {
      FatSectorFits(g, |d|, n - 1, s);
      StoredFrame(d, g, s, sector, n - 1, lo, len);
      WindowOfSplice(WithFatSector(d, g, s, sector, n - 1), FatSectorPos(g, n - 1, s), sector, lo, len);
    }
  }

  lemma StoredOtherSector(d: seq<Byte>, g: Geometry, s: nat, sector: seq<Byte>, k: nat, t: nat)
    requires Fits(g, |d|) && s < g.fatSize && |sector| == SECTOR_SIZE
    requires k < g.numFats && t < g.fatSize && t != s
    ensures FatSectorPos(g, k, t) + SECTOR_SIZE <= |d|
    ensures FatSector(WithFatSector(d, g, s, sector, g.numFats), g, k, t) == FatSector(d, g, k, t)
  {
    FatSectorFits(g, |d|, k, t);
    forall j {:trigger FatSectorPos(g, j, s)} | 0 <= j < g.numFats
      ensures FatSectorPos(g, k, t) + SECTOR_SIZE <= FatSectorPos(g, j, s)
           || FatSectorPos(g, j, s) + SECTOR_SIZE <= FatSectorPos(g, k, t)
    {
      if j < k { FatCopiesApart(g, j, k, s, t); }
      else if k < j { FatCopiesApart(g, k, j, t, s); }
    }
    StoredFrame(d, g, s, sector, g.numFats, FatSectorPos(g, k, t), SECTOR_SIZE);
  }

  // ---- the main results ----

  /** A FAT entry write is a map update on the first copy: the low 28 bits read back, the top 4 bits
      and every other cluster's word are as before. */
  lemma FatWriteUpdatesOneEntry(d: seq<Byte>, g: Geometry, c: nat, value: nat, c': nat)
    requires Fits(g, |d|) && g.HasCluster(c) && g.HasCluster(c')
    ensures var raw := RawFat(WithFatEntry(d, g, c, value), g, 0, c');
            if c' == c then raw % LOW28 == value % LOW28 && raw / LOW28 == RawFat(d, g, 0, c) / LOW28
            else raw == RawFat(d, g, 0, c')
  {
    FatSectorFits(g, |d|, 0, c / 128);
    var patched := PatchedSector(FatSector(d, g, 0, c / 128), c % 128, value);
    if c / 128 == c' / 128 {
      StoredCopy(d, g, c / 128, patched, g.numFats, 0);
      PatchedEntry(FatSector(d, g, 0, c / 128), c % 128, value, c' % 128);
    } else {
      StoredOtherSector(d, g, c / 128, patched, 0, c' / 128);
    }
  }

  /** A FAT entry write on the table of entries. */
  lemma FatWriteRefines(d: seq<Byte>, g: Geometry, c: nat, value: nat)
    requires Fits(g, |d|) && g.HasCluster(c)
    ensures FatTable(WithFatEntry(d, g, c, value), g) == FatTable(d, g)[c := value % LOW28]
    ensures ClusterTable(WithFatEntry(d, g, c, value), g) == ClusterTable(d, g)
  {
    var d' := WithFatEntry(d, g, c, value);
    forall c': nat | c' < g.Limit()
      ensures FatTable(d', g)[c'] == FatTable(d, g)[c := value % LOW28][c']
    {
      if g.HasCluster(c') { FatWriteUpdatesOneEntry(d, g, c, value, c'); }
    }
    forall c': nat | g.HasCluster(c')
      ensures Cluster(d', g, c') == Cluster(d, g, c')
    {
      FatWriteKeepsCluster(d, g, c, value, c');
    }
  }

  lemma FatWriteKeepsCluster(d: seq<Byte>, g: Geometry, c: nat, value: nat, c': nat)
    requires Fits(g, |d|) && g.HasCluster(c) && g.HasCluster(c')
    ensures Cluster(WithFatEntry(d, g, c, value), g, c') == Cluster(d, g, c')
  {
    ClusterFits(g, |d|, c');
    FatSectorFits(g, |d|, 0, c / 128);
    forall j {:trigger FatSectorPos(g, j, c / 128)} | 0 <= j < g.numFats
      ensures FatSectorPos(g, j, c / 128) + SECTOR_SIZE <= ClusterPos(g, c')
    {
      FatSectorFits(g, |d|, j, c / 128);
    }
    var patched := PatchedSector(FatSector(d, g, 0, c / 128), c % 128, value);
    StoredFrame(d, g, c / 128, patched, g.numFats, ClusterPos(g, c'), g.Bpc());
  }

  /** A cluster write on the table of clusters. */
  lemma ClusterWriteRefines(d: seq<Byte>, g: Geometry, c: nat, bytes: seq<Byte>)
    requires Fits(g, |d|) && g.HasCluster(c) && |bytes| == g.Bpc()
    ensures FatTable(WithCluster(d, g, c, bytes), g) == FatTable(d, g)
    ensures ClusterTable(WithCluster(d, g, c, bytes), g) == ClusterTable(d, g)[c := bytes]
  {
    var d' := WithCluster(d, g, c, bytes);
    ClusterFits(g, |d|, c);
    forall c': nat | g.HasCluster(c')
      ensures FatEntry(d', g, c') == FatEntry(d, g, c')
    {
      FatSectorFits(g, |d|, 0, c' / 128);
      WindowOfSplice(d, ClusterPos(g, c), bytes, FatSectorPos(g, 0, c' / 128), SECTOR_SIZE);
    }
    forall c': nat | g.HasCluster(c')
      ensures Cluster(d', g, c') == if c' == c then bytes else Cluster(d, g, c')
    {
      ClusterFits(g, |d|, c');
      WindowOfSplice(d, ClusterPos(g, c), bytes, ClusterPos(g, c'), g.Bpc());
      if c' < c { ClustersApart(g, c', c); }
      else if c < c' { ClustersApart(g, c, c'); }
    }
  }

  lemma FatWriteCopyAgrees(d: seq<Byte>, g: Geometry, c: nat, value: nat, k: nat, s: nat)
    requires Fits(g, |d|) && g.HasCluster(c) && k < g.numFats && s < g.fatSize
    requires s == c / 128 || CopyAgrees(d, g, k, s)
    ensures CopyAgrees(WithFatEntry(d, g, c, value), g, k, s)
  {
    FatSectorFits(g, |d|, 0, c / 128);
    var patched := PatchedSector(FatSector(d, g, 0, c / 128), c % 128, value);
    if s == c / 128 {
      StoredCopy(d, g, s, patched, g.numFats, k);
      StoredCopy(d, g, s, patched, g.numFats, 0);
    } else {
      StoredOtherSector(d, g, c / 128, patched, k, s);
      StoredOtherSector(d, g, c / 128, patched, 0, s);
    }
  }

  /** Once a FAT sector has been written its copies agree, and no later FAT write makes them differ. */
  lemma FatWriteMirrors(d: seq<Byte>, g: Geometry, c: nat, value: nat, s: nat)
    requires Fits(g, |d|) && g.HasCluster(c)
    requires s == c / 128 || Mirrored(d, g, s)
    ensures Mirrored(WithFatEntry(d, g, c, value), g, s)
  {
    forall k: nat | k < g.numFats
      ensures CopyAgrees(WithFatEntry(d, g, c, value), g, k, s)
    {
      FatWriteCopyAgrees(d, g, c, value, k, s);
    }
  }

  /** Nor does a cluster write. */
  lemma ClusterWriteKeepsMirrors(d: seq<Byte>, g: Geometry, c: nat, bytes: seq<Byte>, s: nat)
    requires Fits(g, |d|) && g.HasCluster(c) && |bytes| == g.Bpc()
    requires Mirrored(d, g, s)
    ensures Mirrored(WithCluster(d, g, c, bytes), g, s)
  {
    forall k: nat | k < g.numFats
      ensures CopyAgrees(WithCluster(d, g, c, bytes), g, k, s)
    {
      ClusterFits(g, |d|, c);
      FatSectorFits(g, |d|, k, s);
      FatSectorFits(g, |d|, 0, s);
      assert CopyAgrees(d, g, k, s);
      WindowOfSplice(d, ClusterPos(g, c), bytes, FatSectorPos(g, k, s), SECTOR_SIZE);
      WindowOfSplice(d, ClusterPos(g, c), bytes, FatSectorPos(g, 0, s), SECTOR_SIZE);
    }
  }

  // ---- where things lie, byte by byte ----

  /** The entry of cluster `c` is the little-endian word 4 * c bytes behind the start of the FATs, without its top four
      bits. */
  lemma FatEntryBytes(d: seq<Byte>, g: Geometry, c: nat)
    requires Fits(g, |d|) && g.HasCluster(c)
    ensures var at := 512 * g.fatStart + 4 * c;
            at + 4 <= |d| && FatEntry(d, g, c) == LittleEndian(d[at], d[at + 1], d[at + 2], d[at + 3]) % 0x1000_0000
  {
    FatSectorFits(g, |d|, 0, c / 128);
    var at := FatSectorPos(g, 0, c / 128);
    assert at + 4 * (c % 128) == 512 * g.fatStart + 4 * c;
    assert Window(Window(d, at, SECTOR_SIZE), 4 * (c % 128), 4) == d[at + 4 * (c % 128)..at + 4 * (c % 128) + 4];
  }

  /** Cluster `c` is the `c - 2`nd stretch of that many sectors in the data area. */
  lemma ClusterBytes(d: seq<Byte>, g: Geometry, c: nat)
    requires Fits(g, |d|) && g.HasCluster(c)
    ensures var at := 512 * (g.dataStart + (c - 2) * g.spc);
            0 <= at && at + 512 * g.spc <= |d| && Cluster(d, g, c) == d[at..at + 512 * g.spc]
  {
    ClusterFits(g, |d|, c);
    assert 0 <= (c - 2) * g.spc by { MulMono(0, c - 2, g.spc); }
  }
}
