/**
 The FAT32 driver itself: the RAM disk, the shared cluster buffer, the table of file handles and the fields
 of `g_fs`, changed in place. Every method is proved against the function on volume states that the other
 modules reason about; `State()` is the volume state that the bytes stand for.
 */
module Driver {
  import opened Bytes
  import opened FatImage
  import opened Chains
  import opened Allocator
  import opened Names
  import opened VolumeState
  import opened FileContent
  import opened VolumeOps
  import opened Writes

  const BUFFER_SIZE: nat := 4096
  const SLASH: seq<Byte> := [47]
  const DOTS: seq<Byte> := [46, 46]

  /** One field of `fat32_name_to_83`: at most `n` bytes of `src`, in upper case, over the padding. */
  method CopyField(src: seq<Byte>, n: nat, dst: array<Byte>, at: nat)
    requires at + n <= dst.Length && forall k :: at <= k < at + n ==> dst[k] == SPACE
    modifies dst
    ensures dst[..] == Splice(old(dst[..]), at, Field(src, n))
  {
    var i := 0;
    while i < |src| && i < n
      invariant i <= |src| && i <= n
      invariant forall k :: 0 <= k < dst.Length ==>
                dst[k] == (if at <= k < at + i then Upper(src[k - at]) else old(dst[k]))
    {
      dst[at + i] := Upper(src[i]);
      i := i + 1;
    }
    assert dst[..] == Splice(old(dst[..]), at, Field(src, n));
  }

  /** `fat32_name_to_83`, into the 11 bytes of `dst` from index `at` on. */
  method NameTo83(name: seq<Byte>, dst: array<Byte>, at: nat)
    requires at + 11 <= dst.Length
    modifies dst
    ensures dst[..] == Splice(old(dst[..]), at, To83(name))
  {
    hide Field, Splice, LastDot;
    var i := 0;
    while i < 11
      invariant i <= 11
      invariant forall k :: 0 <= k < dst.Length ==> dst[k] == (if at <= k < at + i then SPACE else old(dst[k]))
    {
      dst[at + i] := SPACE;
      i := i + 1;
    }
    var ext := |name| - 1;
    while ext >= 0 && name[ext] != DOT
      invariant -1 <= ext < |name|
      invariant forall k :: ext < k < |name| ==> name[k] != DOT
    {
      ext := ext - 1;
    }
    LastDotIs(name, ext);
    ghost var padded := dst[..];
    CopyField(if ext >= 0 then name[..ext] else name, 8, dst, at);
    CopyField(if ext >= 0 then name[ext + 1..] else [], 3, dst, at + 8);
    SpliceFields(old(dst[..]), padded, at, Field(BaseOf(name), 8), Field(ExtOf(name), 3));
  }

  /** A name in 8.3 form, as the lookups compute it before they scan. */
  method Converted(name: seq<Byte>) returns (fat: seq<Byte>)
    ensures fat == To83(name)
  {
    hide To83;
    var name83 := new Byte[11];
    NameTo83(name, name83, 0);
    return name83[..];
  }

  lemma SpliceFields(s: seq<Byte>, padded: seq<Byte>, at: nat, base: seq<Byte>, ext: seq<Byte>)
    requires |s| == |padded| && at + |base| + |ext| <= |s|
    requires forall k :: 0 <= k < |s| && !(at <= k < at + |base| + |ext|) ==> padded[k] == s[k]
    ensures Splice(Splice(padded, at, base), at + |base|, ext) == Splice(s, at, base + ext)
  {
  }

  /** `fat32_83_to_name`. */
  method NameFrom83(fat: seq<Byte>) returns (out: seq<Byte>)
    requires |fat| == 11
    ensures out == From83(fat)
  {
    out := [];
    var i := 0;
    while i < 8 && fat[i] != SPACE
      invariant i <= 8 && out == fat[..i] && forall k :: 0 <= k < i ==> fat[k] != SPACE
    {
      out := out + [fat[i]];
      i := i + 1;
    }
    TrimIs(fat[..8], i);
    if fat[8] != SPACE {
      var base := out;
      out := out + [DOT];
      i := 8;
      while i < 11 && fat[i] != SPACE
        invariant 8 <= i <= 11 && out == base + [DOT] + fat[8..i] && forall k :: 8 <= k < i ==> fat[k] != SPACE
      {
        out := out + [fat[i]];
        i := i + 1;
      }
      TrimIs(fat[8..], i - 8);
      assert fat[8..][..i - 8] == fat[8..i];
    }
  }

  /** The low 28 bits of the FAT entry at byte `at` of a sector replaced, its top 4 bits kept. */
  method PatchEntry(sector: array<Byte>, at: nat, ghost e: nat, value: nat)
    requires sector.Length == SECTOR_SIZE && e < 128 && at == 4 * e
    modifies sector
    ensures sector[..] == PatchedSector(old(sector[..]), e, value)
  {
    hide De32, Le32;
    var raw := De32(sector[at..at + 4]);
    assert raw == RawEntry(sector[..], e);
    Poke(sector, at, Le32(raw - raw % LOW28 + value % LOW28));
  }

  /** A file handle. */
  class FileHandle {
    var inUse: bool
    var firstCluster: nat
    var currentCluster: nat
    var clusterOffset: nat
    var fileSize: nat
    var position: nat
    var attributes: Byte
    var filename: seq<Byte>
    var isDirectory: bool

    function At(): Cursor
      reads this
    {
      Cursor(firstCluster, currentCluster, clusterOffset, fileSize, position)
    }

    constructor ()
      ensures !inUse
    {
      inUse, firstCluster, currentCluster, clusterOffset, fileSize, position := false, 0, 0, 0, 0, 0;
      attributes, filename, isDirectory := 0, [], false;
    }
  }

  /** The geometry that the boot sector of an image describes, as `fs_mount` computes it. */
  function BootGeometry(d: seq<Byte>): Geometry
    requires |d| >= SECTOR_SIZE
  {
    var fatStart, numFats, fatSize := De16(Window(d, 14, 2)), d[16] as nat, De32(Window(d, 36, 4));
    var dataStart := fatStart + Product(numFats, fatSize);
    var spc, sectors := d[13] as nat, De32(Window(d, 32, 4));
    Geometry(fatStart, numFats, fatSize, dataStart, De32(Window(d, 44, 4)), spc,
             if spc > 0 && sectors >= dataStart then Quotient(sectors - dataStart, spc) else 0)
  }

  function Product(a: nat, b: nat): nat { a * b }

  function Quotient(a: nat, b: nat): nat
    requires b > 0
  {
    a / b
  }

  /** The state that an image and counters stand for. */
  function ImageState(d: seq<Byte>, g: Geometry, free: nat, hint: nat, buf: seq<Byte>): (v: Vol)
    requires Fits(g, |d|)
  {
    Vol(g.root, FatTable(d, g), ClusterTable(d, g), free, hint, buf)
  }

  lemma ImageShaped(d: seq<Byte>, g: Geometry, free: nat, hint: nat, buf: seq<Byte>)
    requires Fits(g, |d|) && 2 <= hint <= g.Limit() && |buf| == g.Bpc()
    ensures Shaped(ImageState(d, g, free, hint, buf))
    ensures |ImageState(d, g, free, hint, buf).fat| == g.Limit()
  {
    hide FatTable, ClusterTable;
    LimitBounded(g, |d|);
    assert g.Bpc() == 32 * (16 * g.spc);
  }

  /** A FAT entry write, and a cluster write, on the state. */
  lemma ImageFatWritten(d: seq<Byte>, g: Geometry, free: nat, hint: nat, buf: seq<Byte>, c: nat, value: nat)
    requires Fits(g, |d|) && g.HasCluster(c) && value < LOW28
    ensures c < |ImageState(d, g, free, hint, buf).fat|
    ensures ImageState(WithFatEntry(d, g, c, value), g, free, hint, buf) ==
            ImageState(d, g, free, hint, buf).(fat := ImageState(d, g, free, hint, buf).fat[c := value])
  {
    hide FatTable, ClusterTable, WithFatEntry;
    FatWriteRefines(d, g, c, value);
  }

  lemma LimitBounded(g: Geometry, size: nat)
    requires Fits(g, size)
    ensures g.Limit() <= FAT32_EOC
  {
    MulMono(1, g.numFats, g.fatSize);
    assert 0 <= g.total * g.spc;
  }

  lemma CapacityBounded(g: Geometry, size: nat)
    requires Fits(g, size)
    ensures g.Limit() * g.Bpc() + SECTOR_SIZE < WORD
  {
    assert g.Limit() * g.Bpc() == g.total * g.spc * SECTOR_SIZE + 2 * g.Bpc();
    MulMono(1, g.total, g.spc);
    assert (g.dataStart + g.total * g.spc) * SECTOR_SIZE >= g.total * g.spc * SECTOR_SIZE;
  }

  lemma SectorRead(d: seq<Byte>, g: Geometry, c: nat, sector: seq<Byte>)
    requires FatSectorPos(g, 0, c / 128) + SECTOR_SIZE <= |d| && |sector| == SECTOR_SIZE
    requires exists before: seq<Byte> ::
               |before| == SECTOR_SIZE
               && sector == Splice(before, 0, Window(d, FatSectorPos(g, 0, c / 128), SECTOR_SIZE))
    ensures sector == FatSector(d, g, 0, c / 128)
  {
  }

  /** Where an entry sits: 128 entries of four bytes to a sector. */
  lemma EntryOffset(c: nat)
    ensures 4 * c / SECTOR_SIZE == c / 128 && 4 * c % SECTOR_SIZE == 4 * (c % 128) && c % 128 < 128
  {
  }

  lemma CoversSector(g: Geometry, size: nat, c: nat)
    requires Fits(g, size) && g.HasCluster(c)
    ensures c / 128 < g.fatSize && FatSectorPos(g, 0, c / 128) + SECTOR_SIZE <= size
    ensures FatSectorPos(g, 0, c / 128) == (g.fatStart + c / 128) * SECTOR_SIZE
  {
    FatSectorFits(g, size, 0, c / 128);
  }

  class Volume {
    const ramdisk: array<Byte>
    const buffer: array<Byte>
    const handles: seq<FileHandle>
    var mounted: bool
    var g: Geometry
    var freeClusters: nat
    var nextFree: nat
    var cwd: nat
    var cwdPath: seq<Byte>

    /** FAT sectors of which all copies are known to agree. */
    ghost var mirrored: set<nat>

    /** The static storage is laid out sensibly, and a mounted volume's geometry fits it. */
    ghost predicate Valid()
      reads this, ramdisk
    {
      && ramdisk != buffer && SECTOR_SIZE <= ramdisk.Length < LOW28 && buffer.Length == BUFFER_SIZE
      && (forall i, j :: 0 <= i < j < |handles| ==> handles[i] != handles[j])
      && (mounted ==>
            && Fits(g, ramdisk.Length) && g.Bpc() <= BUFFER_SIZE && cwd == g.root
            && 2 <= nextFree <= g.Limit()
            && forall s :: s in mirrored ==> Mirrored(ramdisk[..], g, s))
    }

    /** The volume state that the bytes and counters stand for. */
    ghost function State(): Vol
      requires Valid() && mounted
      reads this, ramdisk, buffer
    {
      ImageState(ramdisk[..], g, freeClusters, nextFree, buffer[..g.Bpc()])
    }

    lemma StateShaped()
      requires Valid() && mounted
      ensures Shaped(State()) && |State().fat| == g.Limit() && State().Bpc() == g.Bpc()
    {
      hide FatTable, ClusterTable, Mirrored;
      ImageShaped(ramdisk[..], g, freeClusters, nextFree, buffer[..g.Bpc()]);
    }

    /** A storage device of the given contents, not mounted. */
    constructor (image: array<Byte>, count: nat)
      requires SECTOR_SIZE <= image.Length < LOW28
      ensures Valid() && !mounted && ramdisk == image && |handles| == count
      ensures fresh(buffer) && forall h :: h in handles ==> fresh(h) && !h.inUse
    {
      ramdisk := image;
      buffer := new Byte[BUFFER_SIZE](_ => 0);
      mounted, freeClusters, nextFree, cwd, cwdPath, mirrored := false, 0, 3, 0, SLASH, {};
      g := Geometry(0, 0, 0, 0, 0, 0, 0);
      var hs: seq<FileHandle> := [];
      while |hs| < count
        invariant |hs| <= count
        invariant forall h :: h in hs ==> fresh(h) && !h.inUse
        invariant forall i, j :: 0 <= i < j < |hs| ==> hs[i] != hs[j]
      {
        var h := new FileHandle();
        hs := hs + [h];
      }
      handles := hs;
    }

    // ---- sectors ----

    /** `storage_read_sectors`: refuses what lies beyond the end of the disk. */
    method StorageReadSectors(sector: nat, count: nat, dst: array<Byte>) returns (ok: bool)
      requires (sector + count) * SECTOR_SIZE < WORD && count * SECTOR_SIZE <= dst.Length && dst != ramdisk
      modifies dst
      ensures ok <==> (sector + count) * SECTOR_SIZE <= ramdisk.Length
      ensures !ok ==> dst[..] == old(dst[..])
      ensures ok ==> dst[..] == Splice(old(dst[..]), 0, Window(ramdisk[..], sector * SECTOR_SIZE, count * SECTOR_SIZE))
    {
      if sector * SECTOR_SIZE + count * SECTOR_SIZE > ramdisk.Length { return false; }
      var i := 0;
      while i < count * SECTOR_SIZE
        invariant i <= count * SECTOR_SIZE
        invariant forall k :: 0 <= k < dst.Length ==>
                  dst[k] == (if k < i then ramdisk[sector * SECTOR_SIZE + k] else old(dst[k]))
      {
        dst[i] := ramdisk[sector * SECTOR_SIZE + i];
        i := i + 1;
      }
      assert dst[..] == Splice(old(dst[..]), 0, Window(ramdisk[..], sector * SECTOR_SIZE, count * SECTOR_SIZE));
      return true;
    }

    /** `storage_write_sectors`. */
    method StorageWriteSectors(sector: nat, count: nat, src: array<Byte>) returns (ok: bool)
      requires (sector + count) * SECTOR_SIZE < WORD && count * SECTOR_SIZE <= src.Length && src != ramdisk
      modifies ramdisk
      ensures ok <==> (sector + count) * SECTOR_SIZE <= ramdisk.Length
      ensures !ok ==> ramdisk[..] == old(ramdisk[..])
      ensures ok ==> ramdisk[..] == Splice(old(ramdisk[..]), sector * SECTOR_SIZE, src[..count * SECTOR_SIZE])
    {
      if sector * SECTOR_SIZE + count * SECTOR_SIZE > ramdisk.Length { return false; }
      var at := sector * SECTOR_SIZE;
      var i := 0;
      while i < count * SECTOR_SIZE
        invariant i <= count * SECTOR_SIZE
        invariant forall k :: 0 <= k < ramdisk.Length ==>
                  ramdisk[k] == (if at <= k < at + i then src[k - at] else old(ramdisk[k]))
      {
        ramdisk[at + i] := src[i];
        i := i + 1;
      }
      assert ramdisk[..] == Splice(old(ramdisk[..]), sector * SECTOR_SIZE, src[..count * SECTOR_SIZE]);
      return true;
    }

    // ---- FAT entries ----

    /** `fat32_read_fat_entry`. */
    method ReadFatEntry(cluster: nat) returns (v: nat)
      requires Valid()
      ensures v == if mounted then FatEntry(ramdisk[..], g, cluster) else FAT32_EOC
    {
      if !mounted || !g.HasCluster(cluster) { return FAT32_EOC; }
      hide Mirrored, FatTable, ClusterTable;
      FatSectorFits(g, ramdisk.Length, 0, cluster / 128);
      EntryOffset(cluster);
      var sector := new Byte[SECTOR_SIZE];
      var ok := StorageReadSectors(g.fatStart + 4 * cluster / SECTOR_SIZE, 1, sector);
      assert ok && sector[..] == FatSector(ramdisk[..], g, 0, cluster / 128);
      var at := 4 * cluster % SECTOR_SIZE;
      return De32(sector[at..at + 4]) % LOW28;
    }

    /** `fat32_write_fat_entry`: patch the sector of the first copy and store it in every copy. */
    method WriteFatEntry(cluster: nat, value: nat) returns (ok: bool)
      requires Valid()
      modifies ramdisk, this`mirrored
      ensures Valid() && ok == (mounted && g.HasCluster(cluster))
      ensures !ok ==> ramdisk[..] == old(ramdisk[..]) && mirrored == old(mirrored)
      ensures ok ==>
                ramdisk[..] == WithFatEntry(old(ramdisk[..]), g, cluster, value)
                && mirrored == old(mirrored) + {cluster / 128}
    {
      hide Mirrored, FatTable, ClusterTable, Fits, FatSector, PatchedSector, WithFatEntry;
      if !mounted || !g.HasCluster(cluster) { return false; }
      ghost var d := ramdisk[..];
      CoversSector(g, ramdisk.Length, cluster);
      EntryOffset(cluster);
      var sector := new Byte[SECTOR_SIZE];
      var read := StorageReadSectors(g.fatStart + 4 * cluster / SECTOR_SIZE, 1, sector);
      SectorRead(d, g, cluster, sector[..]);
      PatchEntry(sector, 4 * cluster % SECTOR_SIZE, cluster % 128, value);
      StoreInAllCopies(cluster, sector, d, value);
      mirrored := mirrored + {cluster / 128};
      forall s | s in mirrored
        ensures Mirrored(ramdisk[..], g, s)
      {
        FatWriteMirrors(d, g, cluster, value, s);
      }
      return true;
    }

    /** The loop over the FAT copies. */
    method StoreInAllCopies(cluster: nat, sector: array<Byte>, ghost d: seq<Byte>, ghost value: nat)
      requires Valid() && mounted && g.HasCluster(cluster) && sector.Length == SECTOR_SIZE && sector != ramdisk
               && d == ramdisk[..]
      requires cluster / 128 < g.fatSize && FatSectorPos(g, 0, cluster / 128) + SECTOR_SIZE <= |d|
      requires sector[..] == PatchedSector(FatSector(d, g, 0, cluster / 128), cluster % 128, value)
      modifies ramdisk
      ensures ramdisk[..] == WithFatEntry(d, g, cluster, value)
    {
      hide Mirrored, FatTable, ClusterTable, FatSector, PatchedSector, Splice;
      EntryOffset(cluster);
      ghost var patched := sector[..];
      var k := 0;
      while k < g.numFats
        invariant k <= g.numFats && sector[..] == patched
        invariant ramdisk[..] == WithFatSector(d, g, cluster / 128, patched, k)
      {
        FatSectorFits(g, ramdisk.Length, k, cluster / 128);
        assert sector[..1 * SECTOR_SIZE] == sector[..];
        var stored := StorageWriteSectors(g.fatStart + k * g.fatSize + 4 * cluster / SECTOR_SIZE, 1, sector);
        k := k + 1;
      }
    }

    // ---- clusters ----

    /** `fat32_read_cluster` into the shared buffer. */
    method ReadCluster(cluster: nat) returns (ok: bool)
      requires Valid() && (mounted ==> cluster < 2 || g.HasCluster(cluster))
      modifies buffer
      ensures Valid() && ok == (mounted && 2 <= cluster)
      ensures !ok ==> buffer[..] == old(buffer[..])
      ensures ok ==> State() == old(State()).Loaded(cluster)
      ensures !ok && mounted ==> State() == old(State())
    {
      if !mounted || cluster < 2 { return false; }
      ClusterFits(g, ramdisk.Length, cluster);
      ok := StorageReadSectors(g.dataStart + (cluster - 2) * g.spc, g.spc, buffer);
      assert buffer[..g.Bpc()] == Cluster(ramdisk[..], g, cluster);
    }

    /** `fat32_write_cluster` from the shared buffer. */
    method WriteCluster(cluster: nat) returns (ok: bool)
      requires Valid() && (mounted ==> cluster < 2 || g.HasCluster(cluster))
      modifies ramdisk
      ensures Valid() && ok == (mounted && 2 <= cluster)
      ensures !ok ==> ramdisk[..] == old(ramdisk[..])
      ensures ok ==> State() == old(State()).Stored(cluster)
    {
      if !mounted || cluster < 2 { return false; }
      ghost var d := ramdisk[..];
      ClusterFits(g, ramdisk.Length, cluster);
      ok := StorageWriteSectors(g.dataStart + (cluster - 2) * g.spc, g.spc, buffer);
      assert ramdisk[..] == WithCluster(d, g, cluster, buffer[..g.Bpc()]);
      ClusterWriteRefines(d, g, cluster, buffer[..g.Bpc()]);
      forall s | s in mirrored
        ensures Mirrored(ramdisk[..], g, s)
      {
        ClusterWriteKeepsMirrors(d, g, cluster, buffer[..g.Bpc()], s);
      }
    }

    // ---- the allocator ----

    /** What the FAT operations do to the state. */
    lemma FatOfState()
      requires Valid() && mounted
      ensures |State().fat| == g.Limit()
      ensures forall c: nat {:trigger FatEntry(ramdisk[..], g, c)} :: g.HasCluster(c) ==>
              State().fat[c] == FatEntry(ramdisk[..], g, c)
    {
      hide ClusterTable, FatEntry, Mirrored;
    }

    /** `fat32_write_fat_entry` on the state. */
    method SetFat(cluster: nat, value: nat) returns (ok: bool)
      requires Valid() && mounted && value < LOW28
      modifies ramdisk, this`mirrored
      ensures Valid() && ok == g.HasCluster(cluster) && mirrored >= old(mirrored) && (ok ==> cluster / 128 in mirrored)
      ensures cluster >= 2 ==> ok == InRange(old(State()).fat, cluster)
      ensures State() == if ok && cluster < |old(State()).fat|
                         then old(State()).(fat := old(State()).fat[cluster := value])
                         else old(State())
    {
      StateShaped();
      ghost var d := ramdisk[..];
      hide FatTable, ClusterTable, Mirrored, Fits, WithFatEntry, ImageState;
      ok := WriteFatEntry(cluster, value);
      if ok { ImageFatWritten(d, g, freeClusters, nextFree, buffer[..g.Bpc()], cluster, value); }
    }

    /** `fat32_read_fat_entry` on the state. */
    method GetFat(cluster: nat) returns (v: nat)
      requires Valid() && mounted
      ensures v == Link(State().fat, cluster)
    {
      StateShaped();
      FatOfState();
      hide FatTable, ClusterTable, Mirrored, Fits, FatEntry;
      v := ReadFatEntry(cluster);
    }

    /** File sizes on a mounted volume stay far below 2^32. */
    lemma StateAddressable()
      requires Valid() && mounted
      ensures Addressable(State()) && Capacity(State()) + SECTOR_SIZE < WORD && State().Bpc() % SECTOR_SIZE == 0
    {
      hide FatTable, ClusterTable, Mirrored;
      StateShaped();
      CapacityBounded(g, ramdisk.Length);
    }

    lemma CountersOfState()
      requires Valid() && mounted
      ensures State().free == freeClusters && State().hint == nextFree && State().root == g.root
      ensures State().PoolOf().free == freeClusters && State().PoolOf().hint == nextFree
              && State().PoolOf().fat == State().fat
      ensures |State().fat| == g.Limit() && Shaped(State()) && PoolOk(State().PoolOf())
    {
      hide FatTable, ClusterTable, Mirrored, Fits;
      StateShaped();
    }

    /** Mark a free cluster as the end of a chain and account for it. */
    method TakeCluster(cluster: nat)
      requires Valid() && mounted && InRange(State().fat, cluster) && State().free > 0
      modifies ramdisk, this`mirrored, this`freeClusters, this`nextFree
      ensures Valid() && mounted && mirrored >= old(mirrored)
      ensures State() == old(State()).WithPool(Take(old(State()).PoolOf(), cluster))
    {
      StateShaped();
      hide FatTable, ClusterTable, Mirrored, Fits;
      var ok := SetFat(cluster, FAT32_EOC);
      freeClusters := freeClusters - 1;
      nextFree := cluster + 1;
    }

    /** `fat32_allocate_cluster`. */
    method AllocateCluster() returns (cluster: nat)
      requires Valid()
      modifies ramdisk, this`mirrored, this`freeClusters, this`nextFree
      ensures Valid() && mirrored >= old(mirrored)
      ensures !mounted ==> cluster == 0 && ramdisk[..] == old(ramdisk[..])
      ensures mounted ==> PoolOk(old(State()).PoolOf())
      ensures mounted ==>
                var (p, c) := Allocate(old(State()).PoolOf());
                cluster == c && State() == old(State()).WithPool(p)
    {
      hide Fits, Mirrored, ImageState, FatTable, ClusterTable, Shaped, Valid;
      if !mounted { return 0; }
      CountersOfState();
      ScanResult(State().fat, nextFree, g.Limit());
      ScanResult(State().fat, 2, nextFree);
      if freeClusters == 0 { return 0; }
      cluster := FindFree(nextFree, g.Limit());
      if cluster != 0 { TakeCluster(cluster); return; }
      cluster := FindFree(2, nextFree);
      if cluster != 0 { TakeCluster(cluster); }
    }

    /** One scanning loop of the allocator: the first free cluster of `from..to`, or 0. */
    method FindFree(from: nat, to: nat) returns (cluster: nat)
      requires Valid() && mounted && 2 <= from && to <= |State().fat|
      ensures cluster == match Scan(State().fat, from, to) case Some(c) => c case None => 0
    {
      hide Fits, Mirrored, ImageState, FatTable, ClusterTable, Shaped, Valid;
      ghost var v := State();
      var c: nat := from;
      while c < to
        invariant from <= c
        invariant Scan(v.fat, c, to) == Scan(v.fat, from, to)
      {
        var e := GetFat(c);
        if e == FAT32_FREE { return c; }
        c := c + 1;
      }
      return 0;
    }

    /** `fat32_free_cluster_chain`: it ends on every table, because a turn frees a used entry or is the last
        but one. */
    method FreeClusterChain(start: nat) returns (ok: bool)
      requires Valid()
      modifies ramdisk, this`mirrored, this`freeClusters, this`nextFree
      ensures Valid() && mirrored >= old(mirrored)
      ensures !mounted || start < 2 ==>
              !ok && ramdisk[..] == old(ramdisk[..]) && freeClusters == old(freeClusters) && nextFree == old(nextFree)
      ensures mounted ==> Shaped(old(State()))
      ensures mounted && start >= 2 ==>
              State() == FreeChain(old(State()), start) && ok == Release(old(State()).PoolOf(), start).1
    {
      hide Fits, Mirrored, ImageState, FatTable, ClusterTable, Shaped, Valid;
      if mounted { CountersOfState(); }
      if !mounted || start < 2 { return false; }
      ghost var v := State();
      ghost var end := Release(v.PoolOf(), start);
      var current: nat := start;
      while current >= 2 && current < FAT32_EOC
        invariant Valid() && mirrored >= old(mirrored) && Sized(State().fat)
        invariant State() == v.WithPool(State().PoolOf())
        invariant Release(State().PoolOf(), current) == end
        decreases |UsedSet(State().fat)|, current
      {
        CountersOfState();
        ghost var before := State();
        var next := GetFat(current);
        var written := SetFat(current, FAT32_FREE);
        if !written { return false; }
        DropCounters(current, before);
        if next != FAT32_FREE { UsedSetShrinks(before.fat, current); }
        else { assert before.fat[current := FAT32_FREE] == before.fat; }
        current := next;
      }
      return true;
    }

    /** The counter and the hint after freeing one cluster. */
    method DropCounters(current: nat, ghost before: Vol)
      requires Valid() && mounted && InRange(before.fat, current)
               && State() == before.(fat := before.fat[current := FAT32_FREE])
      modifies this`freeClusters, this`nextFree
      ensures Valid() && mirrored == old(mirrored) && State() == before.WithPool(Drop(before.PoolOf(), current))
    {
      hide Fits, Mirrored, FatTable, ClusterTable;
      StateShaped();
      freeClusters := freeClusters + 1;
      if current < nextFree { nextFree := current; }
    }

    // ---- mounting ----

    /** `fs_mount`. The loop that counts free clusters runs before `mounted` is set, so every entry it looks at
        reads as an end mark and the counter stays at zero. */
    method Mount() returns (ok: bool)
      requires Valid() && (!mounted && SectorSizeOk(ramdisk[..]) ==> Mountable(ramdisk[..]))
      modifies this
      ensures Valid() && ok == (old(mounted) || SectorSizeOk(ramdisk[..])) && mounted == ok
      ensures old(mounted) ==>
                freeClusters == old(freeClusters) && nextFree == old(nextFree) && g == old(g)
                && mirrored == old(mirrored)
      ensures !old(mounted) && ok ==> g == BootGeometry(ramdisk[..]) && freeClusters == 0 && nextFree == 3
    {
      hide FatTable, ClusterTable, Mirrored, BootGeometry, SectorSizeOk, Mountable, Fits;
      if mounted { return true; }
      ok := ReadBootSector();
      if !ok { return false; }
      MountableParts(ramdisk[..]);
      freeClusters, nextFree := 0, 3;
      CountFree();
      NothingCounted(ramdisk[..], g, g.Limit());
      cwd, cwdPath, mirrored := g.root, SLASH, {};
      mounted := true;
    }

    /** The boot sector, checked, and the layout computed from it. */
    method ReadBootSector() returns (ok: bool)
      requires Valid() && !mounted
      modifies this`g
      ensures Valid() && ok == SectorSizeOk(ramdisk[..]) && (ok ==> g == BootGeometry(ramdisk[..]))
    {
      hide FatTable, ClusterTable, Mirrored, BootGeometry, SectorSizeOk, Fits;
      var boot := new Byte[SECTOR_SIZE];
      var read := StorageReadSectors(0, 1, boot);
      assert boot[..] == Window(ramdisk[..], 0, SECTOR_SIZE);
      BootSectorRead(ramdisk[..], boot[..]);
      ok := De16(Window(boot[..], 11, 2)) == SECTOR_SIZE;
      if ok { g := BootGeometry(boot[..]); }
    }

    /** The counting loop of `fs_mount`. */
    method CountFree()
      requires Valid() && freeClusters == 0
      modifies this`freeClusters
      ensures Valid() && freeClusters == CountBelow(ramdisk[..], g, mounted, g.Limit())
    {
      hide FatTable, ClusterTable, Mirrored, Fits, FatEntry;
      var cluster: nat := 2;
      while cluster < g.Limit()
        invariant 2 <= cluster <= g.Limit() && Valid()
        invariant freeClusters == CountBelow(ramdisk[..], g, mounted, cluster)
      {
        var e := ReadFatEntry(cluster);
        if e == FAT32_FREE { freeClusters := freeClusters + 1; }
        cluster := cluster + 1;
      }
    }

    /** `fs_unmount`: closes every handle. */
    method Unmount()
      requires Valid()
      modifies this`mounted, handles
      ensures Valid() && !mounted
      ensures forall h :: h in handles ==> h.inUse == (old(h.inUse) && !old(mounted))
      ensures forall h :: h in handles ==> h.At() == old(h.At()) && h.filename == old(h.filename)
    {
      if mounted {
        var i := 0;
        while i < |handles|
          invariant i <= |handles|
          invariant forall j :: 0 <= j < |handles| ==> handles[j].inUse == (old(handles[j].inUse) && j >= i)
          invariant forall h :: h in handles ==> h.At() == old(h.At()) && h.filename == old(h.filename)
        {
          if handles[i].inUse { Close(handles[i]); }
          i := i + 1;
        }
        mounted := false;
      }
    }

    /** `fs_close`. */
    method Close(h: FileHandle)
      modifies h`inUse
      ensures !h.inUse
    {
      if h.inUse { h.inUse := false; }
    }

    /** `fs_chdir`: whatever the path, the current directory stays the root. */
    method ChangeDirectory(path: seq<Byte>) returns (ok: bool)
      requires Valid()
      modifies this`cwd, this`cwdPath
      ensures Valid() && ok == (mounted && (path == SLASH || (path == DOTS && old(cwdPath) != SLASH)))
      ensures if ok then cwdPath == SLASH && cwd == g.root else cwdPath == old(cwdPath) && cwd == old(cwd)
    {
      if !mounted { return false; }
      if path == SLASH {
        cwd, cwdPath := g.root, SLASH;
        return true;
      }
      if path == DOTS && cwdPath != SLASH {
        cwd, cwdPath := g.root, SLASH;
        return true;
      }
      return false;
    }

    // ---- edits of the shared buffer ----

    /** Bytes stored in the buffer. */
    method PokeBuffer(at: nat, t: seq<Byte>)
      requires Valid() && mounted && at + |t| <= g.Bpc()
      modifies buffer
      ensures Valid() && at + |t| <= old(State()).Bpc()
              && State() == old(State()).(buf := Splice(old(State()).buf, at, t))
    {
      hide FatTable, ClusterTable, Mirrored, Fits;
      ghost var whole := buffer[..];
      Poke(buffer, at, t);
      SplicePrefix(whole, at, t, g.Bpc());
    }

    /** A name stored in the buffer in 8.3 form. */
    method PokeName(at: nat, name: seq<Byte>)
      requires Valid() && mounted && at + 11 <= g.Bpc()
      modifies buffer
      ensures Valid() && at + 11 <= old(State()).Bpc()
              && State() == old(State()).(buf := Splice(old(State()).buf, at, To83(name)))
    {
      hide FatTable, ClusterTable, Mirrored, Fits, To83;
      ghost var whole := buffer[..];
      NameTo83(name, buffer, at);
      SplicePrefix(whole, at, To83(name), g.Bpc());
    }

    /** The loops that clear the buffer for a new cluster. */
    method ClearBuffer()
      requires Valid() && mounted
      modifies buffer
      ensures Valid() && State() == old(State()).(buf := Zeros(old(State()).Bpc()))
    {
      hide FatTable, ClusterTable, Mirrored, Fits;
      var i := 0;
      while i < g.Bpc()
        invariant i <= g.Bpc()
        invariant forall k :: 0 <= k < i ==> buffer[k] == 0
      {
        buffer[i] := 0;
        i := i + 1;
      }
      assert buffer[..g.Bpc()] == Zeros(g.Bpc());
    }
  }

  lemma SplicePrefix(s: seq<Byte>, at: nat, t: seq<Byte>, n: nat)
    requires at + |t| <= n <= |s|
    ensures Splice(s, at, t)[..n] == Splice(s[..n], at, t)
  {
  }

  /** The free entries that the counting loop finds below cluster `c`: an unmounted volume shows none. */
  ghost function CountBelow(d: seq<Byte>, g: Geometry, mounted: bool, c: nat): nat
    requires mounted ==> Fits(g, |d|)
  {
    if c <= 2 then 0
    else CountBelow(d, g, mounted, c - 1) + if mounted && FatEntry(d, g, c - 1) == FAT32_FREE then 1 else 0
  }

  lemma {:induction false} NothingCounted(d: seq<Byte>, g: Geometry, c: nat)
    ensures CountBelow(d, g, false, c) == 0
  {
    if c > 2 { NothingCounted(d, g, c - 1); }
  }

  lemma BootSectorRead(d: seq<Byte>, boot: seq<Byte>)
    requires |d| >= SECTOR_SIZE && boot == Window(d, 0, SECTOR_SIZE)
    ensures BootGeometry(boot) == BootGeometry(d)
    ensures SectorSizeOk(d) <==> De16(Window(boot, 11, 2)) == SECTOR_SIZE
  {
    assert forall at: nat, n: nat {:trigger Window(d, at, n)} :: at + n <= SECTOR_SIZE ==>
        Window(boot, at, n) == Window(d, at, n);
  }

  lemma MountableParts(d: seq<Byte>)
    requires |d| >= SECTOR_SIZE && Mountable(d)
    ensures Fits(BootGeometry(d), |d|) && BootGeometry(d).Bpc() <= BUFFER_SIZE && BootGeometry(d).Limit() >= 3
  {
  }

  /** The fields of the boot sector, byte by byte: the words at 14, 16, 36, 44 and 32, and the cluster size at 13; the
      sector size, at 11, must be 512, and a cluster of more than 8 sectors does not fit the buffer. */
  lemma BootFields(d: seq<Byte>)
    requires |d| >= SECTOR_SIZE
    ensures var g := BootGeometry(d);
            && g.fatStart == LittleEndian(d[14], d[15], 0, 0) && g.numFats == d[16] && g.spc == d[13]
            && g.fatSize == LittleEndian(d[36], d[37], d[38], d[39])
            && g.root == LittleEndian(d[44], d[45], d[46], d[47])
            && g.dataStart == g.fatStart + Product(g.numFats, g.fatSize)
            && var sectors := LittleEndian(d[32], d[33], d[34], d[35]);
               g.total == if g.spc > 0 && sectors >= g.dataStart then Quotient(sectors - g.dataStart, g.spc) else 0
    ensures SectorSizeOk(d) <==> d[11] == 0 && d[12] == 2
    ensures Mountable(d) <==> Fits(BootGeometry(d), |d|) && d[13] <= 8
  {
  }

  /** The check of the boot sector that `fs_mount` makes. */
  predicate SectorSizeOk(d: seq<Byte>)
    requires |d| >= SECTOR_SIZE
  {
    De16(Window(d, 11, 2)) == SECTOR_SIZE
  }

  /** The boot sector describes a volume that lies on the disk, with clusters no larger than the buffer. */
  ghost predicate Mountable(d: seq<Byte>)
    requires |d| >= SECTOR_SIZE
  {
    Fits(BootGeometry(d), |d|) && BootGeometry(d).Bpc() <= BUFFER_SIZE
  }
}
