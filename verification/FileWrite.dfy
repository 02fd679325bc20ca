/**
 The loop of `fs_write`: overwriting cluster by cluster and growing the chain as needed.

 The main result, `WriteOverlays`, says for a write of any length at any cursor position, with anything in the
 shared buffer, what becomes of the file, of the chain, of the allocator and of everything else on the volume.
 */
module FileWrite {
  import opened Bytes
  import opened FatImage
  import opened Chains
  import opened Allocator
  import opened VolumeState
  import opened FileContent

  // ---- the loop, as the driver runs it ----

  /** The table with `c` linked behind the last cluster found from `first`. */
  function LinkLast(fat: seq<nat>, first: nat, c: nat): (r: seq<nat>)
    ensures |r| == |fat|
  {
    var ch := Chain(fat, first);
    if ch == [] || !InRange(fat, ch[|ch| - 1]) then fat else fat[ch[|ch| - 1] := c]
  }

  /** Allocate and link a cluster when the cursor is not on one; false when no cluster is left. */
  function Grow(v: Vol, h: Cursor): (r: (Vol, Cursor, bool))
    requires Shaped(v)
    ensures Shaped(r.0) && r.0.Bpc() == v.Bpc()
    ensures r.2 ==> InRange(r.0.fat, r.1.cur) && (r.1.off == 0 || r.1.off == h.off)
  {
    if InRange(v.fat, h.cur) then (v, h, true)
    else
      assert PoolOk(v.PoolOf());
      var (p, c) := Allocate(v.PoolOf());
      AllocateInRange(v.PoolOf());
      if c == 0 then (v, h, false)
      else
        var v1 := v.WithPool(p).(buf := Zeros(v.Bpc()));
        if h.first < 2 then (v1, h.(first := c, cur := c, off := 0), true)
        else (v1.(fat := LinkLast(v1.fat, h.first, c)), h.(cur := c, off := 0), true)
  }

  lemma AllocateInRange(p: Pool)
    requires PoolOk(p)
    ensures var (p', c) := Allocate(p);
            |p'.fat| == |p.fat| && PoolOk(p') && (c == 0 ==> p' == p) && (c != 0 ==> InRange(p.fat, c))
  {
    ScanResult(p.fat, p.hint, |p.fat|);
    ScanResult(p.fat, 2, p.hint);
  }

  /** Fill the rest of the current cluster, or as much of it as `b` needs. */
  function Put(v: Vol, h: Cursor, b: seq<Byte>): (r: (Vol, Cursor, nat))
    requires Shaped(v) && InRange(v.fat, h.cur) && h.off < v.Bpc() && b != []
    ensures Shaped(r.0) && r.0.Bpc() == v.Bpc() && r.1.off < v.Bpc() && 0 < r.2 <= |b|
  {
    var v1 := if h.off == 0 then v.Loaded(h.cur) else v;
    var m := Min(|b|, v.Bpc() - h.off);
    var v2 := v1.(buf := Splice(v1.buf, h.off, b[..m])).Stored(h.cur);
    var h1 := Moved(v.fat, v.Bpc(), h, m);
    var h2 := if h.off + m == v.Bpc() && h1.cur >= FAT32_EOC then h1.(cur := FAT32_EOC) else h1;
    (v2, h2.(size := Max(h.size, h2.pos)), m)
  }

  /** The loop of `fs_write`: the volume, the cursor and the number of bytes written. */
  function WriteLoop(v: Vol, h: Cursor, b: seq<Byte>): (r: (Vol, Cursor, nat))
    requires Shaped(v) && h.off < v.Bpc()
    ensures Shaped(r.0) && r.0.Bpc() == v.Bpc() && r.1.off < v.Bpc()
    decreases |b|
  {
    if b == [] then (v, h, 0)
    else
      var (v1, h1, ok) := Grow(v, h);
      if !ok then (v, h, 0)
      else
        var (v2, h2, m) := Put(v1, h1, b);
        var (v3, h3, w) := WriteLoop(v2, h2, b[m..]);
        (v3, h3, m + w)
  }

  // ---- what is kept while writing ----

  /** File `i` of a volume whose chains are sound is open at a cursor in block `k`, with anything in the buffer. */
  ghost predicate Placed(v: Vol, heads: seq<Option<nat>>, chains: seq<seq<nat>>, i: nat, h: Cursor, k: nat)
  {
    && Shaped(v) && Counted(v.PoolOf())
    && Partition(v.root, heads, v.fat, chains)
    && i < |chains| && i < |heads| && heads[i] == Some(h.first)
    && CursorAt(chains[i], v.Bpc(), h, k) && h.pos <= h.size
  }

  /** The same with the current cluster in the buffer, as it is once a turn of the loop has been made. */
  ghost predicate Writing(v: Vol, heads: seq<Option<nat>>, chains: seq<seq<nat>>, i: nat, h: Cursor, k: nat)
  {
    Placed(v, heads, chains, i, h, k) && Coherent(v, h)
  }

  lemma WritingIsPlaced(v: Vol, heads: seq<Option<nat>>, chains: seq<seq<nat>>, i: nat, h: Cursor, k: nat)
    requires Writing(v, heads, chains, i, h, k)
    ensures Placed(v, heads, chains, i, h, k)
  {
  }

  /** The chain of the written file is well formed and its clusters have the right length. */
  lemma WritingChain(v: Vol, heads: seq<Option<nat>>, chains: seq<seq<nat>>, i: nat, h: Cursor, k: nat)
    requires Placed(v, heads, chains, i, h, k) || Writing(v, heads, chains, i, h, k)
    ensures IsChain(v.fat, chains[i]) && chains[i][0] == h.first && v.root !in chains[i] && Distinct(chains[i])
    ensures Uniform(v.data, chains[i], v.Bpc()) && |Flat(v.data, chains[i])| == |chains[i]| * v.Bpc()
    ensures Shaped(v) && h.off < v.Bpc() && h.first >= 2 && k <= |chains[i]| && i < |chains|
  {
    assert Heading(v.root, heads[i], v.fat, chains[i]);
    ChainIsAcyclic(v.fat, chains[i]);
    ChainUniform(v, chains[i]);
    FlatLength(v.data, chains[i], v.Bpc());
  }

  // ---- a buffer that is not the current cluster ----

  /** The volume as a cursor sees it: inside a cluster the shared buffer stands in for that cluster. */
  function Imposed(v: Vol, h: Cursor): (r: Vol)
    requires Shaped(v)
    ensures Shaped(r) && r.Bpc() == v.Bpc()
  {
    if h.off != 0 && InRange(v.fat, h.cur) then v.(data := v.data[h.cur := v.buf]) else v
  }

  lemma ImposedIsWriting(v: Vol, heads: seq<Option<nat>>, chains: seq<seq<nat>>, i: nat, h: Cursor, k: nat)
    requires Placed(v, heads, chains, i, h, k)
    ensures Shaped(v) && Writing(Imposed(v, h), heads, chains, i, h, k)
    ensures h.off != 0 ==> k < |chains[i]| && h.cur == chains[i][k] && InRange(v.fat, h.cur)
  {
    WritingChain(v, heads, chains, i, h, k);
    if h.off != 0 { assert InRange(v.fat, chains[i][k]); }
    assert Imposed(v, h).PoolOf() == v.PoolOf();
    hide Counted, Partition;
  }

  /** What the cursor sees of the file: one block replaced by the buffer, when it stands inside a cluster. */
  lemma ImposedFlat(v: Vol, heads: seq<Option<nat>>, chains: seq<seq<nat>>, i: nat, h: Cursor, k: nat)
    requires Placed(v, heads, chains, i, h, k)
    ensures Shaped(v) && i < |chains|
    ensures var f, n := Flat(v.data, chains[i]), v.Bpc();
            if h.off == 0 then Flat(Imposed(v, h).data, chains[i]) == f
            else
              && InRange(v.fat, h.cur) && |v.data[h.cur]| == n && h.pos == k * n + h.off && 0 <= k * n
              && k * n + n <= |f| && Window(f, k * n, n) == v.data[h.cur]
              && Flat(Imposed(v, h).data, chains[i]) == Splice(f, k * n, v.buf)
  {
    WritingChain(v, heads, chains, i, h, k);
    ImposedIsWriting(v, heads, chains, i, h, k);
    if h.off != 0 {
      hide Counted, Partition, IsChain, Flat, Splice;
      FlatWrite(v.data, chains[i], v.Bpc(), k, v.buf);
      FlatBlock(v.data, chains[i], v.Bpc(), k);
    }
  }

  /** Inside a cluster the write loop never looks at the cluster's bytes on disk. */
  lemma WriteIgnoresDisk(v: Vol, h: Cursor, b: seq<Byte>)
    requires Shaped(v) && h.off < v.Bpc() && b != []
    ensures WriteLoop(v, h, b) == WriteLoop(Imposed(v, h), h, b)
  {
    if h.off != 0 && InRange(v.fat, h.cur) {
      hide Splice, Shaped;
      var v0 := Imposed(v, h);
      assert Grow(v, h) == (v, h, true) && Grow(v0, h) == (v0, h, true);
      PutIgnoresDisk(v, h, b);
      var (v2, h2, m) := Put(v, h, b);
      hide Put;
      WriteTurn(v, h, b, v, h, v2, h2, m);
      WriteTurn(v0, h, b, v0, h, v2, h2, m);
    }
  }

  lemma PutIgnoresDisk(v: Vol, h: Cursor, b: seq<Byte>)
    requires Shaped(v) && InRange(v.fat, h.cur) && h.off < v.Bpc() && b != []
    ensures Put(v, h, b) == Put(Imposed(v, h), h, b)
  {
    hide Splice;
    var block := Splice(v.buf, h.off, b[..Min(|b|, v.Bpc() - h.off)]);
    assert v.data[h.cur := v.buf][h.cur := block] == v.data[h.cur := block];
  }

  /** `f'` is `f`, possibly longer, with the first `w` bytes of `b` laid over it at `pos`. */
  ghost predicate Overlaid(f: seq<Byte>, f': seq<Byte>, pos: nat, b: seq<Byte>, w: nat)
  {
    && w <= |b| && pos <= |f| <= |f'| && pos + w <= |f'|
    && (forall p :: 0 <= p < pos ==> f'[p] == f[p])
    && (forall p :: pos <= p < pos + w ==> f'[p] == b[p - pos])
    && (forall p :: pos + w <= p < |f| ==> f'[p] == f[p])
  }

  lemma OverlaidTrans(f: seq<Byte>, stale: seq<Byte>, f2: seq<Byte>, pos: nat, b: seq<Byte>, m: nat, w: nat)
    requires m <= |b| && pos <= |f| && pos + m <= |f + stale|
    requires Overlaid(Splice(f + stale, pos, b[..m]), f2, pos + m, b[m..], w)
    ensures Overlaid(f, f2, pos, b, m + w)
  {
    var f1 := Splice(f + stale, pos, b[..m]);
    forall p | pos <= p < pos + m + w
      ensures f2[p] == b[p - pos]
    {
      if p < pos + m { assert f2[p] == f1[p] == b[..m][p - pos]; }
      else { assert f2[p] == b[m..][p - (pos + m)]; }
    }
  }

  /** Bytes that still fit: to the end of the chain, and the clusters the allocator will give. */
  function Room(v: Vol, ch: seq<nat>, h: Cursor): int
  {
    |ch| * v.Bpc() - h.pos + v.free * v.Bpc()
  }

  /** Growing takes one free cluster onto the end of the chain, exactly when the cursor is at the end. */
  ghost predicate GrowDone(v: Vol, heads: seq<Option<nat>>, chains: seq<seq<nat>>, i: nat, h: Cursor, k: nat,
      chains': seq<seq<nat>>)
    requires Shaped(v) && i < |chains|
  {
    var (v', h', ok) := Grow(v, h);
    && ok == (k < |chains[i]| || v.free > 0)
    && |chains'| == |chains| && (forall j :: 0 <= j < |chains| && j != i ==> chains'[j] == chains[j])
    && (ok ==> Writing(v', heads, chains', i, h', k) && k < |chains'[i]|)
    && (k < |chains[i]| ==> v' == v && h' == h && chains' == chains)
    && (k == |chains[i]| && ok ==>
          && |chains'[i]| == |chains[i]| + 1 && chains[i] <= chains'[i]
          && v'.data == v.data && v'.free == v.free - 1 && v'.root == v.root && v'.Bpc() == v.Bpc()
          && Gap(v'.PoolOf()) == Gap(v.PoolOf())
          && h' == h.(cur := h'.cur))
  }

  lemma GrowKeepsWriting(v: Vol, heads: seq<Option<nat>>, chains: seq<seq<nat>>, i: nat, h: Cursor, k: nat)
    returns (chains': seq<seq<nat>>)
    requires Writing(v, heads, chains, i, h, k)
    ensures Shaped(v) && GrowDone(v, heads, chains, i, h, k, chains')
  {
    chains' := chains;
    WritingChain(v, heads, chains, i, h, k);
    var ch := chains[i];
    if k == |ch| {
      AllocateIsFirstFit(v.PoolOf());
      if v.free > 0 {
        var (p, c) := Allocate(v.PoolOf());
        chains' := chains[i := ch + [c]];
        GrowLinks(v, heads, chains, i, h, p, c);
      }
    }
  }

  lemma GrowIs(v: Vol, h: Cursor, p: Pool, c: nat)
    requires Shaped(v) && !InRange(v.fat, h.cur) && PoolOk(v.PoolOf()) && Allocate(v.PoolOf()) == (p, c) && c != 0
             && h.first >= 2
    ensures Grow(v, h) ==
            (v.WithPool(p).(buf := Zeros(v.Bpc()), fat := LinkLast(p.fat, h.first, c)), h.(cur := c, off := 0), true)
  {
    hide Allocate, LinkLast;
  }

  lemma GrowLinks(v: Vol, heads: seq<Option<nat>>, chains: seq<seq<nat>>, i: nat, h: Cursor, p: Pool, c: nat)
    requires i < |chains| && Writing(v, heads, chains, i, h, |chains[i]|) && v.free > 0
    requires PoolOk(v.PoolOf()) && (p, c) == Allocate(v.PoolOf())
    ensures var (v', h', ok) := Grow(v, h); var ch := chains[i];
            && ok && Writing(v', heads, chains[i := ch + [c]], i, h', |ch|)
            && v'.data == v.data && v'.free == v.free - 1 && v'.root == v.root && v'.Bpc() == v.Bpc()
            && Gap(v'.PoolOf()) == Gap(v.PoolOf()) && h' == h.(cur := h'.cur)
  {
    hide Flat, Uniform, Distinct, Scan, Allocate, Partition, LinkLast, Chain, HintTight, Gap;
    var ch := chains[i];
    WritingChain(v, heads, chains, i, h, |ch|);
    AllocateIsFirstFit(v.PoolOf());
    PartitionExtend(v.root, heads, v.fat, chains, i, c);
    LinkLastIs(v.fat, ch, c);
    GrowIs(v, h, p, c);
    hide Grow, IsChain;
    LastInUse(v.fat, ch, c);
    GapAfterLink(p, ch[|ch| - 1], c);
  }

  lemma LastInUse(fat: seq<nat>, ch: seq<nat>, c: nat)
    requires IsChain(fat, ch) && InRange(fat, c)
    ensures InRange(fat, ch[|ch| - 1]) && fat[c := FAT32_EOC][ch[|ch| - 1]] != FAT32_FREE
  {
    ChainNotFree(fat, ch);
    assert ch[|ch| - 1] in ch;
  }

  lemma LinkLastIs(fat: seq<nat>, ch: seq<nat>, c: nat)
    requires IsChain(fat, ch) && InRange(fat, c) && fat[c] == FAT32_FREE
    ensures InRange(fat, ch[|ch| - 1])
    ensures LinkLast(fat[c := FAT32_EOC], ch[0], c) == fat[c := FAT32_EOC][ch[|ch| - 1] := c]
  {
    ChainNotFree(fat, ch);
    ChainFound(fat, ch);
    ChainFrame(fat, fat[c := FAT32_EOC], ch[0]);
  }

  /** Overwriting one used entry by another nonzero value does not concern the allocator. */
  lemma GapAfterLink(p: Pool, last: nat, c: nat)
    requires Counted(p) && InRange(p.fat, last) && p.fat[last] != FAT32_FREE && c != FAT32_FREE
    ensures var q := p.(fat := p.fat[last := c]); Counted(q) && Gap(q) == Gap(p)
  {
    assert FreeSet(p.fat[last := c]) == FreeSet(p.fat);
  }

  /** Splicing into a block and putting the block back is splicing into the whole. */
  lemma SpliceBlock<T>(f: seq<T>, at: nat, n: nat, off: nat, t: seq<T>)
    requires at + n <= |f| && off + |t| <= n
    ensures Splice(f, at, Splice(Window(f, at, n), off, t)) == Splice(f, at + off, t)
  {
  }

  /** What filling one cluster does to the volume. */
  lemma PutEffect(v: Vol, h: Cursor, b: seq<Byte>)
    requires Shaped(v) && InRange(v.fat, h.cur) && h.off < v.Bpc() && b != [] && Coherent(v, h)
    ensures var (v', h', m) := Put(v, h, b);
            && m == Min(|b|, v.Bpc() - h.off)
            && v' == v.(data := v.data[h.cur := Splice(v.data[h.cur], h.off, b[..m])], buf := v'.buf)
            && (h'.off != 0 ==> h'.cur == h.cur && v'.buf == v'.data[h.cur])
            && h' == h.(cur := h'.cur, off := h'.off, pos := h.pos + m, size := Max(h.size, h.pos + m))
            && var h1 := Moved(v.fat, v.Bpc(), h, m);
               h'.off == h1.off && h'.cur == if h.off + m == v.Bpc() && h1.cur >= FAT32_EOC then FAT32_EOC else h1.cur
  {
    hide Splice;
  }

  /** Filling one cluster moves the cursor along and touches nothing but that cluster and the buffer. */
  lemma PutKeepsWriting(v: Vol, heads: seq<Option<nat>>, chains: seq<seq<nat>>, i: nat, h: Cursor, k: nat, b: seq<Byte>)
    requires Writing(v, heads, chains, i, h, k) && k < |chains[i]| && b != []
    ensures InRange(v.fat, h.cur) && h.off < v.Bpc() && h.cur == chains[i][k]
    ensures var (v', h', m) := Put(v, h, b);
            && m == Min(|b|, v.Bpc() - h.off)
            && h.pos + m <= |chains[i]| * v.Bpc()
            && h' == h.(cur := h'.cur, off := h'.off, pos := h.pos + m, size := Max(h.size, h.pos + m))
            && v' == v.(data := v.data[h.cur := Splice(v.data[h.cur], h.off, b[..m])], buf := v'.buf)
            && Writing(v', heads, chains, i, h', if h.off + m == v.Bpc() then k + 1 else k)
  {
    hide Put, Partition, Counted, Splice, Flat, Uniform, Distinct;
    WritingChain(v, heads, chains, i, h, k);
    var ch, n := chains[i], v.Bpc();
    assert InRange(v.fat, h.cur) by { assert InRange(v.fat, ch[k]); }
    PutEffect(v, h, b);
    var (v', h', m) := Put(v, h, b);
    Blocks(k, |ch|, n);
    MovedStaysOnChain(v.fat, ch, n, h, k, m);
    assert v'.PoolOf() == v.PoolOf() && Shaped(v');
    assert k + 1 < |ch| ==> InRange(v.fat, ch[k + 1]);
  }

  /** Filling one cluster is an overlay on the file. */
  lemma PutOverlays(v: Vol, heads: seq<Option<nat>>, chains: seq<seq<nat>>, i: nat, h: Cursor, k: nat, b: seq<Byte>)
    requires Writing(v, heads, chains, i, h, k) && k < |chains[i]| && b != []
    ensures InRange(v.fat, h.cur) && h.off < v.Bpc() && Uniform(v.data, chains[i], v.Bpc())
    ensures var (v', h', m) := Put(v, h, b);
            && Uniform(v'.data, chains[i], v.Bpc())
            && m <= |b| && h.pos + m <= |chains[i]| * v.Bpc() == |Flat(v.data, chains[i])|
            && Flat(v'.data, chains[i]) == Splice(Flat(v.data, chains[i]), h.pos, b[..m])
            && |v'.data| == |v.data|
            && (forall c :: 0 <= c < |v.data| && c !in chains[i] ==> v'.data[c] == v.data[c])
  {
    hide Put, Flat, Partition, Counted, Shaped;
    var ch, n := chains[i], v.Bpc();
    WritingChain(v, heads, chains, i, h, k);
    PutKeepsWriting(v, heads, chains, i, h, k, b);
    var (v', h', m) := Put(v, h, b);
    WritingChain(v', heads, chains, i, h', if h.off + m == n then k + 1 else k);
    FlatWrite(v.data, ch, n, k, Splice(v.data[h.cur], h.off, b[..m]));
    FlatBlock(v.data, ch, n, k);
    SpliceBlock(Flat(v.data, ch), k * n, n, h.off, b[..m]);
  }

  // ---- the whole loop ----

  /** Everything a write of `b` at cursor `h` does: `w` bytes of `b` are laid over the file at the cursor;
      the chain grows only by clusters that the bytes reach, one per cluster taken from the allocator; the
      other files, their chains and the root are as before. */
  ghost predicate Written(v: Vol, chains: seq<seq<nat>>, i: nat, h: Cursor, b: seq<Byte>,
                          v': Vol, chains': seq<seq<nat>>, h': Cursor, w: nat)
  {
    && i < |chains| && |chains'| == |chains| && chains[i] <= chains'[i]
    && (forall j :: 0 <= j < |chains| && j != i ==> chains'[j] == chains[j])
    && v'.root == v.root && |v'.data| == |v.data| && v'.Bpc() == v.Bpc()
    && (forall c :: 0 <= c < |v.data| && c !in chains'[i] ==> v'.data[c] == v.data[c])
    && v'.free + |chains'[i]| == v.free + |chains[i]| && Gap(v'.PoolOf()) == Gap(v.PoolOf())
    && (|chains'[i]| > |chains[i]| ==> |chains'[i]| * v.Bpc() < h.pos + w + v.Bpc())
    && h'.first == h.first && h'.pos == h.pos + w && h'.size == Max(h.size, h.pos + w)
    && Uniform(v'.data, chains'[i], v.Bpc())
    && Overlaid(Flat(v.data, chains[i]), Flat(v'.data, chains'[i]), h.pos, b, w)
  }

  lemma NothingWritten(v: Vol, heads: seq<Option<nat>>, chains: seq<seq<nat>>, i: nat, h: Cursor, k: nat, b: seq<Byte>)
    requires Writing(v, heads, chains, i, h, k)
    ensures Uniform(v.data, chains[i], v.Bpc())
    ensures Written(v, chains, i, h, b, v, chains, h, 0)
  {
    WritingChain(v, heads, chains, i, h, k);
    if k < |chains[i]| { Blocks(k, |chains[i]|, v.Bpc()); }
  }

  /** The first turn of the loop, then the rest. */
  lemma WriteTurn(v: Vol, h: Cursor, b: seq<Byte>, v1: Vol, h1: Cursor, v2: Vol, h2: Cursor, m: nat)
    requires Shaped(v) && h.off < v.Bpc() && b != [] && Grow(v, h) == (v1, h1, true)
    requires Shaped(v1) && InRange(v1.fat, h1.cur) && h1.off < v1.Bpc() && Put(v1, h1, b) == (v2, h2, m)
    requires Shaped(v2) && h2.off < v2.Bpc() && m <= |b|
    ensures var (v3, h3, w) := WriteLoop(v2, h2, b[m..]);
            WriteLoop(v, h, b) == (v3, h3, m + w)
  {
    hide Grow, Put, Shaped;
  }

  lemma TurnOverlays(data: seq<seq<Byte>>, ch: seq<nat>, ch1: seq<nat>, n: nat, f2: seq<Byte>, f3: seq<Byte>, pos: nat,
      b: seq<Byte>, m: nat, w: nat)
    requires Uniform(data, ch, n) && Uniform(data, ch1, n) && ch <= ch1 && |ch1| <= |ch| + 1
    requires 0 < m <= |b| && pos <= |ch| * n && pos + m <= |ch1| * n == |Flat(data, ch1)|
    requires f2 == Splice(Flat(data, ch1), pos, b[..m]) && Overlaid(f2, f3, pos + m, b[m..], w)
    ensures Overlaid(Flat(data, ch), f3, pos, b, m + w)
  {
    FlatLength(data, ch, n);
    var stale: seq<Byte> := [];
    if |ch1| > |ch| {
      assert ch1 == ch + [ch1[|ch|]];
      FlatAppend(data, ch, ch1[|ch|]);
      stale := data[ch1[|ch|]];
    } else {
      assert ch1 == ch;
    }
    assert Flat(data, ch1) == Flat(data, ch) + stale;
    hide Flat, Splice, Overlaid;
    OverlaidTrans(Flat(data, ch), stale, f3, pos, b, m, w);
  }

  /** The state after one turn: at most one cluster more, and the bytes written into it. */
  ghost predicate Turned(v: Vol, chains: seq<seq<nat>>, i: nat, h: Cursor, b: seq<Byte>,
                         v2: Vol, chains1: seq<seq<nat>>, h2: Cursor, m: nat)
  {
    && i < |chains| == |chains1| && chains[i] <= chains1[i]
    && (forall j :: 0 <= j < |chains| && j != i ==> chains1[j] == chains[j])
    && v2.root == v.root && v2.Bpc() == v.Bpc() && |v2.data| == |v.data|
    && v2.free + |chains1[i]| == v.free + |chains[i]| && Gap(v2.PoolOf()) == Gap(v.PoolOf())
    && (|chains1[i]| > |chains[i]| ==> |chains1[i]| == |chains[i]| + 1 && |chains[i]| * v.Bpc() == h.pos)
    && 0 < m <= |b| && h.pos <= |chains[i]| * v.Bpc() && h.pos + m <= |chains1[i]| * v.Bpc()
    && h2 == h.(cur := h2.cur, off := h2.off, pos := h.pos + m, size := Max(h.size, h.pos + m))
    && (forall c :: 0 <= c < |v.data| && c !in chains1[i] ==> v2.data[c] == v.data[c])
    && Uniform(v.data, chains[i], v.Bpc()) && Uniform(v.data, chains1[i], v.Bpc())
    && |Flat(v.data, chains1[i])| == |chains1[i]| * v.Bpc()
    && Flat(v2.data, chains1[i]) == Splice(Flat(v.data, chains1[i]), h.pos, b[..m])
  }

  lemma TurnIs(v: Vol, heads: seq<Option<nat>>, chains: seq<seq<nat>>, i: nat, h: Cursor, k: nat, b: seq<Byte>,
      chains1: seq<seq<nat>>)
    requires Writing(v, heads, chains, i, h, k) && b != [] && Shaped(v) && GrowDone(v, heads, chains, i, h, k, chains1)
    requires k < |chains[i]| || v.free > 0
    ensures var (v1, h1, ok) := Grow(v, h);
            && InRange(v1.fat, h1.cur) && h1.off < v1.Bpc()
            && var (v2, h2, m) := Put(v1, h1, b);
               Turned(v, chains, i, h, b, v2, chains1, h2, m)
  {
    hide Flat, Writing, Shaped, Distinct, Put, Grow, Splice, Gap, IsChain;
    RoomLeft(v, heads, chains, i, h, k);
    WritingChain(v, heads, chains, i, h, k);
    var (v1, h1, ok) := Grow(v, h);
    WritingChain(v1, heads, chains1, i, h1, k);
    PutKeepsWriting(v1, heads, chains1, i, h1, k, b);
    PutOverlays(v1, heads, chains1, i, h1, k, b);
  }

  /** One turn and the rest make up the whole write. */
  lemma TurnsJoin(v: Vol, chains: seq<seq<nat>>, i: nat, h: Cursor, b: seq<Byte>,
                  v2: Vol, chains1: seq<seq<nat>>, h2: Cursor, m: nat,
                  v3: Vol, chains3: seq<seq<nat>>, h3: Cursor, w: nat)
    requires Turned(v, chains, i, h, b, v2, chains1, h2, m)
    requires Written(v2, chains1, i, h2, b[m..], v3, chains3, h3, w)
    ensures Written(v, chains, i, h, b, v3, chains3, h3, m + w)
  {
    hide Flat, Splice, Overlaid, Gap, Uniform;
    var f2, f3 := Flat(v2.data, chains1[i]), Flat(v3.data, chains3[i]);
    TurnOverlays(v.data, chains[i], chains1[i], v.Bpc(), f2, f3, h.pos, b, m, w);
    forall c | 0 <= c < |v.data| && c !in chains3[i]
      ensures v3.data[c] == v.data[c]
    {
      assert c !in chains1[i];
    }
  }

  /** One `WriteLoop` of any length at any cursor position. It writes all of `b`, or as much as there is room
      for in the chain and in the clusters the allocator will still give. */
  lemma {:induction false} WritingOverlays(v: Vol, heads: seq<Option<nat>>, chains: seq<seq<nat>>, i: nat, h: Cursor,
      k: nat, b: seq<Byte>)
    returns (chains': seq<seq<nat>>, k': nat)
    requires Writing(v, heads, chains, i, h, k)
    ensures h.off < v.Bpc() && Uniform(v.data, chains[i], v.Bpc()) && Room(v, chains[i], h) >= 0
    ensures var (v', h', w) := WriteLoop(v, h, b);
            && w == Min(|b|, Room(v, chains[i], h))
            && Written(v, chains, i, h, b, v', chains', h', w)
            && Writing(v', heads, chains', i, h', k')
    decreases |b|
  {
    hide Flat, Writing, Shaped, Written, Uniform, IsChain, Distinct, Put, Grow, Splice, Room;
    WritingChain(v, heads, chains, i, h, k);
    chains', k' := chains, k;
    NothingWritten(v, heads, chains, i, h, k, b);
    RoomLeft(v, heads, chains, i, h, k);
    if b != [] {
      var chains1 := GrowKeepsWriting(v, heads, chains, i, h, k);
      if k < |chains[i]| || v.free > 0 {
        var (v1, h1, ok) := Grow(v, h);
        WritingChain(v1, heads, chains1, i, h1, k);
        PutKeepsWriting(v1, heads, chains1, i, h1, k, b);
        PutOverlays(v1, heads, chains1, i, h1, k, b);
        var (v2, h2, m) := Put(v1, h1, b);
        chains', k' := WritingOverlays(v2, heads, chains1, i, h2, if h1.off + m == v1.Bpc() then k + 1 else k, b[m..]);
        WriteTurn(v, h, b, v1, h1, v2, h2, m);
        var (v3, h3, w) := WriteLoop(v2, h2, b[m..]);
        TurnIs(v, heads, chains, i, h, k, b, chains1);
        TurnsJoin(v, chains, i, h, b, v2, chains1, h2, m, v3, chains', h3, w);
        RoomKept(v, chains[i], h, v1, chains1[i], h1, v2, h2, m);
      }
    }
  }

  /** A write of any length at any cursor position, whatever the shared buffer holds: inside a cluster the buffer
      takes the place of that cluster, and the bytes are laid over what results. Chain, allocator, the other
      clusters, the cursor and the number of bytes do not depend on the buffer. */
  lemma WriteOverlays(v: Vol, heads: seq<Option<nat>>, chains: seq<seq<nat>>, i: nat, h: Cursor, k: nat, b: seq<Byte>)
    returns (chains': seq<seq<nat>>, k': nat)
    requires Placed(v, heads, chains, i, h, k)
    ensures Shaped(v) && h.off < v.Bpc() && i < |chains| && Room(v, chains[i], h) >= 0
    ensures var (v', h', w) := WriteLoop(v, h, b);
            && w == Min(|b|, Room(v, chains[i], h)) && Placed(v', heads, chains', i, h', k')
            && (b == [] ==> v' == v && h' == h && chains' == chains)
            && (b != [] ==>
                  Written(Imposed(v, h), chains, i, h, b, v', chains', h', w) && Writing(v', heads, chains', i, h', k'))
  {
    WritingChain(v, heads, chains, i, h, k);
    ImposedIsWriting(v, heads, chains, i, h, k);
    var v0 := Imposed(v, h);
    hide WriteLoop, Written, Placed, Writing, Shaped, Imposed, Flat, IsChain, Distinct, Uniform, Room;
    chains', k' := chains, k;
    RoomLeft(v0, heads, chains, i, h, k);
    SameRoom(v, v0, chains[i], h);
    if b == [] {
      NothingToWrite(v, h);
    } else {
      WriteIgnoresDisk(v, h, b);
      chains', k' := WritingOverlays(v0, heads, chains, i, h, k, b);
      var (v', h', w) := WriteLoop(v0, h, b);
      WritingIsPlaced(v', heads, chains', i, h', k');
    }
  }

  lemma NothingToWrite(v: Vol, h: Cursor)
    requires Shaped(v) && h.off < v.Bpc()
    ensures WriteLoop(v, h, []) == (v, h, 0)
  {
  }

  lemma SameRoom(v: Vol, v0: Vol, ch: seq<nat>, h: Cursor)
    requires Shaped(v) && v0 == Imposed(v, h)
    ensures Room(v0, ch, h) == Room(v, ch, h)
  {
  }

  lemma RoomLeft(v: Vol, heads: seq<Option<nat>>, chains: seq<seq<nat>>, i: nat, h: Cursor, k: nat)
    requires Writing(v, heads, chains, i, h, k)
    ensures var r := Room(v, chains[i], h);
            && h.pos <= |chains[i]| * v.Bpc() && r >= 0
            && (k == |chains[i]| ==> h.pos == |chains[i]| * v.Bpc() && (v.free == 0 ==> r == 0))
  {
    if k < |chains[i]| { Blocks(k, |chains[i]|, v.Bpc()); }
  }

  lemma RoomKept(v: Vol, ch: seq<nat>, h: Cursor, v1: Vol, ch1: seq<nat>, h1: Cursor, v2: Vol, h2: Cursor, m: nat)
    requires v1.Bpc() == v.Bpc() == v2.Bpc() && v1.free + |ch1| == v.free + |ch| && v2.free == v1.free
    requires h1.pos == h.pos && h2.pos == h.pos + m
    ensures Room(v2, ch1, h2) == Room(v, ch, h) - m
  {
    assert (v1.free + |ch1|) * v.Bpc() == v1.free * v.Bpc() + |ch1| * v.Bpc();
    assert (v.free + |ch|) * v.Bpc() == v.free * v.Bpc() + |ch| * v.Bpc();
  }
}
