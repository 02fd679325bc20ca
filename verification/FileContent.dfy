/**
 File contents as the concatenation of the clusters of a chain, and the cursor loops of `fs_read`,
 `fs_write` and `fs_seek` over them.
 */
module FileContent {
  import opened Bytes
  import opened FatImage
  import opened Chains
  import opened VolumeState

  /** The bytes of the clusters of `ch`, in order. */
  function Flat(data: seq<seq<Byte>>, ch: seq<nat>): seq<Byte>
  {
    if ch == [] then []
    else Flat(data, ch[..|ch| - 1]) + if ch[|ch| - 1] < |data| then data[ch[|ch| - 1]] else []
  }

  ghost predicate Uniform(data: seq<seq<Byte>>, ch: seq<nat>, n: nat)
  {
    forall i :: 0 <= i < |ch| ==> ch[i] < |data| && |data[ch[i]]| == n
  }

  lemma {:induction false} FlatLength(data: seq<seq<Byte>>, ch: seq<nat>, n: nat)
    requires Uniform(data, ch, n)
    ensures |Flat(data, ch)| == |ch| * n
  {
    if ch == [] {
    } else {
      FlatLength(data, ch[..|ch| - 1], n);
      assert (|ch| - 1) * n + n == |ch| * n;
    }
  }

  lemma FlatAppend(data: seq<seq<Byte>>, ch: seq<nat>, c: nat)
    requires c < |data|
    ensures Flat(data, ch + [c]) == Flat(data, ch) + data[c]
  {
    assert (ch + [c])[..|ch|] == ch;
  }

  lemma {:induction false} FlatFrame(data: seq<seq<Byte>>, data': seq<seq<Byte>>, ch: seq<nat>)
    requires forall i :: 0 <= i < |ch| ==> ch[i] < |data| && ch[i] < |data'| && data'[ch[i]] == data[ch[i]]
    ensures Flat(data', ch) == Flat(data, ch)
  {
    if ch != [] {
      FlatFrame(data, data', ch[..|ch| - 1]);
    }
  }

  lemma Blocks(k: nat, m: nat, n: nat)
    requires k < m
    ensures 0 <= k * n && k * n + n == (k + 1) * n <= m * n
  {
    MulMono(k + 1, m, n);
  }

  /** Cluster `k` of the chain is the `k`-th block of the file. */
  lemma {:induction false} FlatBlock(data: seq<seq<Byte>>, ch: seq<nat>, n: nat, k: nat)
    requires Uniform(data, ch, n) && k < |ch|
    ensures |Flat(data, ch)| == |ch| * n && 0 <= k * n && k * n + n <= |ch| * n
    ensures Window(Flat(data, ch), k * n, n) == data[ch[k]]
    decreases |ch|
  {
    var init := ch[..|ch| - 1];
    FlatLength(data, ch, n);
    FlatLength(data, init, n);
    Blocks(k, |ch|, n);
    if k < |ch| - 1 {
      FlatBlock(data, init, n, k);
      assert Window(Flat(data, ch), k * n, n) == Window(Flat(data, init), k * n, n);
    }
  }

  /** Replacing one cluster of the chain replaces one block of the file. */
  lemma {:induction false} FlatWrite(data: seq<seq<Byte>>, ch: seq<nat>, n: nat, k: nat, x: seq<Byte>)
    requires Uniform(data, ch, n) && Distinct(ch) && k < |ch| && |x| == n
    ensures |Flat(data, ch)| == |ch| * n && 0 <= k * n && k * n + n <= |ch| * n
    ensures Flat(data[ch[k] := x], ch) == Splice(Flat(data, ch), k * n, x)
    decreases |ch|
  {
    hide Splice;
    var last := |ch| - 1;
    var init := ch[..last];
    FlatLength(data, ch, n);
    FlatLength(data, init, n);
    Blocks(k, |ch|, n);
    if k < last {
      FlatWrite(data, init, n, k, x);
      assert data[ch[k] := x][ch[last]] == data[ch[last]];
      assert init[k] == ch[k];
      SpliceFront(Flat(data, init), data[ch[last]], k * n, x);
    } else {
      FlatFrame(data, data[ch[k] := x], init);
      SpliceEnd(Flat(data, init), data[ch[last]], x);
    }
  }

  lemma SpliceFront<T>(s: seq<T>, tail: seq<T>, at: nat, t: seq<T>)
    requires at + |t| <= |s|
    ensures Splice(s + tail, at, t) == Splice(s, at, t) + tail
  {
  }

  lemma SpliceEnd<T>(s: seq<T>, tail: seq<T>, t: seq<T>)
    requires |t| == |tail|
    ensures Splice(s + tail, |s|, t) == s + t
  {
  }

  // ---- cursors ----

  /** The fields of an open handle that the loops move. */
  datatype Cursor = Cursor(first: nat, cur: nat, off: nat, size: nat, pos: nat)

  /** The cursor stands in block `k` of the file, or exactly at the end of the last block. */
  ghost predicate CursorAt(ch: seq<nat>, n: nat, h: Cursor, k: nat)
  {
    && k <= |ch| && h.off < n && h.pos == k * n + h.off
    && (k < |ch| ==> h.cur == ch[k])
    && (k == |ch| ==> h.off == 0 && h.cur >= FAT32_EOC)
  }

  /** Away from a cluster boundary the shared buffer still holds the current cluster. */
  ghost predicate Coherent(v: Vol, h: Cursor)
  {
    h.off != 0 ==> InRange(v.fat, h.cur) && h.cur < |v.data| && v.buf == v.data[h.cur]
  }

  function Min(a: nat, b: nat): nat { if a < b then a else b }

  function Max(a: nat, b: nat): nat { if a < b then b else a }

  /** The cursor moved on by `m` bytes inside its cluster, and to the next cluster when that is used up. */
  function Moved(fat: seq<nat>, n: nat, h: Cursor, m: nat): (r: Cursor)
    requires h.off + m <= n && 0 < n
    ensures r.off < n
  {
    var h1 := h.(pos := h.pos + m, off := h.off + m);
    if h1.off >= n then h1.(cur := Link(fat, h.cur), off := 0) else h1
  }

  lemma MovedStaysOnChain(fat: seq<nat>, ch: seq<nat>, n: nat, h: Cursor, k: nat, m: nat)
    requires IsChain(fat, ch) && CursorAt(ch, n, h, k) && k < |ch| && h.off + m <= n
    ensures InRange(fat, h.cur)
    ensures CursorAt(ch, n, Moved(fat, n, h, m), if h.off + m == n then k + 1 else k)
  {
    Blocks(k, |ch|, n);
    if h.off + m == n && k < |ch| - 1 { assert fat[ch[k]] == ch[k + 1]; }
  }

  // ---- seek ----

  /** The loop of `fs_seek`. */
  function SeekLoop(v: Vol, h: Cursor, target: nat): (r: Cursor)
    requires Shaped(v) && h.off < v.Bpc()
    ensures r.off < v.Bpc()
    decreases target - h.pos
  {
    if h.pos >= target || !(2 <= h.cur < FAT32_EOC) then h
    else SeekLoop(v, Moved(v.fat, v.Bpc(), h, Min(target - h.pos, v.Bpc() - h.off)), target)
  }

  /** Inside the chain's capacity the loop arrives at the target and stays on the chain. */
  lemma {:induction false} SeekArrives(v: Vol, ch: seq<nat>, h: Cursor, k: nat, target: nat) returns (k': nat)
    requires Shaped(v) && IsChain(v.fat, ch) && CursorAt(ch, v.Bpc(), h, k)
    requires h.pos <= target <= |ch| * v.Bpc()
    ensures var h' := SeekLoop(v, h, target);
            CursorAt(ch, v.Bpc(), h', k') && h'.pos == target && h'.first == h.first && h'.size == h.size
    decreases target - h.pos
  {
    k' := k;
    if h.pos < target {
      if k < |ch| {
        var m := Min(target - h.pos, v.Bpc() - h.off);
        MovedStaysOnChain(v.fat, ch, v.Bpc(), h, k, m);
        k' := SeekArrives(v, ch, Moved(v.fat, v.Bpc(), h, m), if h.off + m == v.Bpc() then k + 1 else k, target);
      }
    }
  }

  // ---- read ----

  /** The loop of `fs_read`: the volume (only its buffer changes), the cursor and the bytes delivered. */
  function ReadLoop(v: Vol, h: Cursor, n: nat): (r: (Vol, Cursor, seq<Byte>))
    requires Shaped(v) && h.off < v.Bpc()
    ensures Shaped(r.0) && r.0.Bpc() == v.Bpc() && r.1.off < v.Bpc()
    decreases n
  {
    if n == 0 || !InRange(v.fat, h.cur) then (v, h, [])
    else
      var v1 := if h.off == 0 then v.Loaded(h.cur) else v;
      var m := Min(n, v.Bpc() - h.off);
      var (v2, h2, out) := ReadLoop(v1, Moved(v.fat, v.Bpc(), h, m), n - m);
      (v2, h2, Window(v1.buf, h.off, m) + out)
  }

  /** What a reader at cursor `h` gets to see: the file, except that in the middle of a cluster the shared
      buffer stands in for that cluster. */
  ghost function Seen(v: Vol, ch: seq<nat>, h: Cursor, k: nat): (s: seq<Byte>)
    requires Uniform(v.data, ch, v.Bpc()) && k <= |ch|
    requires h.off != 0 ==> k < |ch|
    ensures |s| == |ch| * v.Bpc()
  {
    FlatLength(v.data, ch, v.Bpc());
    if h.off == 0 then Flat(v.data, ch)
    else Blocks(k, |ch|, v.Bpc()); Splice(Flat(v.data, ch), k * v.Bpc(), v.buf)
  }

  lemma SeenWhenCoherent(v: Vol, ch: seq<nat>, h: Cursor, k: nat)
    requires Uniform(v.data, ch, v.Bpc()) && CursorAt(ch, v.Bpc(), h, k) && Coherent(v, h)
    ensures Seen(v, ch, h, k) == Flat(v.data, ch)
  {
    if h.off != 0 {
      FlatBlock(v.data, ch, v.Bpc(), k);
      var f, n := Flat(v.data, ch), v.Bpc();
      hide Flat, CursorAt, Uniform;
      SpliceBack(f, k * n, n);
    }
  }

  /** Splicing a stretch into its own place changes nothing. */
  lemma SpliceBack<T>(s: seq<T>, at: nat, n: nat)
    requires at + n <= |s|
    ensures Splice(s, at, Window(s, at, n)) == s
  {
  }

  lemma ChainUniform(v: Vol, ch: seq<nat>)
    requires Shaped(v) && IsChain(v.fat, ch)
    ensures Uniform(v.data, ch, v.Bpc())
  {
  }

  lemma ChunkIsSeen(v: Vol, ch: seq<nat>, h: Cursor, k: nat, m: nat)
    requires Shaped(v) && IsChain(v.fat, ch) && CursorAt(ch, v.Bpc(), h, k) && k < |ch|
    requires h.off + m <= v.Bpc() && h.pos + m <= |ch| * v.Bpc() && Uniform(v.data, ch, v.Bpc())
    ensures Window(if h.off == 0 then v.data[h.cur] else v.buf, h.off, m) == Window(Seen(v, ch, h, k), h.pos, m)
  {
    hide Flat, Splice, Window, Shaped, IsChain;
    var n, f := v.Bpc(), Flat(v.data, ch);
    FlatBlock(v.data, ch, n, k);
    if h.off == 0 {
      WindowOfWindow(f, k * n, n, 0, m);
    } else {
      BufferLength(v);
      WindowOfSplice(f, k * n, v.buf, h.pos, m);
    }
  }

  lemma BufferLength(v: Vol)
    requires Shaped(v)
    ensures |v.buf| == v.Bpc() > 0
  {
  }

  /** The chunk from the current cluster and the stretch of file behind it are one stretch of what is seen. */
  lemma ReadJoin(v: Vol, ch: seq<nat>, h: Cursor, k: nat, m: nat, n: nat)
    requires Shaped(v) && IsChain(v.fat, ch) && CursorAt(ch, v.Bpc(), h, k) && k < |ch|
    requires Uniform(v.data, ch, v.Bpc()) && m <= n && h.pos + n <= |ch| * v.Bpc() && h.off + m <= v.Bpc()
    requires m < n ==> h.off + m == v.Bpc()
    ensures |Flat(v.data, ch)| == |ch| * v.Bpc()
    ensures Window(if h.off == 0 then v.data[h.cur] else v.buf, h.off, m) + Window(Flat(v.data, ch), h.pos + m, n - m)
         == Window(Seen(v, ch, h, k), h.pos, n)
  {
    ChunkIsSeen(v, ch, h, k, m);
    FlatLength(v.data, ch, v.Bpc());
    var f, seen := Flat(v.data, ch), Seen(v, ch, h, k);
    assert Window(f, h.pos + m, n - m) == Window(seen, h.pos + m, n - m);
    assert Window(seen, h.pos, n) == Window(seen, h.pos, m) + Window(seen, h.pos + m, n - m);
  }

  /** One turn of the read loop. */
  lemma ReadTurn(v: Vol, h: Cursor, n: nat, m: nat)
    requires Shaped(v) && h.off < v.Bpc() && 0 < n && InRange(v.fat, h.cur) && m == Min(n, v.Bpc() - h.off)
    ensures var chunk := if h.off == 0 then v.data[h.cur] else v.buf;
            && |chunk| == v.Bpc() && Shaped(v.(buf := chunk))
            && var (v2, h2, out) := ReadLoop(v.(buf := chunk), Moved(v.fat, v.Bpc(), h, m), n - m);
               ReadLoop(v, h, n) == (v2, h2, Window(chunk, h.off, m) + out)
  {
    assert v == v.(buf := v.buf);
  }

  /** Reading delivers exactly the asked-for stretch of what is seen at the cursor, and leaves the cursor
      on the chain behind it and the buffer coherent. */
  lemma {:induction false} ReadDelivers(v: Vol, ch: seq<nat>, h: Cursor, k: nat, n: nat) returns (k': nat)
    requires Shaped(v) && IsChain(v.fat, ch) && CursorAt(ch, v.Bpc(), h, k)
    requires h.pos + n <= |ch| * v.Bpc()
    ensures Uniform(v.data, ch, v.Bpc())
    ensures var (v', h', out) := ReadLoop(v, h, n);
            && v' == v.(buf := v'.buf)
            && out == Window(Seen(v, ch, h, k), h.pos, n)
            && CursorAt(ch, v.Bpc(), h', k') && h' == h.(cur := h'.cur, off := h'.off, pos := h.pos + n)
            && (Coherent(v, h) ==> Coherent(v', h'))
    decreases n
  {
    hide Flat, Splice, Window;
    ChainUniform(v, ch);
    k' := k;
    if n > 0 && k < |ch| {
      var bpc := v.Bpc();
      var v1 := v.(buf := if h.off == 0 then v.data[h.cur] else v.buf);
      var m := Min(n, bpc - h.off);
      var h1 := Moved(v.fat, bpc, h, m);
      var k1 := if h.off + m == bpc then k + 1 else k;
      MovedStaysOnChain(v.fat, ch, bpc, h, k, m);
      ReadTurn(v, h, n, m);
      k' := ReadDelivers(v1, ch, h1, k1, n - m);
      ReadJoin(v, ch, h, k, m, n);
      assert Window(Seen(v1, ch, h1, k1), h1.pos, n - m) == Window(Flat(v.data, ch), h1.pos, n - m);
    }
  }

  /** A read in the middle of a cluster is right exactly when the buffer agrees with the cluster on the
      bytes taken from it; a read from a cluster boundary is always right. */
  lemma ReadIsRightIff(v: Vol, ch: seq<nat>, h: Cursor, k: nat, n: nat)
    requires Shaped(v) && IsChain(v.fat, ch) && CursorAt(ch, v.Bpc(), h, k)
    requires h.pos + n <= |ch| * v.Bpc()
    ensures Uniform(v.data, ch, v.Bpc()) && |Flat(v.data, ch)| == |ch| * v.Bpc()
    ensures ReadLoop(v, h, n).2 == Window(Flat(v.data, ch), h.pos, n)
       <==> h.off == 0 ||
            (var m := Min(n, v.Bpc() - h.off); Window(v.buf, h.off, m) == Window(v.data[ch[k]], h.off, m))
  {
    hide ReadLoop, Flat, IsChain;
    var k' := ReadDelivers(v, ch, h, k, n);
    FlatLength(v.data, ch, v.Bpc());
    if h.off != 0 {
      FlatBlock(v.data, ch, v.Bpc(), k);
      SplicedRight(Flat(v.data, ch), k * v.Bpc(), v.buf, h.off, n);
    }
  }

  /** Reading `n` elements from inside a spliced block is reading the original exactly when the block's
      part of them is unchanged. */
  lemma SplicedRight(f: seq<Byte>, at: nat, t: seq<Byte>, off: nat, n: nat)
    requires at + |t| <= |f| && off < |t| && at + off + n <= |f|
    ensures Window(Splice(f, at, t), at + off, n) == Window(f, at + off, n) <==>
            (var m := Min(n, |t| - off); Window(t, off, m) == Window(Window(f, at, |t|), off, m))
  {
    var m := Min(n, |t| - off);
    WindowOfSplice(f, at, t, at + off, m);
    WindowOfSplice(f, at, t, at + off + m, n - m);
    WindowOfWindow(f, at, |t|, off, m);
    WindowSplit(Splice(f, at, t), at + off, m, n);
    WindowSplit(f, at + off, m, n);
    hide Splice, Window;
    SameFront(Window(t, off, m), Window(f, at + off, m), Window(f, at + off + m, n - m));
  }

  lemma SameFront<T>(a: seq<T>, b: seq<T>, rest: seq<T>)
    requires |a| == |b|
    ensures a + rest == b + rest <==> a == b
  {
    assert (a + rest)[..|a|] == a && (b + rest)[..|b|] == b;
  }

  lemma WindowOfWindow<T>(s: seq<T>, at: nat, n: nat, lo: nat, m: nat)
    requires at + n <= |s| && lo + m <= n
    ensures Window(Window(s, at, n), lo, m) == Window(s, at + lo, m)
  {
    forall p | 0 <= p < m
      ensures Window(Window(s, at, n), lo, m)[p] == Window(s, at + lo, m)[p]
    {
      assert Window(s, at, n)[lo + p] == s[at + (lo + p)];
    }
  }

  lemma WindowSplit<T>(s: seq<T>, at: nat, m: nat, n: nat)
    requires m <= n && at + n <= |s|
    ensures Window(s, at, n) == Window(s, at, m) + Window(s, at + m, n - m)
  {
  }

  // ---- whole calls ----

  /** `fs_read` on an open file: nothing at or behind the end, else at most the rest of the file. */
  function Read(v: Vol, h: Cursor, n: nat): (r: (Vol, Cursor, seq<Byte>))
    requires Shaped(v) && h.off < v.Bpc()
    ensures Shaped(r.0) && r.0.Bpc() == v.Bpc() && r.1.off < v.Bpc()
  {
    if h.pos >= h.size then (v, h, [])
    else ReadLoop(v, h, if (h.pos + n) % WORD > h.size then h.size - h.pos else n)
  }

  /** `fs_seek`: clamp, rewind and advance. */
  function Seek(v: Vol, h: Cursor, target: nat): (r: Cursor)
    requires Shaped(v)
    ensures r.off < v.Bpc()
  {
    SeekLoop(v, h.(cur := h.first, off := 0, pos := 0), Min(target, h.size))
  }

  /** The handle invariant: a cursor on the file's chain, not behind the file's end. */
  ghost predicate HandleOk(v: Vol, ch: seq<nat>, h: Cursor)
  {
    && IsChain(v.fat, ch) && ch[0] == h.first
    && h.pos <= h.size <= |ch| * v.Bpc()
    && exists k: nat :: CursorAt(ch, v.Bpc(), h, k)
  }

  /** The visible contents of the file: the first `size` bytes of its clusters. */
  function Contents(v: Vol, ch: seq<nat>, size: nat): seq<Byte>
  {
    Flat(v.data, ch)[..Min(size, |Flat(v.data, ch)|)]
  }

  lemma ContentsLength(v: Vol, ch: seq<nat>, size: nat)
    requires Uniform(v.data, ch, v.Bpc()) && size <= |ch| * v.Bpc()
    ensures |Contents(v, ch, size)| == size && Contents(v, ch, size) == Flat(v.data, ch)[..size]
  {
    FlatLength(v.data, ch, v.Bpc());
  }

  lemma ContentsSlice(v: Vol, ch: seq<nat>, size: nat, pos: nat, m: nat)
    requires Uniform(v.data, ch, v.Bpc()) && pos + m <= size <= |ch| * v.Bpc()
    ensures |Flat(v.data, ch)| == |ch| * v.Bpc() && |Contents(v, ch, size)| == size
    ensures Contents(v, ch, size)[pos..pos + m] == Window(Flat(v.data, ch), pos, m)
  {
    FlatLength(v.data, ch, v.Bpc());
  }

  lemma ReadIsClampedLoop(v: Vol, h: Cursor, n: nat)
    requires Shaped(v) && h.off < v.Bpc() && h.pos + n < WORD && h.pos <= h.size
    ensures Read(v, h, n) == if h.pos == h.size then (v, h, []) else ReadLoop(v, h, Min(n, h.size - h.pos))
  {
    hide ReadLoop, Shaped;
  }

  /** A read returns the next bytes of the file, `n` of them or as many as are left. */
  lemma ReadReturnsContents(v: Vol, ch: seq<nat>, h: Cursor, n: nat)
    requires Shaped(v) && HandleOk(v, ch, h) && Coherent(v, h) && h.pos + n < WORD
    ensures Uniform(v.data, ch, v.Bpc()) && h.off < v.Bpc() && |Contents(v, ch, h.size)| == h.size
    ensures var (v', h', out) := Read(v, h, n);
            var m := Min(n, h.size - h.pos);
            && out == Contents(v, ch, h.size)[h.pos..h.pos + m] && h'.pos == h.pos + m && h'.size == h.size
            && v' == v.(buf := v'.buf) && Shaped(v') && HandleOk(v', ch, h') && Coherent(v', h')
  {
    hide Read, ReadLoop, Flat, IsChain, Shaped, Seen, Coherent, Uniform, Contents, Window;
    ChainUniform(v, ch);
    var k: nat :| CursorAt(ch, v.Bpc(), h, k);
    CursorInCluster(ch, v.Bpc(), h, k);
    hide CursorAt;
    var m := Min(n, h.size - h.pos);
    ContentsSlice(v, ch, h.size, h.pos, m);
    ReadIsClampedLoop(v, h, n);
    if h.pos < h.size {
      var k' := ReadDelivers(v, ch, h, k, m);
      SeenWhenCoherent(v, ch, h, k);
    }
  }

  /** A seek lands on the clamped target. */
  lemma SeekKeepsHandle(v: Vol, ch: seq<nat>, h: Cursor, target: nat)
    requires Shaped(v) && HandleOk(v, ch, h)
    ensures HandleOk(v, ch, Seek(v, h, target))
    ensures Seek(v, h, target) ==
            h.(cur := Seek(v, h, target).cur, off := Seek(v, h, target).off, pos := Min(target, h.size))
  {
    var h0 := h.(cur := h.first, off := 0, pos := 0);
    assert CursorAt(ch, v.Bpc(), h0, 0);
    var k' := SeekArrives(v, ch, h0, 0, Min(target, h.size));
  }

  /** Seeking does not look at the buffer. */
  lemma {:induction false} SeekIgnoresBuffer(v: Vol, buf: seq<Byte>, h: Cursor, target: nat)
    requires Shaped(v) && Shaped(v.(buf := buf)) && |buf| == |v.buf| && h.off < v.Bpc()
    ensures SeekLoop(v.(buf := buf), h, target) == SeekLoop(v, h, target)
    decreases target - h.pos
  {
    if h.pos < target && 2 <= h.cur < FAT32_EOC {
      SeekIgnoresBuffer(v, buf, Moved(v.fat, v.Bpc(), h, Min(target - h.pos, v.Bpc() - h.off)), target);
    }
  }

  lemma SeekSameBuffer(v: Vol, buf: seq<Byte>, h: Cursor, target: nat)
    requires Shaped(v) && |buf| == |v.buf|
    ensures Shaped(v.(buf := buf)) && Seek(v.(buf := buf), h, target) == Seek(v, h, target)
  {
    SeekIgnoresBuffer(v, buf, h.(cur := h.first, off := 0, pos := 0), Min(target, h.size));
  }

  lemma CursorInCluster(ch: seq<nat>, n: nat, h: Cursor, k: nat)
    requires CursorAt(ch, n, h, k)
    ensures h.off < n
  {
  }

  // ---- reading in chunks ----

  function Sum(ns: seq<nat>): nat { if ns == [] then 0 else ns[0] + Sum(ns[1..]) }

  /** The bytes that successive reads of the given sizes deliver, joined. */
  function ReadAll(v: Vol, h: Cursor, ns: seq<nat>): (r: (Vol, Cursor, seq<Byte>))
    requires Shaped(v) && h.off < v.Bpc()
    decreases |ns|
  {
    if ns == [] then (v, h, [])
    else
      var r := Read(v, h, ns[0]);
      var rest := ReadAll(r.0, r.1, ns[1..]);
      (rest.0, rest.1, r.2 + rest.2)
  }

  /** Reading in chunks of any sizes joins up to one read of their total. */
  lemma {:induction false} ChunksJoin(v: Vol, ch: seq<nat>, h: Cursor, ns: seq<nat>)
    requires Shaped(v) && HandleOk(v, ch, h) && Coherent(v, h)
    requires h.size + Sum(ns) < WORD
    ensures Uniform(v.data, ch, v.Bpc()) && h.off < v.Bpc() && |Contents(v, ch, h.size)| == h.size
    ensures ReadAll(v, h, ns).2 == Read(v, h, Sum(ns)).2
    ensures ReadAll(v, h, ns).2 == Contents(v, ch, h.size)[h.pos..h.pos + Min(Sum(ns), h.size - h.pos)]
    decreases |ns|
  {
    hide Read, CursorAt, IsChain, Coherent, Shaped, Flat;
    ReadReturnsContents(v, ch, h, Sum(ns));
    if ns != [] {
      ReadReturnsContents(v, ch, h, ns[0]);
      var (v1, h1, out) := Read(v, h, ns[0]);
      ChunksJoin(v1, ch, h1, ns[1..]);
      assert Contents(v1, ch, h.size) == Contents(v, ch, h.size);
    }
  }
}
