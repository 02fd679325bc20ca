/**
 Use of files that never meets a stale buffer: every read and write starts at a cluster boundary, or in the cluster that
 the reads before it have left in the buffer. Such sessions and runs are those of the plain map of files, in which a
 read delivers the bytes of the file and a write lays its own over them; no buffer appears in it.
 */
module Steady {
  import opened Bytes
  import opened Chains
  import opened Allocator
  import opened Names
  import opened Directory
  import opened VolumeState
  import opened FileContent
  import opened FileWrite
  import opened VolumeOps
  import opened AbstractFs
  import opened Refinement
  import opened Writes
  import opened OpenHandles
  import opened Sessions
  import opened Interleaving
  import opened Runs

  // ---- what the buffer holds ----

  /** The buffer holds the cluster that the last of `n` bytes from `pos` on is in. */
  ghost predicate LastLoaded(v: Vol, ch: seq<nat>, pos: nat, n: nat, buf: seq<Byte>)
  {
    && v.Bpc() > 0 && 0 < n
    && var last := (pos + n - 1) / v.Bpc(); last < |ch| && ch[last] < |v.data| && buf == v.data[ch[last]]
  }

  /** After a read it does. */
  lemma {:induction false} ReadLoads(v: Vol, ch: seq<nat>, h: Cursor, k: nat, n: nat)
    requires Shaped(v) && IsChain(v.fat, ch) && CursorAt(ch, v.Bpc(), h, k) && Coherent(v, h)
    requires 0 < n && h.pos + n <= |ch| * v.Bpc()
    ensures LastLoaded(v, ch, h.pos, n, ReadLoop(v, h, n).0.buf)
    decreases n
  {
    hide ReadLoop, IsChain;
    var bpc := v.Bpc();
    ChainUniform(v, ch);
    CursorNotAtEnd(ch, bpc, h, k, n);
    MovedStaysOnChain(v.fat, ch, bpc, h, k, Min(n, bpc - h.off));
    ReadTurn(v, h, n, Min(n, bpc - h.off));
    var v1 := v.(buf := if h.off == 0 then v.data[h.cur] else v.buf);
    var h1 := Moved(v.fat, bpc, h, Min(n, bpc - h.off));
    if bpc - h.off < n {
      hide Shaped;
      ReadLoads(v1, ch, h1, k + 1, n - (bpc - h.off));
    } else {
      NothingMore(v1, h1);
      LastBlock(k, bpc, h.off, n, h.pos);
    }
  }

  lemma LastBlock(k: nat, bpc: nat, off: nat, n: nat, pos: nat)
    requires 0 < n && off + n <= bpc && pos == k * bpc + off
    ensures (pos + n - 1) / bpc == k
  {
    DivUnique(k, bpc, off + n - 1);
  }

  lemma CursorNotAtEnd(ch: seq<nat>, bpc: nat, h: Cursor, k: nat, n: nat)
    requires CursorAt(ch, bpc, h, k) && 0 < n && h.pos + n <= |ch| * bpc
    ensures k < |ch|
  {
  }

  lemma NothingMore(v: Vol, h: Cursor)
    requires Shaped(v) && h.off < v.Bpc()
    ensures ReadLoop(v, h, 0) == (v, h, [])
  {
  }

  /** The buffer holds cluster `held` of file `i`, if one is named. */
  ghost predicate BufferHolds(v: Vol, i: nat, held: Option<nat>)
  {
    held.Some? ==>
      && i < |ChainsIn(v)| && held.value < |ChainsIn(v)[i]| && ChainsIn(v)[i][held.value] < |v.data|
      && v.buf == v.data[ChainsIn(v)[i][held.value]]
  }

  /** A move that does not look at a stale buffer. */
  predicate SteadyMove(pos: nat, bpc: nat, held: Option<nat>, m: Move)
    requires bpc > 0
  {
    m.SeekMove? || pos % bpc == 0 || held == Some(pos / bpc)
  }

  /** Which cluster of the file the buffer holds after a move that read or wrote `count` bytes. */
  function HeldAfter(pos: nat, bpc: nat, held: Option<nat>, m: Move, count: nat): Option<nat>
    requires bpc > 0
  {
    match m
    case ReadMove(_) => if count > 0 then Some((pos + count - 1) / bpc) else held
    case SeekMove(_) => held
    case WriteMove(_) => None
  }

  /** Then the handle sees the file as it is. */
  lemma SteadyIsFresh(v: Vol, i: nat, h: Cursor, name: Name, held: Option<nat>)
    requires Handled(v, i, h, name) && BufferHolds(v, i, held) && v.Bpc() > 0
    requires SteadyMove(h.pos, v.Bpc(), held, ReadMove(0))
    ensures Shaped(v) && Coherent(v, h) && name in Files(v) && h.pos <= |Files(v)[name].bytes| && |v.buf| == v.Bpc()
    ensures Stale(Files(v)[name].bytes, h.pos, v.Bpc(), v.buf) == Files(v)[name].bytes
  {
    var k := SteadyCoherent(v, i, h, name, held);
    hide Inv, Handled, Entries, Vol.RootEntries, ChainsIn, Stale, Files, Seen, Uniform, Shaped, FileOf, Flat, Coherent;
    hide CursorAt, BufferHolds;
    HandledFile(v, i, h, name);
    SeenFile(v, i, h, name, k);
    SeenWhenCoherent(v, ChainsIn(v)[i], h, k);
    HandledBytes(v, i, h, name);
  }

  lemma SteadyCoherent(v: Vol, i: nat, h: Cursor, name: Name, held: Option<nat>) returns (k: nat)
    requires Handled(v, i, h, name) && BufferHolds(v, i, held) && v.Bpc() > 0
    requires h.pos % v.Bpc() == 0 || held == Some(h.pos / v.Bpc())
    ensures Coherent(v, h) && i < |ChainsIn(v)| && CursorAt(ChainsIn(v)[i], v.Bpc(), h, k)
  {
    k := HandledPlaced(v, i, h, name);
    hide Inv, Handled, Entries, Vol.RootEntries, ChainsIn, Placed, Shaped, CursorAt;
    CursorBlock(ChainsIn(v)[i], v.Bpc(), h, k);
    if h.off != 0 { HandleCluster(v, i, h, name); }
  }

  lemma CursorBlock(ch: seq<nat>, bpc: nat, h: Cursor, k: nat)
    requires CursorAt(ch, bpc, h, k)
    ensures h.pos % bpc == h.off && h.pos / bpc == k && (h.off != 0 ==> k < |ch| && h.cur == ch[k])
  {
    PosInBlock(h.pos, bpc, k, h.off);
    DivUnique(k, bpc, h.off);
  }

  lemma HandledBytes(v: Vol, i: nat, h: Cursor, name: Name)
    requires Handled(v, i, h, name)
    ensures name in Files(v) && h.size <= |Flat(v.data, ChainsIn(v)[i])|
    ensures Files(v)[name].bytes == Flat(v.data, ChainsIn(v)[i])[..h.size]
  {
    hide Entries, Catalog, DirOk, Uniform, Entry.IsLive, OnlyDots, Flat;
    HandledFile(v, i, h, name);
    LiveChain(v, i);
    FlatLength(v.data, ChainsIn(v)[i], v.Bpc());
  }

  // ---- moves on the plain map of files ----

  function PlainMove(a: AbsFs, n: Name, pos: nat, m: Move): (r: (AbsFs, nat, Reply))
    requires n in a.files && pos <= |a.files[n].bytes| && a.bpc > 0
    ensures r.0.bpc == a.bpc && n in r.0.files && r.1 <= |r.0.files[n].bytes|
  {
    var f := a.files[n].bytes;
    match m
    case ReadMove(k) => var got := Ahead(f, pos, k); (a, pos + |got|, Reply(got, |got|))
    case SeekMove(t) => (a, Min(t, |f|), NO_REPLY)
    case WriteMove(b) => var (a1, w) := AbsWrite(a, n, pos, b); (a1, pos + w, Reply([], w))
  }

  lemma FreshMoveIsPlain(a: AbsFs, n: Name, pos: nat, m: Move, buf: seq<Byte>)
    requires n in a.files && pos <= |a.files[n].bytes| && |buf| == a.bpc > 0
    requires m.SeekMove? || Stale(a.files[n].bytes, pos, a.bpc, buf) == a.files[n].bytes
    ensures AbsMove(a, n, pos, m, buf) == PlainMove(a, n, pos, m)
  {
    hide AbsWrite;
    if !m.SeekMove? {
      assert a.files[n := a.files[n]] == a.files;
      assert Seeing(a, n, pos, buf) == a;
    }
  }

  ghost predicate SteadyDone(v: Vol, i: nat, h: Cursor, name: Name, held: Option<nat>, m: Move,
                             v': Vol, h': Cursor, r: Reply)
  {
    && name in Files(v) && h.pos <= |Files(v)[name].bytes| && v.Bpc() > 0
    && Handled(v', i, h', name) && BufferHolds(v', i, HeldAfter(h.pos, v.Bpc(), held, m, r.count))
    && (Abs(v'), h'.pos, r) == PlainMove(Abs(v), name, h.pos, m)
    && Gap(v'.PoolOf()) == Gap(v.PoolOf()) && |v'.fat| == |v.fat| && v'.Bpc() == v.Bpc()
  }

  /** A steady move through an open handle is the move on the plain map of files. */
  lemma SteadyMoveRefines(v: Vol, i: nat, h: Cursor, name: Name, held: Option<nat>, m: Move)
    requires Handled(v, i, h, name) && MoveFits(m, Capacity(v)) && BufferHolds(v, i, held) && v.Bpc() > 0
    requires SteadyMove(h.pos, v.Bpc(), held, m)
    ensures Shaped(v) && h.off < v.Bpc()
    ensures var (v', h', r) := MakeMove(v, h, name, m); SteadyDone(v, i, h, name, held, m, v', h', r)
  {
    hide Inv, Handled, MakeMove, AbsMove, PlainMove, Abs, Files, Gap, Shaped, BufferHolds, HeldAfter, Stale;
    hide Vol.RootEntries;
    HandledEntryIs(v, i, h, name);
    MoveRefines(v, i, h, name, m);
    AbsFields(v);
    if !m.SeekMove? { SteadyIsFresh(v, i, h, name, held); }
    FreshMoveIsPlain(Abs(v), name, h.pos, m, v.buf);
    HeldIsRight(v, i, h, name, held, m);
  }

  lemma HeldIsRight(v: Vol, i: nat, h: Cursor, name: Name, held: Option<nat>, m: Move)
    requires Handled(v, i, h, name) && MoveFits(m, Capacity(v)) && BufferHolds(v, i, held) && v.Bpc() > 0
    requires SteadyMove(h.pos, v.Bpc(), held, m) && Shaped(v) && h.off < v.Bpc()
    ensures var (v', h', r) := MakeMove(v, h, name, m);
            BufferHolds(v', i, HeldAfter(h.pos, v.Bpc(), held, m, r.count))
  {
    hide Inv, Handled, Read, WriteFile, Seek, Shaped, Vol.RootEntries, ChainsIn;
    match m
    case ReadMove(n) => ReadHolds(v, i, h, name, held, n);
    case SeekMove(t) =>
    case WriteMove(b) =>
  }

  ghost predicate ReadHeld(v: Vol, i: nat, h: Cursor, held: Option<nat>, n: nat, v': Vol, count: nat)
  {
    v.Bpc() > 0 && BufferHolds(v', i, HeldAfter(h.pos, v.Bpc(), held, ReadMove(n), count))
  }

  lemma ReadHolds(v: Vol, i: nat, h: Cursor, name: Name, held: Option<nat>, n: nat)
    requires Handled(v, i, h, name) && MoveFits(ReadMove(n), Capacity(v)) && BufferHolds(v, i, held) && v.Bpc() > 0
    requires SteadyMove(h.pos, v.Bpc(), held, ReadMove(n)) && Shaped(v) && h.off < v.Bpc()
    ensures ReadHeld(v, i, h, held, n, Read(v, h, n).0, |Read(v, h, n).2|)
  {
    hide Inv, Handled, Read, ReadLoop, Shaped, Vol.RootEntries, ChainsIn, Coherent, CursorAt, Stale, Files, IsChain;
    hide BufferHolds, LastLoaded;
    var k := SteadyCoherent(v, i, h, name, held);
    HandleBelow(v, i, h, name);
    HandleChain(v, i, h, name);
    ReadIsClampedLoop(v, h, n);
    var m := Min(n, h.size - h.pos);
    if 0 < m {
      RoomInChain(v, i, h, name, m);
      ReadLoads(v, ChainsIn(v)[i], h, k, m);
      ReadLength(v, i, h, name, n);
      var v' := Read(v, h, n).0;
      SameChains(v, v'.buf, i, h, name);
      LoadedHolds(v, v', i, h.pos, m);
    } else if h.pos < h.size {
      NothingMore(v, h);
    }
  }

  lemma LoadedHolds(v: Vol, v': Vol, i: nat, pos: nat, m: nat)
    requires i < |ChainsIn(v)| && ChainsIn(v') == ChainsIn(v) && v' == v.(buf := v'.buf)
    requires LastLoaded(v, ChainsIn(v)[i], pos, m, v'.buf)
    ensures BufferHolds(v', i, Some((pos + m - 1) / v.Bpc()))
  {
    hide ChainsIn;
  }

  lemma RoomInChain(v: Vol, i: nat, h: Cursor, name: Name, m: nat)
    requires Handled(v, i, h, name) && h.pos + m <= h.size
    ensures h.pos + m <= |ChainsIn(v)[i]| * v.Bpc()
  {
    hide Inv, Handled, ChainsIn;
    HandleBelow(v, i, h, name);
  }

  lemma ReadLength(v: Vol, i: nat, h: Cursor, name: Name, n: nat)
    requires Handled(v, i, h, name) && MoveFits(ReadMove(n), Capacity(v)) && h.pos <= h.size
    ensures Shaped(v) && h.off < v.Bpc()
    ensures var (v', h', out) := Read(v, h, n);
            |out| == Min(n, h.size - h.pos) && v' == v.(buf := v'.buf) && |v'.buf| == |v.buf|
  {
    hide Inv, Handled, Read, Shaped, Stale, Files, Abs;
    HandleBelow(v, i, h, name);
    ReadRefines(v, i, h, name, n);
    HandledFile(v, i, h, name);
  }

  lemma SameChains(v: Vol, buf: seq<Byte>, i: nat, h: Cursor, name: Name)
    requires Handled(v, i, h, name) && |buf| == |v.buf|
    ensures ChainsIn(v.(buf := buf)) == ChainsIn(v) && i < |ChainsIn(v)|
  {
    hide Entries, ChainsOf, Heads, Partition;
    BufferUnseen(v, buf);
  }

  // ---- any sequence of steady moves ----

  /** Every move is steady when its turn comes. */
  predicate Steady(a: AbsFs, n: Name, pos: nat, held: Option<nat>, ms: seq<Move>)
    requires n in a.files && pos <= |a.files[n].bytes| && a.bpc > 0
    decreases |ms|
  {
    ms == [] ||
      (SteadyMove(pos, a.bpc, held, ms[0]) &&
       var (a1, p, r) := PlainMove(a, n, pos, ms[0]);
       Steady(a1, n, p, HeldAfter(pos, a.bpc, held, ms[0], r.count), ms[1..]))
  }

  function PlainMoves(a: AbsFs, n: Name, pos: nat, ms: seq<Move>): (r: (AbsFs, nat, seq<Reply>))
    requires n in a.files && pos <= |a.files[n].bytes| && a.bpc > 0
    ensures r.0.bpc == a.bpc
    decreases |ms|
  {
    if ms == [] then (a, pos, [])
    else
      var (a1, p, r) := PlainMove(a, n, pos, ms[0]);
      var (a2, q, rs) := PlainMoves(a1, n, p, ms[1..]);
      (a2, q, [r] + rs)
  }

  ghost predicate AllSteady(v: Vol, i: nat, h: Cursor, name: Name, held: Option<nat>, ms: seq<Move>)
  {
    && Handled(v, i, h, name) && MovesFit(ms, Capacity(v)) && BufferHolds(v, i, held) && v.Bpc() > 0
    && name in Files(v) && h.pos <= |Files(v)[name].bytes|
    && Steady(Abs(v), name, h.pos, held, ms)
  }

  ghost predicate PlainDone(v: Vol, h: Cursor, name: Name, ms: seq<Move>, v': Vol, h': Cursor, rs: seq<Reply>)
  {
    && name in Files(v) && h.pos <= |Files(v)[name].bytes| && v.Bpc() > 0
    && (Abs(v'), h'.pos, rs) == PlainMoves(Abs(v), name, h.pos, ms)
  }

  /** Any sequence of steady moves through an open handle is the sequence on the plain map of files. */
  lemma {:induction false} SteadyMovesRefine(v: Vol, i: nat, h: Cursor, name: Name, held: Option<nat>, ms: seq<Move>)
    requires AllSteady(v, i, h, name, held, ms)
    ensures Shaped(v) && h.off < v.Bpc()
    ensures var (v', h', rs) := Moves(v, h, name, ms); PlainDone(v, h, name, ms, v', h', rs)
    decreases |ms|
  {
    hide Inv, Handled, MakeMove, PlainMove, Abs, Files, Gap, Shaped, BufferHolds, HeldAfter, SteadyMove, MoveFits;
    hide Vol.RootEntries;
    HandledEntryIs(v, i, h, name);
    AbsFields(v);
    if ms != [] {
      SteadyMoveRefines(v, i, h, name, held, ms[0]);
      var (v1, h1, r) := MakeMove(v, h, name, ms[0]);
      AbsFields(v1);
      SteadyMovesRefine(v1, i, h1, name, HeldAfter(h.pos, v.Bpc(), held, ms[0], r.count), ms[1..]);
    }
  }

  // ---- several handles in turn ----

  /** The buffer holds cluster `block` of the file of handle `j`. */
  datatype Kept = Kept(j: nat, block: nat)

  /** What that means for handle `j`. */
  function HeldFor(kept: Option<Kept>, j: nat): Option<nat>
  {
    if kept.Some? && kept.value.j == j then Some(kept.value.block) else None
  }

  function KeptAfter(pos: nat, bpc: nat, kept: Option<Kept>, t: Turn, count: nat): Option<Kept>
    requires bpc > 0
  {
    match t.move
    case ReadMove(_) => if count > 0 then Some(Kept(t.j, (pos + count - 1) / bpc)) else kept
    case SeekMove(_) => kept
    case WriteMove(_) => None
  }

  ghost predicate KeptRight(v: Vol, hs: seq<Slot>, kept: Option<Kept>)
  {
    kept.Some? ==> kept.value.j < |hs| && BufferHolds(v, hs[kept.value.j].i, Some(kept.value.block))
  }

  predicate SteadyTurns(a: AbsFs, ps: seq<Place>, kept: Option<Kept>, ts: seq<Turn>)
    requires PlacesIn(a, ps) && a.bpc > 0
    decreases |ts|
  {
    ts == [] ||
      (ts[0].j < |ps| && var p := ps[ts[0].j];
       && SteadyMove(p.pos, a.bpc, HeldFor(kept, ts[0].j), ts[0].move)
       && var (a1, pos1, r) := PlainMove(a, p.name, p.pos, ts[0].move);
          PlainFrame(a, p.name, p.pos, ts[0].move);
          SteadyTurns(a1, ps[ts[0].j := p.(pos := pos1)], KeptAfter(p.pos, a.bpc, kept, ts[0], r.count), ts[1..]))
  }

  lemma PlainFrame(a: AbsFs, n: Name, pos: nat, m: Move)
    requires n in a.files && pos <= |a.files[n].bytes| && a.bpc > 0
    ensures forall o :: o in a.files && o != n ==>
              o in PlainMove(a, n, pos, m).0.files && PlainMove(a, n, pos, m).0.files[o] == a.files[o]
  {
    hide Accepted, Clusters, Overlay;
  }

  function PlainTurns(a: AbsFs, ps: seq<Place>, ts: seq<Turn>): (r: (AbsFs, seq<Place>, seq<Reply>))
    requires PlacesIn(a, ps) && a.bpc > 0 && forall j :: 0 <= j < |ts| ==> ts[j].j < |ps|
    decreases |ts|
  {
    if ts == [] then (a, ps, [])
    else
      var p := ps[ts[0].j];
      var (a1, pos1, r) := PlainMove(a, p.name, p.pos, ts[0].move);
      PlainFrame(a, p.name, p.pos, ts[0].move);
      var (a2, ps2, rs) := PlainTurns(a1, ps[ts[0].j := p.(pos := pos1)], ts[1..]);
      (a2, ps2, [r] + rs)
  }

  /** A move that delivers nothing leaves the buffer alone. */
  lemma NothingReadSame(v: Vol, i: nat, h: Cursor, name: Name, n: nat)
    requires Handled(v, i, h, name) && MoveFits(ReadMove(n), Capacity(v)) && Shaped(v) && h.off < v.Bpc()
    ensures Read(v, h, n).2 == [] ==> Read(v, h, n).0 == v
  {
    hide Inv, Handled, Read, ReadLoop, Shaped, Vol.RootEntries, ChainsIn;
    HandleBelow(v, i, h, name);
    ReadLength(v, i, h, name, n);
    ReadIsClampedLoop(v, h, n);
    if Read(v, h, n).2 == [] && h.pos < h.size { NothingMore(v, h); }
  }

  lemma KeptStaysRight(v: Vol, hs: seq<Slot>, kept: Option<Kept>, t: Turn, v1: Vol, h1: Cursor, count: nat)
    requires KeptRight(v, hs, kept) && t.j < |hs| && v.Bpc() > 0
    requires BufferHolds(v1, hs[t.j].i, HeldAfter(hs[t.j].at.pos, v.Bpc(), HeldFor(kept, t.j), t.move, count))
    requires t.move.SeekMove? || (t.move.ReadMove? && count == 0) ==> v1 == v
    ensures KeptRight(v1, hs[t.j := hs[t.j].(at := h1)], KeptAfter(hs[t.j].at.pos, v.Bpc(), kept, t, count))
  {
    hide BufferHolds;
  }

  ghost predicate TurnsSteady(v: Vol, hs: seq<Slot>, kept: Option<Kept>, ts: seq<Turn>)
  {
    && AllOpen(v, hs) && TurnsFit(hs, ts, Capacity(v)) && KeptRight(v, hs, kept) && v.Bpc() > 0
    && Abs(v).bpc == v.Bpc() && PlacesIn(Abs(v), Places(hs)) && SteadyTurns(Abs(v), Places(hs), kept, ts)
  }

  ghost predicate TurnsPlain(v: Vol, hs: seq<Slot>, ts: seq<Turn>, v': Vol, hs': seq<Slot>, rs: seq<Reply>)
  {
    && v.Bpc() > 0 && Abs(v).bpc == v.Bpc() && PlacesIn(Abs(v), Places(hs))
    && (forall j :: 0 <= j < |ts| ==> ts[j].j < |hs|)
    && (Abs(v'), Places(hs'), rs) == PlainTurns(Abs(v), Places(hs), ts)
  }

  /** Steady turns through handles on different files are the turns on the plain map of files. */
  lemma {:induction false} SteadyTurnsRefine(v: Vol, hs: seq<Slot>, kept: Option<Kept>, ts: seq<Turn>)
    requires TurnsSteady(v, hs, kept, ts)
    ensures Shaped(v) && InOrder(v.Bpc(), hs, ts)
    ensures var (v', hs', rs) := Turns(v, hs, ts); TurnsPlain(v, hs, ts, v', hs', rs)
    decreases |ts|
  {
    hide Inv, OnFile, MakeMove, PlainMove, Abs, Gap, Shaped, Vol.RootEntries, MoveFits, TurnDone, KeptRight, AllOpen;
    hide SteadyMove, KeptAfter, PlacesIn;
    OpenPlaces(v, hs, ts);
    if ts != [] {
      var t, s := ts[0], hs[ts[0].j];
      SteadyTurn(v, hs, kept, t);
      var (v1, h1, r) := MakeMove(v, s.at, s.name, t.move);
      var hs1 := hs[t.j := s.(at := h1)];
      assert Places(hs1) == Places(hs)[t.j := Places(hs)[t.j].(pos := h1.pos)];
      OpenPlaces(v1, hs1, ts[1..]);
      SteadyTurnsRefine(v1, hs1, KeptAfter(s.at.pos, v.Bpc(), kept, t, r.count), ts[1..]);
    }
  }

  /** One of them. */
  lemma SteadyTurn(v: Vol, hs: seq<Slot>, kept: Option<Kept>, t: Turn)
    requires AllOpen(v, hs) && t.j < |hs| && MoveFits(t.move, Capacity(v)) && KeptRight(v, hs, kept) && v.Bpc() > 0
    requires SteadyMove(hs[t.j].at.pos, v.Bpc(), HeldFor(kept, t.j), t.move)
    ensures Shaped(v) && hs[t.j].at.off < v.Bpc()
    ensures var (v1, h1, r) := MakeMove(v, hs[t.j].at, hs[t.j].name, t.move);
            SteadyTurned(v, hs, kept, t, v1, h1, r)
  {
    hide Inv, Handled, MakeMove, PlainMove, Abs, Files, Gap, Shaped, Vol.RootEntries, BufferHolds, HeldAfter, AllOpen;
    hide MoveDone, KeptAfter, MoveFits;
    var s := hs[t.j];
    OneTurn(v, hs, t);
    AllOpenAt(v, hs, t.j);
    var (v1, h1, r) := MakeMove(v, s.at, s.name, t.move);
    HeldForRight(v, hs, kept, t.j);
    AbsFields(v);
    AbsFields(v1);
    SteadyMoveRefines(v, s.i, s.at, s.name, HeldFor(kept, t.j), t.move);
    SameBuffer(v, s.i, s.at, s.name, t.move);
    KeptStaysRight(v, hs, kept, t, v1, h1, r.count);
  }

  ghost predicate SteadyTurned(v: Vol, hs: seq<Slot>, kept: Option<Kept>, t: Turn, v1: Vol, h1: Cursor, r: Reply)
  {
    && t.j < |hs| && v.Bpc() > 0 && Abs(v).bpc == v.Bpc() && v1.Bpc() == v.Bpc() && Abs(v1).bpc == v.Bpc()
    && hs[t.j].name in Abs(v).files && hs[t.j].at.pos <= |Abs(v).files[hs[t.j].name].bytes|
    && AllOpen(v1, hs[t.j := hs[t.j].(at := h1)]) && Capacity(v1) == Capacity(v)
    && KeptRight(v1, hs[t.j := hs[t.j].(at := h1)], KeptAfter(hs[t.j].at.pos, v.Bpc(), kept, t, r.count))
    && (Abs(v1), h1.pos, r) == PlainMove(Abs(v), hs[t.j].name, hs[t.j].at.pos, t.move)
  }

  lemma HeldForRight(v: Vol, hs: seq<Slot>, kept: Option<Kept>, j: nat)
    requires KeptRight(v, hs, kept) && j < |hs|
    ensures BufferHolds(v, hs[j].i, HeldFor(kept, j))
  {
  }

  lemma AllOpenAt(v: Vol, hs: seq<Slot>, j: nat)
    requires AllOpen(v, hs) && j < |hs|
    ensures Handled(v, hs[j].i, hs[j].at, hs[j].name) && Shaped(v) && hs[j].at.off < v.Bpc()
  {
    hide Inv, Handled;
    assert OnFile(v, hs[j]);
    HandledEntryIs(v, hs[j].i, hs[j].at, hs[j].name);
  }

  lemma SameBuffer(v: Vol, i: nat, h: Cursor, name: Name, m: Move)
    requires Handled(v, i, h, name) && MoveFits(m, Capacity(v)) && Shaped(v) && h.off < v.Bpc()
    ensures var (v1, h1, r) := MakeMove(v, h, name, m); m.SeekMove? || (m.ReadMove? && r.count == 0) ==> v1 == v
  {
    hide Inv, Handled, Read, WriteFile, Seek, Shaped;
    if m.ReadMove? { NothingReadSame(v, i, h, name, m.n); }
  }

  // ---- sessions ----

  function PlainSession(a: AbsFs, n: Name, mode: seq<Byte>, ms: seq<Move>): (r: (AbsFs, bool, seq<Reply>))
    requires a.bpc > 0
    ensures r.0.bpc == a.bpc
  {
    var (a1, ok) := AbsOpen(a, n, mode);
    OpensInside(a, n, mode);
    if !ok then (a1, false, [])
    else if a1.files[n].IsDirectory() then (a1, true, Refused(|ms|))
    else var (a2, pos, rs) := PlainMoves(a1, n, OpenPos(a, n, mode), ms); (a2, true, rs)
  }

  /** Opening leaves the directory in the buffer, so nothing of the file is held at first. */
  predicate SteadySession(a: AbsFs, n: Name, mode: seq<Byte>, ms: seq<Move>)
    requires a.bpc > 0
  {
    var (a1, ok) := AbsOpen(a, n, mode);
    OpensInside(a, n, mode);
    ok && !a1.files[n].IsDirectory() ==> Steady(a1, n, OpenPos(a, n, mode), None, ms)
  }

  /** A steady session is the session on the plain map of files. */
  lemma SteadySessionRefines(v: Vol, path: seq<Byte>, mode: seq<Byte>, ms: seq<Move>)
    requires Inv(v) && Addressable(v) && SessionOk(Files(v), path, mode, ms, Capacity(v))
    requires Abs(v).bpc > 0 && SteadySession(Abs(v), NameOf(path), mode, ms)
    ensures Shaped(v)
    ensures var (v', ok, rs) := Session(v, path, mode, ms);
            (Abs(v'), ok, rs) == PlainSession(Abs(v), NameOf(path), mode, ms)
  {
    hide Inv, Handled, Open, Moves, Gap, Shaped, To83, From83, HasWrite, Canonical, IsCString, AbsFile.IsDirectory;
    hide MarksDirectory, Vol.RootEntries, Files, Abs, Storable, Steady, PlainMoves, MovesFit, AbsOpen, OpenPos;
    LoadedInv(v);
    AbsFields(v);
    var i := OpenGivesHandle(v, path, mode);
    var (v1, o) := Open(v, path, mode);
    AbsFields(v1);
    OpenedNames(v, path, mode, v1, o, i, ms);
    if o.Some? && !MarksDirectory(o.value.attr) {
      var name := NameOf(path);
      HandledEntryIs(v1, i, o.value.cursor, name);
      HandledFile(v1, i, o.value.cursor, name);
      MovesIgnoreName(v1, o.value.cursor, To83(o.value.filename), name, ms);
      SteadyMovesRefine(v1, i, o.value.cursor, name, None, ms);
    }
  }

  /** The handle's name is the one opened, if anything is to be written. */
  lemma OpenedNames(v: Vol, path: seq<Byte>, mode: seq<Byte>, v1: Vol, o: Option<Opened>, i: nat, ms: seq<Move>)
    requires OpenDone(v, path, mode, v1, o, i) && SessionOk(Files(v), path, mode, ms, Capacity(v))
    ensures o.Some? && !MarksDirectory(o.value.attr) ==> To83(o.value.filename) == NameOf(path) || !HasWrite(ms)
  {
    hide Inv, Handled, Gap, To83, From83, HasWrite, Canonical, IsCString, AbsFile.IsDirectory, MarksDirectory, Abs;
    hide Files, AbsOpen, Storable, MovesFit;
    AbsFields(v);
    AbsFields(v1);
    if NameOf(path) in Files(v) && HasWrite(ms) && o.Some? && !MarksDirectory(o.value.attr) {
      StaysAFile(v, path, mode, v1, o.value);
      RoundTripIffCanonical(NameOf(path));
    }
  }

  lemma StaysAFile(v: Vol, path: seq<Byte>, mode: seq<Byte>, v1: Vol, o: Opened)
    requires NameOf(path) in Files(v) && NameOf(path) in Files(v1)
    requires (Abs(v1), true) == AbsOpen(Abs(v), NameOf(path), mode)
    requires MarksDirectory(o.attr) == Files(v1)[NameOf(path)].IsDirectory()
    ensures MarksDirectory(o.attr) == Files(v)[NameOf(path)].IsDirectory()
  {
    hide Files, AbsFile.IsDirectory, MarksDirectory, To83;
    AbsFields(v);
    AbsFields(v1);
  }

  // ---- runs ----

  function PlainStep(a: AbsFs, op: Op): (r: AbsFs)
    requires a.bpc > 0
    ensures r.bpc == a.bpc
  {
    match op
    case SessionOp(path, mode, ms) => PlainSession(a, NameOf(path), mode, ms).0
    case _ => AbsStep(a, op, [])
  }

  function PlainRun(a: AbsFs, ops: seq<Op>): AbsFs
    requires a.bpc > 0
    decreases |ops|
  {
    if ops == [] then a else PlainRun(PlainStep(a, ops[0]), ops[1..])
  }

  /** Every command is in order and every session steady when its turn comes. */
  predicate SteadyRun(a: AbsFs, ops: seq<Op>, capacity: nat)
    requires a.bpc > 0
    decreases |ops|
  {
    ops == [] ||
      (OpOk(a.files, ops[0], capacity)
       && (ops[0].SessionOp? ==> SteadySession(a, NameOf(ops[0].path), ops[0].mode, ops[0].moves))
       && SteadyRun(PlainStep(a, ops[0]), ops[1..], capacity))
  }

  /** A run of steady sessions and directory operations is the run on the plain map of files. */
  lemma {:induction false} SteadyRunRefines(v: Vol, ops: seq<Op>)
    requires Inv(v) && Addressable(v) && Abs(v).bpc > 0 && SteadyRun(Abs(v), ops, Capacity(v))
    ensures Shaped(v) && Inv(Run(v, ops)) && Abs(Run(v, ops)) == PlainRun(Abs(v), ops)
    decreases |ops|
  {
    hide Inv, Gap, Shaped, Step, StepBuffers, AbsStep, PlainStep, Abs, OpOk, BuffersOk, Vol.RootEntries, Files;
    hide StepDone, SteadySession;
    LoadedInv(v);
    AbsFields(v);
    if ops != [] {
      StepRefines(v, ops[0]);
      SteadyStep(v, ops[0]);
      StepParts(v, ops[0], Step(v, ops[0]));
      SteadyRunRefines(Step(v, ops[0]), ops[1..]);
    }
  }

  lemma SteadyStep(v: Vol, op: Op)
    requires Inv(v) && Addressable(v) && Abs(v).bpc > 0 && OpOk(Files(v), op, Capacity(v)) && Shaped(v)
    requires op.SessionOp? ==> SteadySession(Abs(v), NameOf(op.path), op.mode, op.moves)
    ensures Abs(Step(v, op)) == PlainStep(Abs(v), op)
  {
    hide Inv, Gap, Shaped, Session, PlainSession, SteadySession, Abs, Files, SessionOk, AbsStep, Addressable;
    if op.SessionOp? {
      SteadySessionRefines(v, op.path, op.mode, op.moves);
    } else {
      StepRefines(v, op);
      hide Step;
    }
  }
}
