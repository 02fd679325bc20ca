/**
 Sessions on a file: open it, make any sequence of reads, seeks and writes, close it. A session on a sound volume is
 the same session on the map of files; what each read or write finds in the shared buffer is passed along.
 */
module Sessions {
  import opened Bytes
  import opened FatImage
  import opened Chains
  import opened Allocator
  import opened Names
  import opened Directory
  import opened VolumeState
  import opened FileContent
  import opened FileWrite
  import opened VolumeOps
  import opened AbstractFs
  import opened Refinement
  import opened Writes
  import opened OpenHandles

  // ---- one move ----

  datatype Move = ReadMove(n: nat) | SeekMove(target: nat) | WriteMove(bytes: seq<Byte>)

  /** What a call hands back: the bytes of a read, and the number of bytes read or written. */
  datatype Reply = Reply(bytes: seq<Byte>, count: nat)

  const NO_REPLY: Reply := Reply([], 0)

  function MakeMove(v: Vol, h: Cursor, name: Name, m: Move): (r: (Vol, Cursor, Reply))
    requires Shaped(v) && h.off < v.Bpc()
    ensures Shaped(r.0) && r.0.Bpc() == v.Bpc() && r.1.off < v.Bpc()
  {
    match m
    case ReadMove(n) => var (v1, h1, out) := Read(v, h, n); (v1, h1, Reply(out, |out|))
    case SeekMove(t) => (v, Seek(v, h, t), NO_REPLY)
    case WriteMove(b) => var (v1, h1, w) := WriteFile(v, h, name, b); (v1, h1, Reply([], w))
  }

  /** The `n` bytes from `pos` on, or as many as there are. */
  function Ahead(s: seq<Byte>, pos: nat, n: nat): (r: seq<Byte>)
    requires pos <= |s|
    ensures |r| == Min(n, |s| - pos)
  {
    s[pos..pos + Min(n, |s| - pos)]
  }

  /** The same on the map of files, for a handle at `pos` and with `buf` in the shared buffer. */
  function AbsMove(a: AbsFs, n: Name, pos: nat, m: Move, buf: seq<Byte>): (r: (AbsFs, nat, Reply))
    requires n in a.files && pos <= |a.files[n].bytes| && |buf| == a.bpc > 0
    ensures r.0.bpc == a.bpc && n in r.0.files && r.1 <= |r.0.files[n].bytes|
  {
    var f := a.files[n].bytes;
    match m
    case ReadMove(k) =>
      var got := Ahead(Stale(f, pos, a.bpc, buf), pos, k);
      (a, pos + |got|, Reply(got, |got|))
    case SeekMove(t) => (a, Min(t, |f|), NO_REPLY)
    case WriteMove(b) => var (a1, w) := AbsWriteOver(a, n, pos, b, buf); (a1, pos + w, Reply([], w))
  }

  /** Reading `n` bytes cannot wrap around the 32 bits of a position on this volume. */
  predicate MoveFits(m: Move, capacity: nat) { m.ReadMove? ==> capacity + m.n < WORD }

  lemma HandleBelow(v: Vol, i: nat, h: Cursor, name: Name)
    requires Handled(v, i, h, name)
    ensures h.pos <= h.size <= |ChainsIn(v)[i]| * v.Bpc() <= Capacity(v)
  {
    HandledFile(v, i, h, name);
    LiveChain(v, i);
    ChainIsShort(v.fat, ChainsIn(v)[i]);
    MulMono(|ChainsIn(v)[i]|, |v.fat|, v.Bpc());
  }

  /** What the read loop sees of the file. */
  lemma SeenFile(v: Vol, i: nat, h: Cursor, name: Name, k: nat)
    requires Handled(v, i, h, name) && CursorAt(ChainsIn(v)[i], v.Bpc(), h, k)
    ensures Shaped(v) && |v.buf| == v.Bpc() > 0 && i < |ChainsIn(v)| && Uniform(v.data, ChainsIn(v)[i], v.Bpc())
    ensures name in Files(v) && |Files(v)[name].bytes| == h.size && h.size <= |Seen(v, ChainsIn(v)[i], h, k)|
    ensures h.pos <= h.size && Stale(Files(v)[name].bytes, h.pos, v.Bpc(), v.buf) ==
            Seen(v, ChainsIn(v)[i], h, k)[..h.size]
  {
    hide Inv, Entries, Vol.RootEntries, Flat, Uniform, Stale, Splice, ChainsIn, IsChain;
    HandledFile(v, i, h, name);
    LiveChain(v, i);
    HandlePlacedAt(v, i, h, name, k);
    ImposedFlat(v, Heads(v.RootEntries()), ChainsIn(v), i, h, k);
    ImposedSame(v, i, h, name);
    LiveChain(Imposed(v, h), i);
    ImposedFile(v, i, h, name);
    FlatLength(v.data, ChainsIn(v)[i], v.Bpc());
  }

  /** What `fs_read` through an open handle does: it hands out the next bytes of the file as the cursor sees it. */
  ghost predicate ReadDone(v: Vol, i: nat, h: Cursor, name: Name, n: nat, v': Vol, h': Cursor, out: seq<Byte>)
  {
    && name in Files(v) && h.pos <= |Files(v)[name].bytes| == h.size && |v.buf| > 0
    && out == Ahead(Stale(Files(v)[name].bytes, h.pos, v.Bpc(), v.buf), h.pos, n)
    && h'.pos == h.pos + |out| && v' == v.(buf := v'.buf) && |v'.buf| == |v.buf|
    && Handled(v', i, h', name) && Abs(v') == Abs(v)
  }

  lemma ReadRefines(v: Vol, i: nat, h: Cursor, name: Name, n: nat)
    requires Handled(v, i, h, name) && h.pos + n < WORD
    ensures Shaped(v) && h.off < v.Bpc()
    ensures var (v', h', out) := Read(v, h, n); ReadDone(v, i, h, name, n, v', h', out)
  {
    hide Inv, Entries, Vol.RootEntries, ChainsIn, IsChain, Read, ReadLoop, Seen, CursorAt, Handled, ReadDone, Shaped;
    hide Files;
    var k := HandledPlaced(v, i, h, name);
    HandleBelow(v, i, h, name);
    HandleChain(v, i, h, name);
    ReadIsClampedLoop(v, h, n);
    var m := Min(n, h.size - h.pos);
    if h.pos < h.size {
      var k' := ReadDelivers(v, ChainsIn(v)[i], h, k, m);
      var (v', h', out) := Read(v, h, n);
      HandledMoved(v, v'.buf, i, h, h', name, k');
      SomethingRead(v, i, h, name, k, n, v', h', out);
    } else {
      NothingRead(v, i, h, name, n);
    }
  }

  lemma NothingRead(v: Vol, i: nat, h: Cursor, name: Name, n: nat)
    requires Handled(v, i, h, name) && h.pos == h.size
    ensures ReadDone(v, i, h, name, n, v, h, [])
  {
    hide Inv, Handled, Abs, Files, Stale, Vol.RootEntries, Ahead, Placed, CursorAt, Shaped, ChainsIn, FileOf;
    HandledFile(v, i, h, name);
    assert v == v.(buf := v.buf);
    assert Ahead(Stale(Files(v)[name].bytes, h.pos, v.Bpc(), v.buf), h.pos, n) == [];
  }

  lemma SomethingRead(v: Vol, i: nat, h: Cursor, name: Name, k: nat, n: nat, v': Vol, h': Cursor, out: seq<Byte>)
    requires Handled(v, i, h, name) && CursorAt(ChainsIn(v)[i], v.Bpc(), h, k) && h.pos <= h.size
    requires Uniform(v.data, ChainsIn(v)[i], v.Bpc()) && h.pos + Min(n, h.size - h.pos) <= |ChainsIn(v)[i]| * v.Bpc()
    requires out == Window(Seen(v, ChainsIn(v)[i], h, k), h.pos, Min(n, h.size - h.pos)) && h'.pos == h.pos + |out|
    requires v' == v.(buf := v'.buf) && |v'.buf| == |v.buf| && Handled(v', i, h', name) && Abs(v') == Abs(v)
    ensures ReadDone(v, i, h, name, n, v', h', out)
  {
    hide Inv, Handled, Abs, Files, Stale, Vol.RootEntries, Seen, Window, Ahead, ChainsIn, Uniform;
    SeenFile(v, i, h, name, k);
    WindowOfFront(Seen(v, ChainsIn(v)[i], h, k), h.size, h.pos, |out|);
  }

  lemma WindowOfFront(s: seq<Byte>, size: nat, pos: nat, m: nat)
    requires pos + m <= size <= |s|
    ensures forall n: nat :: Min(n, size - pos) == m ==> Window(s, pos, m) == Ahead(s[..size], pos, n)
  {
  }

  lemma HandleChain(v: Vol, i: nat, h: Cursor, name: Name)
    requires Handled(v, i, h, name)
    ensures IsChain(v.fat, ChainsIn(v)[i])
  {
    LiveChain(v, i);
  }

  lemma HandlePlacedAt(v: Vol, i: nat, h: Cursor, name: Name, k: nat)
    requires Handled(v, i, h, name) && CursorAt(ChainsIn(v)[i], v.Bpc(), h, k)
    ensures Placed(v, Heads(v.RootEntries()), ChainsIn(v), i, h, k)
  {
    LiveChain(v, i);
    InvParts(v);
  }

  /** The handle moved along its chain, with something else in the buffer. */
  lemma HandledMoved(v: Vol, buf: seq<Byte>, i: nat, h: Cursor, h': Cursor, name: Name, k': nat)
    requires Handled(v, i, h, name) && |buf| == |v.buf|
    requires CursorAt(ChainsIn(v)[i], v.Bpc(), h', k') && h'.first == h.first && h'.size == h.size && h'.pos <= h'.size
    ensures Handled(v.(buf := buf), i, h', name) && Abs(v.(buf := buf)) == Abs(v)
  {
    hide Inv, Entries, Vol.RootEntries, ChainsIn, Abs, CursorAt, IsChain;
    BufferUnseen(v, buf);
  }

  lemma SeekRefines(v: Vol, i: nat, h: Cursor, name: Name, target: nat)
    requires Handled(v, i, h, name)
    ensures Shaped(v) && Handled(v, i, Seek(v, h, target), name)
    ensures Seek(v, h, target).pos == Min(target, h.size) && Seek(v, h, target).size == h.size
  {
    var k := HandledPlaced(v, i, h, name);
    hide Inv, Entries, Vol.RootEntries, ChainsIn, HandleOk, Seek;
    SeekKeepsHandle(v, ChainsIn(v)[i], h, target);
  }

  /** Everything that a move keeps. */
  ghost predicate MoveDone(v: Vol, i: nat, h: Cursor, name: Name, m: Move, v': Vol, h': Cursor, r: Reply)
  {
    && name in Files(v) && h.pos <= |Files(v)[name].bytes| && |v.buf| > 0 && Handled(v', i, h', name)
    && (Abs(v'), h'.pos, r) == AbsMove(Abs(v), name, h.pos, m, v.buf)
    && Gap(v'.PoolOf()) == Gap(v.PoolOf()) && |v'.fat| == |v.fat| && v'.Bpc() == v.Bpc()
  }

  /** One move of an open handle is the move on the map of files. */
  lemma MoveRefines(v: Vol, i: nat, h: Cursor, name: Name, m: Move)
    requires Handled(v, i, h, name) && MoveFits(m, Capacity(v))
    ensures Shaped(v) && h.off < v.Bpc()
    ensures var (v', h', r) := MakeMove(v, h, name, m); MoveDone(v, i, h, name, m, v', h', r)
  {
    hide Inv, Handled, Read, Seek, WriteFile, MoveDone, Files, Shaped;
    var k := HandledPlaced(v, i, h, name);
    match m
    case ReadMove(n) =>
      HandleBelow(v, i, h, name);
      ReadRefines(v, i, h, name, n);
      var (v', h', out) := Read(v, h, n);
      ReadIsDone(v, i, h, name, n, v', h', out);
    case SeekMove(t) =>
      SeekRefines(v, i, h, name, t);
      SeekIsDone(v, i, h, name, t, Seek(v, h, t));
    case WriteMove(b) =>
      WriteRefines(v, i, h, name, b);
      var (v', h', w) := WriteFile(v, h, name, b);
      WriteIsDone(v, i, h, name, b, v', h', w);
  }

  lemma ReadIsDone(v: Vol, i: nat, h: Cursor, name: Name, n: nat, v': Vol, h': Cursor, out: seq<Byte>)
    requires ReadDone(v, i, h, name, n, v', h', out)
    ensures MoveDone(v, i, h, name, ReadMove(n), v', h', Reply(out, |out|))
  {
    hide Handled, Abs, Files, Stale, Ahead, Gap;
    AbsFields(v);
    assert v'.PoolOf() == v.PoolOf();
  }

  lemma SeekIsDone(v: Vol, i: nat, h: Cursor, name: Name, target: nat, h': Cursor)
    requires Shaped(v) && Handled(v, i, h, name) && Handled(v, i, h', name) && h'.pos == Min(target, h.size)
    ensures MoveDone(v, i, h, name, SeekMove(target), v, h', NO_REPLY)
  {
    hide Inv, Handled, Abs, Files, Gap, Shaped, Vol.RootEntries, Entries;
    HandledFile(v, i, h, name);
    AbsFields(v);
  }

  lemma WriteIsDone(v: Vol, i: nat, h: Cursor, name: Name, b: seq<Byte>, v': Vol, h': Cursor, w: nat)
    requires name in Files(v) && h.pos <= |Files(v)[name].bytes| && v.Bpc() > 0
             && WroteOver(v, i, h, name, b, v', h', w)
    ensures MoveDone(v, i, h, name, WriteMove(b), v', h', Reply([], w))
  {
    hide Handled, Abs, Files, AbsWriteOver, Gap;
    AbsFields(v);
  }

  // ---- any sequence of moves ----

  function Moves(v: Vol, h: Cursor, name: Name, ms: seq<Move>): (r: (Vol, Cursor, seq<Reply>))
    requires Shaped(v) && h.off < v.Bpc()
    ensures Shaped(r.0) && r.0.Bpc() == v.Bpc() && |r.2| == |ms|
    decreases |ms|
  {
    if ms == [] then (v, h, [])
    else
      var (v1, h1, r) := MakeMove(v, h, name, ms[0]);
      var (v2, h2, rs) := Moves(v1, h1, name, ms[1..]);
      (v2, h2, [r] + rs)
  }

  /** What the shared buffer holds before each of the moves. */
  function Buffers(v: Vol, h: Cursor, name: Name, ms: seq<Move>): (bufs: seq<seq<Byte>>)
    requires Shaped(v) && h.off < v.Bpc()
    ensures |bufs| == |ms| && forall j :: 0 <= j < |bufs| ==> |bufs[j]| == v.Bpc()
    decreases |ms|
  {
    if ms == [] then []
    else
      var (v1, h1, r) := MakeMove(v, h, name, ms[0]);
      [v.buf] + Buffers(v1, h1, name, ms[1..])
  }

  predicate BuffersFor(a: AbsFs, ms: seq<Move>, bufs: seq<seq<Byte>>)
  {
    a.bpc > 0 && |bufs| == |ms| && forall j :: 0 <= j < |bufs| ==> |bufs[j]| == a.bpc
  }

  function AbsMoves(a: AbsFs, n: Name, pos: nat, ms: seq<Move>, bufs: seq<seq<Byte>>): (r: (AbsFs, nat, seq<Reply>))
    requires n in a.files && pos <= |a.files[n].bytes| && BuffersFor(a, ms, bufs)
    ensures r.0.bpc == a.bpc
    decreases |ms|
  {
    if ms == [] then (a, pos, [])
    else
      var (a1, pos1, r) := AbsMove(a, n, pos, ms[0], bufs[0]);
      var (a2, pos2, rs) := AbsMoves(a1, n, pos1, ms[1..], bufs[1..]);
      (a2, pos2, [r] + rs)
  }

  predicate MovesFit(ms: seq<Move>, capacity: nat) { forall j :: 0 <= j < |ms| ==> MoveFits(ms[j], capacity) }

  ghost predicate MovesDone(v: Vol, i: nat, h: Cursor, name: Name, ms: seq<Move>, v': Vol, h': Cursor, rs: seq<Reply>)
  {
    && Shaped(v) && h.off < v.Bpc() && name in Files(v) && h.pos <= |Files(v)[name].bytes| && Handled(v', i, h', name)
    && (Abs(v'), h'.pos, rs) == AbsMoves(Abs(v), name, h.pos, ms, Buffers(v, h, name, ms))
    && Gap(v'.PoolOf()) == Gap(v.PoolOf()) && |v'.fat| == |v.fat| && v'.Bpc() == v.Bpc()
  }

  /** Any mix of reads, seeks and writes through an open handle, whatever is in the shared buffer: the volume stays
      sound, the handle stays on its file with position = k * bytes_per_cluster + offset, and replies and files are
      those of the same moves on the map of files. */
  lemma {:induction false} MovesRefine(v: Vol, i: nat, h: Cursor, name: Name, ms: seq<Move>)
    requires Handled(v, i, h, name) && MovesFit(ms, Capacity(v))
    ensures Shaped(v) && h.off < v.Bpc()
    ensures var (v', h', rs) := Moves(v, h, name, ms); MovesDone(v, i, h, name, ms, v', h', rs)
    decreases |ms|
  {
    hide Inv, Handled, MakeMove, AbsMove, Abs, Files, Gap, Shaped, MoveDone, MovesDone, Moves, Vol.RootEntries;
    var k := HandledPlaced(v, i, h, name);
    if ms == [] {
      NoMoves(v, i, h, name);
    } else {
      MoveRefines(v, i, h, name, ms[0]);
      var (v1, h1, r) := MakeMove(v, h, name, ms[0]);
      MoveParts(v, i, h, name, ms[0], v1, h1, r);
      MovesRefine(v1, i, h1, name, ms[1..]);
      var (v2, h2, rs) := Moves(v1, h1, name, ms[1..]);
      MovesJoin(v, i, h, name, ms, v2, h2, rs);
    }
  }

  lemma NoMoves(v: Vol, i: nat, h: Cursor, name: Name)
    requires Handled(v, i, h, name)
    ensures Shaped(v) && h.off < v.Bpc() && Moves(v, h, name, []) == (v, h, [])
    ensures MovesDone(v, i, h, name, [], v, h, [])
  {
    hide Inv, Handled, Abs, Files, Gap, Shaped, Vol.RootEntries;
    var k := HandledPlaced(v, i, h, name);
    HandledFile(v, i, h, name);
    AbsFields(v);
  }

  lemma MoveParts(v: Vol, i: nat, h: Cursor, name: Name, m: Move, v': Vol, h': Cursor, r: Reply)
    requires MoveDone(v, i, h, name, m, v', h', r)
    ensures Handled(v', i, h', name) && Capacity(v') == Capacity(v)
  {
    hide Handled, AbsMove, Files, VacantSlots, Gap;
  }

  /** The first move and the others. */
  lemma MovesJoin(v: Vol, i: nat, h: Cursor, name: Name, ms: seq<Move>, v2: Vol, h2: Cursor, rs: seq<Reply>)
    requires ms != [] && Shaped(v) && h.off < v.Bpc()
    requires var (v1, h1, r) := MakeMove(v, h, name, ms[0]);
             && MoveDone(v, i, h, name, ms[0], v1, h1, r) && MovesDone(v1, i, h1, name, ms[1..], v2, h2, rs)
             && (v2, h2, rs) == Moves(v1, h1, name, ms[1..])
    ensures var r := MakeMove(v, h, name, ms[0]).2;
            Moves(v, h, name, ms) == (v2, h2, [r] + rs) && MovesDone(v, i, h, name, ms, v2, h2, [r] + rs)
  {
    hide Handled, MakeMove, AbsMove, Abs, Files, Gap, Shaped, Vol.RootEntries;
    AbsFields(v);
    var (v1, h1, r) := MakeMove(v, h, name, ms[0]);
    AbsFields(v1);
    var bufs := Buffers(v, h, name, ms);
    assert bufs[0] == v.buf && bufs[1..] == Buffers(v1, h1, name, ms[1..]);
  }

  // ---- open ----

  /** Opening on the map of files. */
  function AbsOpen(a: AbsFs, n: Name, mode: seq<Byte>): (r: (AbsFs, bool))
    ensures r.0.bpc == a.bpc && (r.1 ==> n in r.0.files)
  {
    if n in a.files then (a, true) else if Creates(mode) then AbsCreate(a, n, ATTR_ARCHIVE) else (a, false)
  }

  /** Where the handle then stands. */
  function OpenPos(a: AbsFs, n: Name, mode: seq<Byte>): nat
  {
    if n in a.files && Appends(mode) then |a.files[n].bytes| else 0
  }

  /** The handle that opening gives, on entry `i`. */
  ghost predicate OpenedOn(v: Vol, path: seq<Byte>, mode: seq<Byte>, v': Vol, o: Opened, i: nat)
  {
    var name := NameOf(path);
    && (if name in Files(v) then o.filename == From83(name) else o.filename == Strip(path))
    && v'.root < |v'.data| && v'.buf == v'.data[v'.root]
    && name in Files(v') && MarksDirectory(o.attr) == Files(v')[name].IsDirectory()
    && (!MarksDirectory(o.attr) ==> Handled(v', i, o.cursor, name) && o.cursor.pos == OpenPos(Abs(v), name, mode))
  }

  ghost predicate OpenDone(v: Vol, path: seq<Byte>, mode: seq<Byte>, v': Vol, o: Option<Opened>, i: nat)
  {
    && Inv(v') && (Abs(v'), o.Some?) == AbsOpen(Abs(v), NameOf(path), mode)
    && Gap(v'.PoolOf()) == Gap(v.PoolOf()) && |v'.fat| == |v.fat| && v'.Bpc() == v.Bpc()
    && (o.Some? ==> OpenedOn(v, path, mode, v', o.value, i))
  }

  /** A handle at the start of a live file. */
  lemma StartHandle(v: Vol, i: nat)
    requires Inv(v) && Addressable(v) && i < |v.RootEntries()| && v.RootEntries()[i].IsLive()
    ensures var e := v.RootEntries()[i];
            && e.name in Files(v) && Files(v)[e.name] == FileOf(v, e) && |FileOf(v, e).bytes| == e.size
            && FileOf(v, e).IsDirectory() == e.IsDirectory() && MarksDirectory(e.attr) == e.IsDirectory()
            && (!e.IsDirectory() ==> Handled(v, i, OpenCursor(e.first, e.size), e.name))
  {
    hide Entries, Catalog, DirOk, Partition, Fitting, Counted, Uniform, Contents, OnlyDots;
    LoadedInv(v);
    LiveChain(v, i);
    CatalogHas(v.RootEntries(), i);
    var e := v.RootEntries()[i];
    assert CursorAt(ChainsIn(v)[i], v.Bpc(), OpenCursor(e.first, e.size), 0);
    hide Inv, ChainsIn, IsChain, CursorAt, Files, Chain;
  }

  /** Opening a file that is there, in any mode. */
  lemma OpenExistingRefines(v: Vol, path: seq<Byte>, mode: seq<Byte>) returns (i: nat)
    requires Inv(v) && Addressable(v) && NameOf(path) in Files(v)
    ensures Shaped(v)
    ensures var (v', o) := Open(v, path, mode); o.Some? && OpenDone(v, path, mode, v', o, i)
  {
    hide Inv, Entries, FileOf, Gap, Find, Catalog, DirOk, Shaped, To83, From83, Seek, Handled, Entry.IsLive;
    hide Entry.IsDirectory;
    hide Files, VacantSlots, AbsFile.IsDirectory, MarksDirectory;
    LoadedInv(v);
    LoadedSame(v, v.root);
    FindIsLookup(v.RootEntries(), NameOf(path));
    i := Find(v.RootEntries(), NameOf(path), 0).value;
    OpenFinds(v, path, mode);
    hide Open;
    var v1, e := v.Loaded(v.root), v.RootEntries()[i];
    StartHandle(v1, i);
    SeekSameBuffer(v, v1.buf, OpenCursor(e.first, e.size), e.size);
    if Appends(mode) && !e.IsDirectory() { SeekRefines(v1, i, OpenCursor(e.first, e.size), e.name, e.size); }
  }

  /** The entry of a newly created file. */
  lemma CreatedEntry(v: Vol, name: Name) returns (i: nat)
    requires Inv(v) && name !in Files(v) && Storable(name)
    ensures Shaped(v)
    ensures var (v', c) := CreateFile(v, name);
            c != 0 ==>
              && Inv(v') && i < |v'.RootEntries()| && v'.RootEntries()[i] == Entry(name, ATTR_ARCHIVE, c, 0)
              && v'.root < |v'.data| && v'.buf == v'.data[v'.root]
  {
    hide Inv, Entries, FileOf, Gap, CreateWith, Catalog, DirOk, Vacancy, VacantSlots;
    i := 0;
    LoadedInv(v);
    LoadedSame(v, v.root);
    var v1 := v.Loaded(v.root);
    CreateLoadsRoot(v1, name, ATTR_ARCHIVE);
    if v.free == 0 {
      CreateWithoutClusters(v1, name, ATTR_ARCHIVE);
    } else if Vacancy(v.RootEntries(), 0).None? {
      CreateRollsBack(v1, name, ATTR_ARCHIVE);
    } else {
      i := Vacancy(v.RootEntries(), 0).value;
      CreateSucceeds(v1, name, ATTR_ARCHIVE);
    }
  }

  /** A creation leaves the directory in the buffer. */
  lemma CreateLoadsRoot(v: Vol, name: Name, attr: Byte)
    requires Shaped(v)
    ensures var (v', c) := CreateWith(v, name, attr); c != 0 ==> v'.root < |v'.data| && v'.buf == v'.data[v'.root]
  {
    hide AllocateFilled, Entries, WithNew, Vacancy;
  }

  lemma NewFileIsPlain(name: Name, c: nat)
    requires Storable(name)
    ensures var e := Entry(name, ATTR_ARCHIVE, c, 0); e.IsLive() && !e.IsDirectory() && !MarksDirectory(e.attr)
  {
  }

  /** Opening a file that is not there. */
  lemma OpenMissingRefines(v: Vol, path: seq<Byte>, mode: seq<Byte>) returns (i: nat)
    requires Inv(v) && Addressable(v) && NameOf(path) !in Files(v) && (Creates(mode) ==> Storable(NameOf(path)))
    ensures Shaped(v)
    ensures var (v', o) := Open(v, path, mode); OpenDone(v, path, mode, v', o, i)
  {
    hide Inv, Entries, FileOf, Gap, Find, Catalog, DirOk, Shaped, To83, Handled, Entry.IsLive, Entry.IsDirectory;
    hide CreateFile;
    hide Files, VacantSlots, AbsFile.IsDirectory, MarksDirectory, AbsCreate, Storable;
    i := 0;
    LoadedInv(v);
    LoadedSame(v, v.root);
    FindIsLookup(v.RootEntries(), NameOf(path));
    OpenMisses(v, path, mode);
    hide Open;
    AbsFields(v);
    if Creates(mode) {
      CreateFileRefines(v, NameOf(path));
      var (v', c) := CreateFile(v, NameOf(path));
      i := CreatedEntry(v, NameOf(path));
      if c != 0 {
        NewFileIsPlain(NameOf(path), c);
        StartHandle(v', i);
      }
    }
  }

  /** Opening a path in any mode keeps the volume sound and is opening on the map of files. The handle it gives is in
      order: on the file of that name, at its start or, in mode "a", at its end. */
  lemma OpenGivesHandle(v: Vol, path: seq<Byte>, mode: seq<Byte>) returns (i: nat)
    requires Inv(v) && Addressable(v)
    requires Creates(mode) && NameOf(path) !in Files(v) ==> Storable(NameOf(path))
    ensures Shaped(v)
    ensures var (v', o) := Open(v, path, mode); OpenDone(v, path, mode, v', o, i)
  {
    if NameOf(path) in Files(v) { i := OpenExistingRefines(v, path, mode); }
    else { i := OpenMissingRefines(v, path, mode); }
  }

  /** What the first letter of the mode decides, "a" being 97 and "w" 119: where the handle stands on a file that is
      there, and whether a missing file is created. */
  ghost predicate OpenedByMode(v: Vol, name: Name, mode: seq<Byte>, v': Vol, o: Option<Opened>)
  {
    if name in Files(v) then
      && o.Some? && Abs(v') == Abs(v) && MarksDirectory(o.value.attr) == Files(v)[name].IsDirectory()
      && o.value.filename == From83(name)
      && (Files(v)[name].IsDirectory() ==> o.value.cursor.pos == 0)
      && (!Files(v)[name].IsDirectory() ==>
            && o.value.cursor.size == |Files(v)[name].bytes|
            && o.value.cursor.pos == if mode != [] && mode[0] == 97 then |Files(v)[name].bytes| else 0)
    else
      && (o.Some? <==> mode != [] && mode[0] in {97, 119} && v.free > 0 && VacantSlots(v.RootEntries()) != {})
      && (o.None? ==> Abs(v') == Abs(v))
      && (o.Some? ==>
            && o.value.cursor.pos == o.value.cursor.size == 0 && o.value.attr / 16 % 2 == 0
            && Files(v') == Files(v)[name := AbsFile(32, [], 1, false)])
  }

  lemma OpensByMode(v: Vol, path: seq<Byte>, mode: seq<Byte>)
    requires Inv(v) && Addressable(v)
    requires mode != [] && mode[0] in {97, 119} && NameOf(path) !in Files(v) ==> Storable(NameOf(path))
    ensures Shaped(v)
    ensures var (v', o) := Open(v, path, mode); OpenedByMode(v, NameOf(path), mode, v', o)
  {
    hide Inv, Handled, Open, Files, VacantSlots, Shaped, Vol.RootEntries, To83, Storable;
    var i := OpenGivesHandle(v, path, mode);
    var (v', o) := Open(v, path, mode);
    var name := NameOf(path);
    AbsFields(v);
    AbsFields(v');
    SlotsOf(v);
    DirectoryAtStart(v, path, mode);
    if o.Some? && !MarksDirectory(o.value.attr) { HandledFile(v', i, o.value.cursor, name); }
  }

  lemma DirectoryAtStart(v: Vol, path: seq<Byte>, mode: seq<Byte>)
    requires Shaped(v)
    ensures var o := Open(v, path, mode).1;
            o.Some? && MarksDirectory(o.value.attr) ==> o.value.cursor.pos == 0
  {
    hide Open, Find, Seek, From83, CreateFile, Creates, Appends;
    if Find(v.RootEntries(), NameOf(path), 0).Some? { OpenFinds(v, path, mode); } else { OpenMisses(v, path, mode); }
  }

  lemma SlotsOf(v: Vol)
    ensures Abs(v).slots == |VacantSlots(v.RootEntries())|
  {
  }
}
