/**
 Whole commands and whole runs: sessions on a file, saving it (open, write, close), loading it back (open, read,
 close), and any sequence of sessions, deletions, renames and directory operations.
 */
module Runs {
  import opened Bytes
  import opened Chains
  import opened Allocator
  import opened Names
  import opened Directory
  import opened VolumeState
  import opened FileContent
  import opened VolumeOps
  import opened AbstractFs
  import opened Refinement
  import opened Edits
  import opened Writes
  import opened OpenHandles
  import opened Sessions

  const MODE_READ: seq<Byte> := [114]
  const MODE_WRITE: seq<Byte> := [119]

  // ---- sessions ----

  /** On a directory every call is refused. */
  function Refused(n: nat): (r: seq<Reply>)
    ensures |r| == n && forall j :: 0 <= j < n ==> r[j] == NO_REPLY
  {
    seq(n, _ => NO_REPLY)
  }

  /** Open `path`, make the moves, close. The second result is false if the path could not be opened. */
  function Session(v: Vol, path: seq<Byte>, mode: seq<Byte>, ms: seq<Move>): (r: (Vol, bool, seq<Reply>))
    requires Shaped(v)
    ensures Shaped(r.0) && r.0.Bpc() == v.Bpc() && |r.2| == if r.1 then |ms| else 0
  {
    match Open(v, path, mode)
    case (v1, None) => (v1, false, [])
    case (v1, Some(o)) =>
      if MarksDirectory(o.attr) then (v1, true, Refused(|ms|))
      else var (v2, h, rs) := Moves(v1, o.cursor, To83(o.filename), ms); (v2, true, rs)
  }

  /** What the shared buffer holds before each of the moves. */
  function SessionBuffers(v: Vol, path: seq<Byte>, mode: seq<Byte>, ms: seq<Move>): (bufs: seq<seq<Byte>>)
    requires Shaped(v)
    ensures |bufs| == |ms| && forall j :: 0 <= j < |bufs| ==> |bufs[j]| == v.Bpc()
  {
    match Open(v, path, mode)
    case (v1, None) => seq(|ms|, _ => v.buf)
    case (v1, Some(o)) => Buffers(v1, o.cursor, To83(o.filename), ms)
  }

  function AbsSession(a: AbsFs, n: Name, mode: seq<Byte>, ms: seq<Move>, bufs: seq<seq<Byte>>)
      : (r: (AbsFs, bool, seq<Reply>))
    requires BuffersFor(a, ms, bufs)
    ensures r.0.bpc == a.bpc
  {
    var (a1, ok) := AbsOpen(a, n, mode);
    if !ok then (a1, false, [])
    else if a1.files[n].IsDirectory() then (a1, true, Refused(|ms|))
    else var (a2, pos, rs) := AbsMoves(a1, n, OpenPos(a, n, mode), ms, bufs); (a2, true, rs)
  }

  predicate HasWrite(ms: seq<Move>) { exists j :: 0 <= j < |ms| && ms[j].WriteMove? }

  /** What the caller owes: a name that the directory can hold for a file to be created, one that the driver finds
      again for a file to be written, and reads that do not wrap around 32 bits. */
  predicate SessionOk(files: map<Name, AbsFile>, path: seq<Byte>, mode: seq<Byte>, ms: seq<Move>, capacity: nat)
  {
    var n := NameOf(path);
    && (Creates(mode) && n !in files ==> Storable(n))
    && (n in files && !files[n].IsDirectory() && HasWrite(ms) ==> IsCString(n) && Canonical(n))
    && MovesFit(ms, capacity)
  }

  /** The handle's name matters for writes only. */
  lemma {:induction false} MovesIgnoreName(v: Vol, h: Cursor, n: Name, n': Name, ms: seq<Move>)
    requires Shaped(v) && h.off < v.Bpc() && (n == n' || !HasWrite(ms))
    ensures Moves(v, h, n, ms) == Moves(v, h, n', ms) && Buffers(v, h, n, ms) == Buffers(v, h, n', ms)
    decreases |ms|
  {
    if n != n' && ms != [] {
      assert !ms[0].WriteMove?;
      assert forall j :: 0 <= j < |ms| - 1 ==> ms[1..][j] == ms[j + 1];
      var (v1, h1, r) := MakeMove(v, h, n, ms[0]);
      hide WriteFile, Read, Seek, Shaped;
      MovesIgnoreName(v1, h1, n, n', ms[1..]);
    }
  }

  ghost predicate SessionDone(v: Vol, path: seq<Byte>, mode: seq<Byte>, ms: seq<Move>, v': Vol, ok: bool,
      rs: seq<Reply>)
  {
    && Shaped(v) && v.Bpc() > 0 && Inv(v') && |v'.fat| == |v.fat| && v'.Bpc() == v.Bpc()
    && Gap(v'.PoolOf()) == Gap(v.PoolOf())
    && (Abs(v'), ok, rs) == AbsSession(Abs(v), NameOf(path), mode, ms, SessionBuffers(v, path, mode, ms))
  }

  /** The moves of a session on a file, from the handle that opening gave. */
  lemma FileSession(v: Vol, path: seq<Byte>, mode: seq<Byte>, ms: seq<Move>, v1: Vol, o: Opened, i: nat)
    requires Shaped(v) && Open(v, path, mode) == (v1, Some(o)) && OpenDone(v, path, mode, v1, Some(o), i)
    requires !MarksDirectory(o.attr) && (To83(o.filename) == NameOf(path) || !HasWrite(ms)) && MovesFit(ms, Capacity(v))
    ensures var (v', ok, rs) := Session(v, path, mode, ms); SessionDone(v, path, mode, ms, v', ok, rs)
  {
    hide Inv, Handled, Open, Moves, Buffers, AbsMoves, Abs, Files, Gap, Shaped, To83, From83, HasWrite, AbsOpen;
    hide OpenPos;
    hide AbsFile.IsDirectory, MarksDirectory, Vol.RootEntries;
    AbsFields(v);
    AbsFields(v1);
    var k := HandledPlaced(v1, i, o.cursor, NameOf(path));
    MovesIgnoreName(v1, o.cursor, To83(o.filename), NameOf(path), ms);
    MovesRefine(v1, i, o.cursor, NameOf(path), ms);
    var (v2, h, rs) := Moves(v1, o.cursor, NameOf(path), ms);
    HandledInv(v2, i, h, NameOf(path));
  }

  /** A session on a path, in any mode and with any moves, keeps the volume sound and is the session on the map of
      files: files, clusters, counters, and every reply. */
  lemma SessionRefines(v: Vol, path: seq<Byte>, mode: seq<Byte>, ms: seq<Move>)
    requires Inv(v) && Addressable(v) && SessionOk(Files(v), path, mode, ms, Capacity(v))
    ensures Shaped(v)
    ensures var (v', ok, rs) := Session(v, path, mode, ms); SessionDone(v, path, mode, ms, v', ok, rs)
  {
    hide Inv, Handled, Open, Moves, Buffers, AbsMoves, Gap, Shaped, To83, From83, HasWrite, Canonical, IsCString;
    hide AbsFile.IsDirectory;
    hide MarksDirectory, Vol.RootEntries, Files, VacantSlots, AbsCreate, Storable;
    LoadedInv(v);
    var i := OpenGivesHandle(v, path, mode);
    var (v1, o) := Open(v, path, mode);
    AbsFields(v);
    if o.Some? && !MarksDirectory(o.value.attr) {
      if NameOf(path) in Files(v) && HasWrite(ms) { RoundTripIffCanonical(NameOf(path)); }
      FileSession(v, path, mode, ms, v1, o.value, i);
    }
  }

  // ---- save and load ----

  /** Open `path` in mode "w", write `b`, close. The second result is false if the file could not be opened;
      the third is the return value of `fs_write`, which is 0 on a directory. */
  function Save(v: Vol, path: seq<Byte>, b: seq<Byte>): (r: (Vol, bool, nat))
    requires Shaped(v)
    ensures Shaped(r.0) && r.0.Bpc() == v.Bpc()
  {
    var (v1, ok, rs) := Session(v, path, MODE_WRITE, [WriteMove(b)]);
    (v1, ok, if ok then rs[0].count else 0)
  }

  /** Open `path` in mode "r", read up to `n` bytes, close; nothing if there is no such file. */
  function Load(v: Vol, path: seq<Byte>, n: nat): (r: (Vol, Option<seq<Byte>>))
    requires Shaped(v)
  {
    match Open(v, path, MODE_READ)
    case (v1, None) => (v1, None)
    case (v1, Some(o)) =>
      if MarksDirectory(o.attr) then (v1, Some([]))
      else var (v2, h, out) := Read(v1, o.cursor, n); (v2, Some(out))
  }

  function AbsSave(a: AbsFs, n: Name, b: seq<Byte>): (AbsFs, bool, nat)
    requires a.bpc > 0
  {
    if n in a.files then
      if a.files[n].IsDirectory() then (a, true, 0) else var (a1, w) := AbsWrite(a, n, 0, b); (a1, true, w)
    else
      var (a1, ok) := AbsCreate(a, n, ATTR_ARCHIVE);
      if !ok then (a, false, 0) else var (a2, w) := AbsWrite(a1, n, 0, b); (a2, true, w)
  }

  /** A write at the start of a file needs nothing from the buffer. */
  lemma WriteAtStart(a: AbsFs, n: Name, b: seq<Byte>, buf: seq<Byte>)
    requires n in a.files && |buf| == a.bpc > 0
    ensures AbsWriteOver(a, n, 0, b, buf) == AbsWrite(a, n, 0, b)
  {
    assert a.files[n := a.files[n]] == a.files;
    assert Seeing(a, n, 0, buf) == a;
  }

  /** A save is the session with one write from the start. */
  lemma SaveSession(a: AbsFs, n: Name, b: seq<Byte>, bufs: seq<seq<Byte>>)
    requires BuffersFor(a, [WriteMove(b)], bufs)
    ensures var (a1, ok, rs) := AbsSession(a, n, MODE_WRITE, [WriteMove(b)], bufs);
            |rs| == (if ok then 1 else 0) && AbsSave(a, n, b) == (a1, ok, if ok then rs[0].count else 0)
  {
    hide AbsWrite, AbsWriteOver, AbsFile.IsDirectory;
    var ms := [WriteMove(b)];
    assert ms[1..] == [];
    var (a1, ok) := AbsOpen(a, n, MODE_WRITE);
    NewFileIsAFile();
    if ok && !a1.files[n].IsDirectory() {
      WriteAtStart(a1, n, b, bufs[0]);
      var (a2, w) := AbsWriteOver(a1, n, 0, b, bufs[0]);
      assert AbsMoves(a2, n, w, [], bufs[1..]) == (a2, w, []);
    }
  }

  lemma NewFileIsAFile()
    ensures !AbsFile(ATTR_ARCHIVE, [], 1, ATTR_ARCHIVE == ATTR_DIRECTORY).IsDirectory()
  {
  }

  /** The name of a file to be saved: one that the driver finds again if the file is there, one that the directory can
      hold if it is not. */
  predicate Savable(files: map<Name, AbsFile>, path: seq<Byte>)
  {
    var n := NameOf(path);
    if n in files then files[n].IsDirectory() || (IsCString(n) && Canonical(n)) else Storable(n)
  }

  /** Saving is the abstract save: create if missing, then overlay from the start. */
  lemma SaveRefines(v: Vol, path: seq<Byte>, b: seq<Byte>)
    requires Inv(v) && Addressable(v) && Savable(Files(v), path)
    ensures Shaped(v) && v.Bpc() > 0
    ensures var (v', ok, w) := Save(v, path, b);
            && Inv(v') && (Abs(v'), ok, w) == AbsSave(Abs(v), NameOf(path), b)
            && Gap(v'.PoolOf()) == Gap(v.PoolOf()) && Capacity(v') == Capacity(v)
  {
    hide Inv, Session, AbsSession, Gap, Shaped, To83, Canonical, IsCString, AbsFile.IsDirectory, Vol.RootEntries, Files;
    hide Abs, Storable;
    hide AbsSave;
    LoadedInv(v);
    AbsFields(v);
    SessionRefines(v, path, MODE_WRITE, [WriteMove(b)]);
    SaveSession(Abs(v), NameOf(path), b, SessionBuffers(v, path, MODE_WRITE, [WriteMove(b)]));
  }

  /** A freshly opened handle on a live file. */
  lemma FreshlyOpen(v: Vol, i: nat)
    requires Inv(v) && i < |v.RootEntries()| && v.RootEntries()[i].IsLive()
    ensures OpenAt(v, i, OpenCursor(v.RootEntries()[i].first, v.RootEntries()[i].size), 0)
  {
    hide Entries, DirOk, Partition, Fitting, Counted, Uniform, Contents, FileOf;
    LoadedInv(v);
    LiveChain(v, i);
    assert ChainsIn(v)[i] != [];
    hide IsChain;
  }

  /** What loading should deliver: the file's bytes, as many as asked for; nothing of a directory. */
  ghost function Loadable(files: map<Name, AbsFile>, name: Name, n: nat): Option<seq<Byte>>
  {
    if name !in files then None
    else if files[name].IsDirectory() then Some([])
    else Some(Ahead(files[name].bytes, 0, n))
  }

  /** Loading delivers that, and leaves everything but the buffer alone. */
  lemma LoadReturns(v: Vol, path: seq<Byte>, n: nat)
    requires Inv(v) && n < WORD
    ensures Shaped(v)
    ensures var (v', out) := Load(v, path, n);
            out == Loadable(Files(v), NameOf(path), n) && v' == v.(buf := v'.buf)
  {
    hide Inv, Entries, FileOf, Catalog, DirOk, Find, Read, To83, From83, AbsFile.IsDirectory, MarksDirectory, Ahead;
    hide Seek, Shaped, HandleOk, Coherent, CursorAt;
    LoadedInv(v);
    LoadedSame(v, v.root);
    FindIsLookup(v.RootEntries(), NameOf(path));
    if NameOf(path) in Files(v) {
      var i := Find(v.RootEntries(), NameOf(path), 0).value;
      FileIsDirectory(v, v.RootEntries()[i]);
      if !v.RootEntries()[i].IsDirectory() { ExistingRead(v.Loaded(v.root), i, n); }
    }
  }

  lemma ExistingRead(v: Vol, i: nat, n: nat)
    requires Inv(v) && i < |v.RootEntries()| && v.RootEntries()[i].IsLive() && n < WORD
    ensures Shaped(v) && v.Bpc() > 0
    ensures var e := v.RootEntries()[i]; var f := FileOf(v, e);
            var (v', h', out) := Read(v, OpenCursor(e.first, e.size), n);
            out == Ahead(f.bytes, 0, n) && v' == v.(buf := v'.buf)
  {
    hide Inv, Entries, ChainsIn, Read, Contents, Uniform;
    LoadedInv(v);
    LiveChain(v, i);
    FreshlyOpen(v, i);
    var e := v.RootEntries()[i];
    assert CursorAt(ChainsIn(v)[i], v.Bpc(), OpenCursor(e.first, e.size), 0);
    hide Shaped, CursorAt, Entry.IsLive;
    ReadReturnsContents(v, ChainsIn(v)[i], OpenCursor(e.first, e.size), n);
  }

  function BytesOf(a: AbsFs, n: Name): seq<Byte> { if n in a.files then a.files[n].bytes else [] }

  /** What an abstract save does to the saved file and to the others. */
  lemma AbsSaveEffect(a: AbsFs, n: Name, b: seq<Byte>)
    requires a.bpc > 0 && (n in a.files ==> !a.files[n].IsDirectory())
    ensures var (a1, ok, w) := AbsSave(a, n, b);
            && (ok <==> n in a.files || (a.free > 0 && a.slots > 0))
            && (ok ==>
                  n in a1.files && !a1.files[n].IsDirectory() && w <= |b|
                  && a1.files[n].bytes == Overlay(BytesOf(a, n), 0, b[..w]))
            && (ok ==> var f := if n in a.files then a.files[n] else AbsFile(ATTR_ARCHIVE, [], 1, false);
                       w == Accepted(if n in a.files then a else a.(free := a.free - 1), f, 0, |b|))
            && (forall m :: m in a.files && m != n ==> m in a1.files && a1.files[m] == a.files[m])
  {
    hide Overlay, Clusters;
    assert !AbsFile(ATTR_ARCHIVE, [], 1, false).IsDirectory();
  }

  /** Saving `b` and loading up to `n` bytes: what comes back is the accepted part of `b` followed by the old
      bytes behind it, and every other file is byte for byte what it was. */
  ghost predicate SavedAndLoaded(v: Vol, path: seq<Byte>, b: seq<Byte>, n: nat)
    requires Shaped(v)
  {
    var name := NameOf(path);
    var (v1, ok, w) := Save(v, path, b);
    && (ok <==> name in Files(v) || (v.free > 0 && Abs(v).slots > 0))
    && (ok ==> w <= |b| && var file := Overlay(BytesOf(Abs(v), name), 0, b[..w]);
               Load(v1, path, n).1 == Some(Ahead(file, 0, n)))
    && (forall m :: m in Files(v) && m != name ==> m in Files(v1) && Files(v1)[m] == Files(v)[m])
  }

  lemma SaveThenLoad(v: Vol, path: seq<Byte>, b: seq<Byte>, n: nat)
    requires Inv(v) && Addressable(v) && Savable(Files(v), path) && n < WORD
    requires NameOf(path) in Files(v) ==> !Files(v)[NameOf(path)].IsDirectory()
    ensures Shaped(v) && SavedAndLoaded(v, path, b, n)
  {
    hide Inv, Gap, Shaped, To83, Save, Load, AbsSave, Overlay, Files, VacantSlots, AbsFile.IsDirectory, Savable;
    hide Addressable;
    LoadedInv(v);
    SaveRefines(v, path, b);
    AbsSaveEffect(Abs(v), NameOf(path), b);
    LoadReturns(Save(v, path, b).0, path, n);
  }

  // ---- runs ----

  datatype Op =
    | SessionOp(path: seq<Byte>, mode: seq<Byte>, moves: seq<Move>)
    | DeleteOp(path: seq<Byte>)
    | MakeDirectoryOp(path: seq<Byte>)
    | RemoveDirectoryOp(path: seq<Byte>)
    | RenameOp(path: seq<Byte>, to: seq<Byte>)

  /** What the caller owes: see `SessionOk`; a name that the directory can hold for a directory or a name to be entered;
      and no leading slash for `fs_mkdir`. */
  predicate OpOk(files: map<Name, AbsFile>, op: Op, capacity: nat)
  {
    match op
    case SessionOp(path, mode, ms) => SessionOk(files, path, mode, ms, capacity)
    case MakeDirectoryOp(path) =>
      var p := SkipSpaces(path);
      p != [] ==> (NameOf(p) !in files ==> Storable(NameOf(p))) && Strip(p) == p
    case RenameOp(path, to) =>
      path != [] && to != [] && NameOf(path) in files && NameOf(to) !in files ==> Storable(NameOf(to))
    case _ => true
  }

  function Step(v: Vol, op: Op): (r: Vol)
    requires Shaped(v)
    ensures Shaped(r) && r.Bpc() == v.Bpc()
  {
    match op
    case SessionOp(path, mode, ms) => Session(v, path, mode, ms).0
    case DeleteOp(path) => if path == [] then v else DeleteFile(v, NameOf(path)).0
    case MakeDirectoryOp(path) =>
      var p := SkipSpaces(path);
      if p == [] then v else MakeDirectory(v, NameOf(p), To83(p)).0
    case RemoveDirectoryOp(path) => if path == [] then v else RemoveDirectory(v, NameOf(path)).0
    case RenameOp(path, to) => if path == [] || to == [] then v else RenameEntry(v, NameOf(path), NameOf(to)).0
  }

  /** What the shared buffer holds before each move of a session. */
  function StepBuffers(v: Vol, op: Op): (bufs: seq<seq<Byte>>)
    requires Shaped(v)
  {
    match op
    case SessionOp(path, mode, ms) => SessionBuffers(v, path, mode, ms)
    case _ => []
  }

  predicate BuffersOk(bpc: nat, op: Op, bufs: seq<seq<Byte>>)
  {
    bpc > 0 && (op.SessionOp? ==> |bufs| == |op.moves| && forall j :: 0 <= j < |bufs| ==> |bufs[j]| == bpc)
  }

  function AbsStep(a: AbsFs, op: Op, bufs: seq<seq<Byte>>): (r: AbsFs)
    requires BuffersOk(a.bpc, op, bufs)
    ensures r.bpc == a.bpc
  {
    match op
    case SessionOp(path, mode, ms) => AbsSession(a, NameOf(path), mode, ms, bufs).0
    case DeleteOp(path) => if path == [] then a else AbsDelete(a, NameOf(path)).0
    case MakeDirectoryOp(path) =>
      var p := SkipSpaces(path);
      if p == [] then a else AbsMakeDirectory(a, NameOf(p)).0
    case RemoveDirectoryOp(path) => if path == [] then a else AbsRemoveDirectory(a, NameOf(path)).0
    case RenameOp(path, to) => if path == [] || to == [] then a else AbsRename(a, NameOf(path), NameOf(to)).0
  }

  ghost predicate StepDone(v: Vol, op: Op, v': Vol)
  {
    && Shaped(v) && Inv(v') && |v'.fat| == |v.fat| && v'.Bpc() == v.Bpc() && Gap(v'.PoolOf()) == Gap(v.PoolOf())
    && BuffersOk(v.Bpc(), op, StepBuffers(v, op)) && Abs(v').bpc == v.Bpc()
    && Abs(v') == AbsStep(Abs(v), op, StepBuffers(v, op))
  }

  /** One command: the volume stays sound and the abstract file system makes the same step. */
  lemma StepRefines(v: Vol, op: Op)
    requires Inv(v) && Addressable(v) && OpOk(Files(v), op, Capacity(v))
    ensures Shaped(v) && StepDone(v, op, Step(v, op))
  {
    hide Inv, Gap, Shaped, Session, SessionBuffers, AbsSession, SessionOk, DeleteFile, MakeDirectory, RemoveDirectory;
    hide RenameEntry;
    hide To83, AbsCreate, AbsDelete, AbsMakeDirectory, AbsRemoveDirectory, AbsRename, Abs, Files, Storable;
    hide Vol.RootEntries;
    LoadedInv(v);
    AbsFields(v);
    AbsFields(Step(v, op));
    match op
    case SessionOp(path, mode, ms) => SessionRefines(v, path, mode, ms);
    case DeleteOp(path) => DeleteRefines(v, NameOf(path));
    case MakeDirectoryOp(path) => if SkipSpaces(path) != [] { MakeDirectoryRefines(v, NameOf(SkipSpaces(path))); }
    case RemoveDirectoryOp(path) => RemoveDirectoryRefines(v, NameOf(path));
    case RenameOp(path, to) => if path != [] && to != [] { RenameRefines(v, NameOf(path), NameOf(to)); }
  }

  function Run(v: Vol, ops: seq<Op>): (r: Vol)
    requires Shaped(v)
    decreases |ops|
  {
    if ops == [] then v else Run(Step(v, ops[0]), ops[1..])
  }

  /** The buffers of all the sessions of a run. */
  function Trace(v: Vol, ops: seq<Op>): (t: seq<seq<seq<Byte>>>)
    requires Shaped(v)
    ensures |t| == |ops|
    decreases |ops|
  {
    if ops == [] then [] else [StepBuffers(v, ops[0])] + Trace(Step(v, ops[0]), ops[1..])
  }

  // ---- what the caller owes does not depend on the buffer ----

  /** The same names, kinds, sizes and stocks. */
  predicate Alike(a: AbsFs, b: AbsFs)
  {
    && a.files.Keys == b.files.Keys && a.free == b.free && a.slots == b.slots && a.bpc == b.bpc
    && forall n :: n in a.files ==> AlikeFiles(a.files[n], b.files[n])
  }

  predicate AlikeFiles(f: AbsFile, g: AbsFile)
  {
    f.attr == g.attr && |f.bytes| == |g.bytes| && f.clusters == g.clusters && f.empty == g.empty
  }

  lemma AlikeWrite(a: AbsFs, b: AbsFs, n: Name, pos: nat, t: seq<Byte>, bufA: seq<Byte>, bufB: seq<Byte>)
    requires Alike(a, b) && n in a.files && pos <= |a.files[n].bytes| && |bufA| == |bufB| == a.bpc > 0
    ensures var (a', w) := AbsWriteOver(a, n, pos, t, bufA); var (b', u) := AbsWriteOver(b, n, pos, t, bufB);
            Alike(a', b') && w == u
  {
    hide Stale, Clusters, Overlay;
    assert AlikeFiles(a.files[n], b.files[n]);
  }

  lemma AlikeMove(a: AbsFs, b: AbsFs, n: Name, pos: nat, m: Move, bufA: seq<Byte>, bufB: seq<Byte>)
    requires Alike(a, b) && n in a.files && pos <= |a.files[n].bytes| && |bufA| == |bufB| == a.bpc > 0
    ensures n in b.files && pos <= |b.files[n].bytes|
    ensures var (a', p, _) := AbsMove(a, n, pos, m, bufA); var (b', q, _) := AbsMove(b, n, pos, m, bufB);
            Alike(a', b') && p == q
  {
    hide AbsWriteOver, Stale;
    assert AlikeFiles(a.files[n], b.files[n]);
    if m.WriteMove? { AlikeWrite(a, b, n, pos, m.bytes, bufA, bufB); }
  }

  lemma {:induction false} AlikeMoves(a: AbsFs, b: AbsFs, n: Name, pos: nat, ms: seq<Move>,
                                      bufsA: seq<seq<Byte>>, bufsB: seq<seq<Byte>>)
    requires Alike(a, b) && n in a.files && pos <= |a.files[n].bytes|
    requires BuffersFor(a, ms, bufsA) && BuffersFor(b, ms, bufsB)
    ensures n in b.files && pos <= |b.files[n].bytes|
    ensures Alike(AbsMoves(a, n, pos, ms, bufsA).0, AbsMoves(b, n, pos, ms, bufsB).0)
    decreases |ms|
  {
    hide AbsMove, Alike;
    AlikeNames(a, b, n);
    if ms != [] {
      AlikeMove(a, b, n, pos, ms[0], bufsA[0], bufsB[0]);
      var (a1, p, _) := AbsMove(a, n, pos, ms[0], bufsA[0]);
      var (b1, q, _) := AbsMove(b, n, pos, ms[0], bufsB[0]);
      AlikeMoves(a1, b1, n, p, ms[1..], bufsA[1..], bufsB[1..]);
    }
  }

  lemma AlikeNames(a: AbsFs, b: AbsFs, n: Name)
    requires Alike(a, b)
    ensures a.bpc == b.bpc && (n in a.files <==> n in b.files)
    ensures n in a.files ==> a.files[n].IsDirectory() == b.files[n].IsDirectory()
    ensures n in a.files ==> |a.files[n].bytes| == |b.files[n].bytes|
  {
    if n in a.files { assert AlikeFiles(a.files[n], b.files[n]); }
  }

  lemma SelfAlike(a: AbsFs)
    ensures Alike(a, a)
  {
  }

  lemma AlikeClusters(a: AbsFs, b: AbsFs)
    requires Alike(a, b)
    ensures a.bpc == b.bpc
  {
  }

  lemma AlikeOpen(a: AbsFs, b: AbsFs, n: Name, mode: seq<Byte>)
    requires Alike(a, b)
    ensures Alike(AbsOpen(a, n, mode).0, AbsOpen(b, n, mode).0) && AbsOpen(a, n, mode).1 == AbsOpen(b, n, mode).1
    ensures OpenPos(a, n, mode) == OpenPos(b, n, mode)
  {
    AlikeNames(a, b, n);
  }

  lemma AlikeSession(a: AbsFs, b: AbsFs, n: Name, mode: seq<Byte>, ms: seq<Move>,
                     bufsA: seq<seq<Byte>>, bufsB: seq<seq<Byte>>)
    requires Alike(a, b) && BuffersFor(a, ms, bufsA) && BuffersFor(b, ms, bufsB)
    ensures Alike(AbsSession(a, n, mode, ms, bufsA).0, AbsSession(b, n, mode, ms, bufsB).0)
  {
    hide AbsMoves, AbsFile.IsDirectory, Alike;
    AlikeOpen(a, b, n, mode);
    var (a1, ok) := AbsOpen(a, n, mode);
    var (b1, _) := AbsOpen(b, n, mode);
    AlikeNames(a1, b1, n);
    if ok && !a1.files[n].IsDirectory() {
      OpensInside(a, n, mode);
      AlikeMoves(a1, b1, n, OpenPos(a, n, mode), ms, bufsA, bufsB);
    }
  }

  lemma OpensInside(a: AbsFs, n: Name, mode: seq<Byte>)
    ensures var (a1, ok) := AbsOpen(a, n, mode); ok ==> n in a1.files && OpenPos(a, n, mode) <= |a1.files[n].bytes|
  {
  }

  lemma AlikeRemoved(a: AbsFs, b: AbsFs, n: Name)
    requires Alike(a, b) && n in a.files
    ensures n in b.files && Alike(AbsRemove(a, n), AbsRemove(b, n))
  {
    assert AlikeFiles(a.files[n], b.files[n]);
  }

  lemma AlikeRenamed(a: AbsFs, b: AbsFs, from: Name, to: Name)
    requires Alike(a, b)
    ensures Alike(AbsRename(a, from, to).0, AbsRename(b, from, to).0)
  {
    if from in a.files { assert AlikeFiles(a.files[from], b.files[from]); }
  }

  lemma AlikeStep(a: AbsFs, b: AbsFs, op: Op, bufsA: seq<seq<Byte>>, bufsB: seq<seq<Byte>>)
    requires Alike(a, b) && BuffersOk(a.bpc, op, bufsA) && BuffersOk(b.bpc, op, bufsB)
    ensures Alike(AbsStep(a, op, bufsA), AbsStep(b, op, bufsB))
  {
    hide AbsSession, AbsRemove, AbsRename, AbsFile.IsDirectory;
    match op
    case SessionOp(path, mode, ms) => AlikeSession(a, b, NameOf(path), mode, ms, bufsA, bufsB);
    case DeleteOp(path) => AlikeGone(a, b, NameOf(path));
    case MakeDirectoryOp(path) => AlikeNames(a, b, NameOf(SkipSpaces(path)));
    case RemoveDirectoryOp(path) => AlikeGone(a, b, NameOf(path));
    case RenameOp(path, to) => AlikeRenamed(a, b, NameOf(path), NameOf(to));
  }

  lemma AlikeGone(a: AbsFs, b: AbsFs, n: Name)
    requires Alike(a, b)
    ensures Alike(AbsDelete(a, n).0, AbsDelete(b, n).0) && Alike(AbsRemoveDirectory(a, n).0, AbsRemoveDirectory(b, n).0)
  {
    hide AbsRemove, AbsFile.IsDirectory;
    AlikeNames(a, b, n);
    if n in a.files {
      assert AlikeFiles(a.files[n], b.files[n]);
      AlikeRemoved(a, b, n);
    }
  }

  lemma AlikeOk(a: AbsFs, b: AbsFs, op: Op, capacity: nat)
    requires Alike(a, b) && OpOk(a.files, op, capacity)
    ensures OpOk(b.files, op, capacity)
  {
    hide Alike, AbsFile.IsDirectory, Canonical, IsCString, To83;
    match op
    case SessionOp(path, mode, ms) => AlikeNames(a, b, NameOf(path));
    case MakeDirectoryOp(path) => AlikeNames(a, b, NameOf(SkipSpaces(path)));
    case RenameOp(path, to) => AlikeNames(a, b, NameOf(path)); AlikeNames(a, b, NameOf(to));
    case _ =>
  }

  // ---- whole runs ----

  /** Any buffers will do to see which commands are in order. */
  function Blank(bpc: nat, op: Op): (bufs: seq<seq<Byte>>)
    requires bpc > 0
    ensures BuffersOk(bpc, op, bufs)
  {
    if op.SessionOp? then seq(|op.moves|, _ => Zeros(bpc)) else []
  }

  /** Every command of the run is in order when its turn comes. */
  predicate RunOk(a: AbsFs, ops: seq<Op>, capacity: nat)
    requires a.bpc > 0
    decreases |ops|
  {
    ops == [] ||
      (OpOk(a.files, ops[0], capacity) && RunOk(AbsStep(a, ops[0], Blank(a.bpc, ops[0])), ops[1..], capacity))
  }

  predicate TraceFits(bpc: nat, ops: seq<Op>, trace: seq<seq<seq<Byte>>>)
  {
    |trace| == |ops| && forall j :: 0 <= j < |ops| ==> BuffersOk(bpc, ops[j], trace[j])
  }

  function AbsRun(a: AbsFs, ops: seq<Op>, trace: seq<seq<seq<Byte>>>): AbsFs
    requires TraceFits(a.bpc, ops, trace)
    decreases |ops|
  {
    if ops == [] then a
    else
      assert forall j :: 0 <= j < |ops| - 1 ==> BuffersOk(a.bpc, ops[1..][j], trace[1..][j]);
      AbsRun(AbsStep(a, ops[0], trace[0]), ops[1..], trace[1..])
  }

  ghost predicate RunDone(v: Vol, ops: seq<Op>, v': Vol)
  {
    && Shaped(v) && TraceFits(v.Bpc(), ops, Trace(v, ops)) && Inv(v') && |v'.fat| == |v.fat| && v'.Bpc() == v.Bpc()
    && Abs(v').bpc == v.Bpc()
    && Abs(v') == AbsRun(Abs(v), ops, Trace(v, ops)) && Gap(v'.PoolOf()) == Gap(v.PoolOf())
  }

  /** Every run of commands keeps the volume sound, behaves like the run on the map of files, and never
      moves the gap between the free counter and the true number of free clusters. */
  lemma RunRefines(v: Vol, ops: seq<Op>)
    requires Inv(v) && Addressable(v) && v.Bpc() > 0 && RunOk(Abs(v), ops, Capacity(v))
    ensures Shaped(v) && RunDone(v, ops, Run(v, ops))
  {
    hide Inv, Abs, RunDone, RunOk, Addressable, Alike;
    LoadedInv(v);
    AbsFields(v);
    SelfAlike(Abs(v));
    RunRefinesFrom(v, Abs(v), ops);
  }

  /** The run from any state that looks like the volume. */
  lemma {:induction false} RunRefinesFrom(v: Vol, a: AbsFs, ops: seq<Op>)
    requires Inv(v) && Shaped(v) && Addressable(v) && Alike(a, Abs(v)) && a.bpc > 0 && RunOk(a, ops, Capacity(v))
    ensures RunDone(v, ops, Run(v, ops))
    decreases |ops|
  {
    hide Inv, Gap, Shaped, Step, StepBuffers, AbsStep, Abs, OpOk, BuffersOk, Vol.RootEntries, Files, StepDone, Alike;
    AbsFields(v);
    AlikeClusters(a, Abs(v));
    if ops != [] {
      AlikeOk(a, Abs(v), ops[0], Capacity(v));
      StepRefines(v, ops[0]);
      var v1 := Step(v, ops[0]);
      StepParts(v, ops[0], v1);
      AlikeStep(a, Abs(v), ops[0], Blank(a.bpc, ops[0]), StepBuffers(v, ops[0]));
      assert Trace(v, ops)[1..] == Trace(v1, ops[1..]);
      RunRefinesFrom(v1, AbsStep(a, ops[0], Blank(a.bpc, ops[0])), ops[1..]);
      RunJoins(v, ops, v1, Run(v, ops));
    }
  }

  lemma RunJoins(v: Vol, ops: seq<Op>, v1: Vol, v': Vol)
    requires ops != [] && Shaped(v) && v1 == Step(v, ops[0]) && StepDone(v, ops[0], v1)
    requires RunDone(v1, ops[1..], v')
    ensures RunDone(v, ops, v')
  {
    hide Inv, Gap, Shaped, Step, StepBuffers, AbsStep, Abs, OpOk, BuffersOk, Vol.RootEntries, Files;
    AbsFields(v);
    var t := Trace(v, ops);
    assert t[1..] == Trace(v1, ops[1..]);
    forall j | 0 <= j < |ops|
      ensures BuffersOk(v.Bpc(), ops[j], t[j])
    {
      if j > 0 { assert ops[j] == ops[1..][j - 1] && t[j] == t[1..][j - 1]; }
    }
  }

  lemma StepParts(v: Vol, op: Op, v': Vol)
    requires StepDone(v, op, v')
    ensures Shaped(v) && Inv(v') && Capacity(v') == Capacity(v) && Gap(v'.PoolOf()) == Gap(v.PoolOf())
    ensures v'.Bpc() == v.Bpc() && |v'.fat| == |v.fat|
    ensures BuffersOk(v.Bpc(), op, StepBuffers(v, op)) && Abs(v').bpc == v.Bpc() && Abs(v).bpc == v.Bpc()
    ensures Abs(v') == AbsStep(Abs(v), op, StepBuffers(v, op))
  {
    hide Inv, AbsStep, StepBuffers, BuffersOk, Gap;
  }
}
