/**
 Commands over open files, on the driver itself: a save as the `write` command makes it, and the two writes of the
 `echo` command. On the mounted volume they are the sessions of `Runs`, and so the abstract ones.
 */
module Commands {
  import opened Bytes
  import opened FatImage
  import opened Names
  import opened Directory
  import opened VolumeState
  import opened FileContent
  import opened VolumeOps
  import opened AbstractFs
  import opened Refinement
  import opened Writes
  import opened OpenHandles
  import opened Sessions
  import opened Runs
  import opened Driver
  import opened DriverDirectory
  import opened DriverFiles

  const MODE_APPEND: seq<Byte> := [97]
  const LINE_END: seq<Byte> := [10]

  /** A handle is left. */
  ghost predicate SomeFree(hs: seq<FileHandle>)
    reads hs
  {
    exists h :: h in hs && !h.inUse
  }

  /** Every handle is as free as it was. */
  twostate predicate SameUse(hs: seq<FileHandle>)
    reads hs
  {
    forall h :: h in hs ==> h.inUse == old(h.inUse)
  }

  // ---- one write through the handle just opened ----

  /** A handle on a directory, or one in order on the file of that name. */
  ghost predicate Ready(v: Vol, h: FileHandle, i: nat, name: Name)
    reads h
  {
    h.inUse && (h.isDirectory || Handled(v, i, h.At(), name))
  }

  lemma OpenedIsReady(v: Vol, path: seq<Byte>, mode: seq<Byte>, v1: Vol, o: Opened, h: FileHandle, i: nat)
    requires OpenedOn(v, path, mode, v1, o, i) && Holds(h, o)
    ensures Ready(v1, h, i, NameOf(path))
  {
    hide Handled, MarksDirectory;
  }

  /** What a write through an opened handle does: nothing on a directory. */
  ghost predicate WroteThrough(v: Vol, o: Opened, b: seq<Byte>, v': Vol, h': Cursor, n: nat)
  {
    if MarksDirectory(o.attr) then v' == v && n == 0 else WroteFile(v, o.cursor, To83(o.filename), b, v', h', n)
  }

  method WriteOnce(fs: Volume, h: FileHandle, src: seq<Byte>, ghost o: Opened, ghost i: nat, ghost name: Name)
      returns (n: nat)
    requires fs.Valid() && fs.mounted && Holds(h, o) && Ready(fs.State(), h, i, name)
    modifies fs.ramdisk, fs.buffer, fs`mirrored, fs`freeClusters, fs`nextFree
    modifies h`position, h`clusterOffset, h`currentCluster, h`firstCluster, h`fileSize
    ensures fs.Valid() && fs.mirrored >= old(fs.mirrored)
    ensures WroteThrough(old(fs.State()), o, src, fs.State(), h.At(), n)
    ensures h.isDirectory || To83(h.filename) == name ==> Ready(fs.State(), h, i, name)
  {
    hide FatTable, ClusterTable, Mirrored, Fits, Inv, WriteFile, WroteFile, To83, OpenOn, Handled, WroteSoundly;
    hide Volume.State;
    hide Volume.Valid, MarksDirectory;
    ghost var v := fs.State();
    ghost var k: nat := 0;
    if !h.isDirectory { k := HandledOpen(v, i, h.At(), name); }
    n := WriteTo(fs, h, src, i, k);
    if !h.isDirectory && To83(h.filename) == name { SoundIsHandled(v, i, o.cursor, name, src, fs.State(), h.At(), n); }
  }

  lemma HandledOpen(v: Vol, i: nat, h: Cursor, name: Name) returns (k: nat)
    requires Handled(v, i, h, name)
    ensures OpenOn(v, h, i, k)
  {
    k := HandledPlaced(v, i, h, name);
  }

  lemma SoundIsHandled(v: Vol, i: nat, h: Cursor, name: Name, b: seq<Byte>, v': Vol, h': Cursor, n: nat)
    requires WroteSoundly(v, i, h, name, b, v', h', n)
    ensures Handled(v', i, h', name)
  {
  }

  // ---- save ----

  /** The command's result on the state. */
  ghost predicate SavedAs(v: Vol, path: seq<Byte>, b: seq<Byte>, v': Vol, ok: bool, n: nat)
  {
    Shaped(v) && (v', ok, n) == Save(v, path, b)
  }

  /** It is the save on the map of files. */
  ghost predicate SavedSoundly(v: Vol, path: seq<Byte>, b: seq<Byte>, v': Vol, ok: bool, n: nat)
  {
    v.Bpc() > 0 && Inv(v') && (Abs(v'), ok, n) == AbsSave(Abs(v), NameOf(path), b)
  }

  /** Opening and writing make up the save. */
  lemma SaveIs(v: Vol, path: seq<Byte>, b: seq<Byte>, v1: Vol, o: Option<Opened>, v': Vol, h': Cursor, n: nat)
    requires OpenedAs(v, path, MODE_WRITE, v1, o)
    requires if o.Some? then WroteThrough(v1, o.value, b, v', h', n) else v' == v1 && n == 0
    ensures SavedAs(v, path, b, v', o.Some?, n)
  {
    hide WriteFile, To83, Open, Shaped, MarksDirectory;
    if o.Some? && !MarksDirectory(o.value.attr) {
      assert [WriteMove(b)][1..] == [];
      assert Moves(v', h', To83(o.value.filename), []) == (v', h', []);
    }
  }

  lemma SavesSoundly(v: Vol, path: seq<Byte>, b: seq<Byte>, v': Vol, ok: bool, n: nat)
    requires Inv(v) && Addressable(v) && SavedAs(v, path, b, v', ok, n) && Savable(Files(v), path)
    ensures SavedSoundly(v, path, b, v', ok, n)
  {
    hide Inv, Abs, AbsSave, Save, Savable, Addressable;
    SaveRefines(v, path, b);
  }

  lemma OpensReady(v: Vol, path: seq<Byte>, mode: seq<Byte>) returns (i: nat)
    requires Inv(v) && Addressable(v) && (Creates(mode) && NameOf(path) !in Files(v) ==> Storable(NameOf(path)))
    ensures forall v1: Vol, o: Option<Opened> :: OpenedAs(v, path, mode, v1, o) && o.Some? ==>
            OpenedOn(v, path, mode, v1, o.value, i)
  {
    hide Inv, Open, OpenedOn, Shaped, Storable, To83, Abs, Files, Addressable, AbsOpen;
    i := OpenGivesHandle(v, path, mode);
  }

  /** The save on the state, and, if the driver finds the file's name again, on the map of files. */
  ghost predicate SaveDone(v: Vol, path: seq<Byte>, b: seq<Byte>, v': Vol, ok: bool, n: nat)
  {
    SavedAs(v, path, b, v', ok, n) && (Savable(Files(v), path) ==> SavedSoundly(v, path, b, v', ok, n))
  }

  /** `write`: open, write, close. */
  method SaveFile(fs: Volume, path: seq<Byte>, src: seq<Byte>) returns (ok: bool, n: nat)
    requires fs.Valid() && fs.mounted && MayEnter(fs.State(), NameOf(path))
    requires SomeFree(fs.handles)
    modifies fs.ramdisk, fs.buffer, fs`mirrored, fs`freeClusters, fs`nextFree, fs.handles
    ensures fs.Valid() && fs.mirrored >= old(fs.mirrored)
    ensures SaveDone(old(fs.State()), path, src, fs.State(), ok, n)
    ensures SameUse(fs.handles)
  {
    hide FatTable, ClusterTable, Mirrored, Fits, Inv, To83, Open, OpenedAs, OpenedOn, SavedAs, SavedSoundly, Shaped;
    hide Storable, Ready;
    hide Volume.State, Volume.Valid, Savable, Addressable, WroteThrough, Files;
    ghost var v := fs.State();
    fs.StateAddressable();
    ghost var i := OpensReady(v, path, MODE_WRITE);
    ok, n := false, 0;
    var h, o := OpenFile(fs, path, MODE_WRITE);
    ghost var v1 := fs.State();
    if h != null {
      ok := true;
      OpenedIsReady(v, path, MODE_WRITE, v1, o.value, h, i);
      n := WriteOnce(fs, h, src, o.value, i, NameOf(path));
      fs.Close(h);
    }
    SaveIs(v, path, src, v1, o, fs.State(), if h == null then OpenCursor(0, 0) else h.At(), n);
    if Savable(Files(v), path) { SavesSoundly(v, path, src, fs.State(), ok, n); }
  }

  // ---- echo ----

  function EchoMode(append: bool): seq<Byte> { if append then MODE_APPEND else MODE_WRITE }

  function EchoMoves(text: seq<Byte>): seq<Move> { [WriteMove(text), WriteMove(LINE_END)] }

  /** The command is the session of its two writes, on the map of files too. */
  ghost predicate Echoed(v: Vol, path: seq<Byte>, mode: seq<Byte>, text: seq<Byte>, v': Vol, ok: bool)
  {
    Shaped(v) && var r := Session(v, path, mode, EchoMoves(text));
                 v' == r.0 && ok == r.1 && SessionDone(v, path, mode, EchoMoves(text), v', ok, r.2)
  }

  lemma TwoWritesAreMoves(v: Vol, h: Cursor, name: Name, a: seq<Byte>, v1: Vol, h1: Cursor, n1: nat,
      v2: Vol, h2: Cursor, n2: nat)
    requires WroteFile(v, h, name, a, v1, h1, n1) && WroteFile(v1, h1, name, LINE_END, v2, h2, n2)
    ensures Moves(v, h, name, EchoMoves(a)) == (v2, h2, [Reply([], n1), Reply([], n2)])
  {
    hide WriteFile, Shaped;
    var ms := EchoMoves(a);
    assert ms[1..] == [WriteMove(LINE_END)] && ms[1..][1..] == [];
    assert MakeMove(v, h, name, ms[0]) == (v1, h1, Reply([], n1));
    assert MakeMove(v1, h1, name, ms[1..][0]) == (v2, h2, Reply([], n2));
    assert Moves(v2, h2, name, ms[1..][1..]) == (v2, h2, []);
    assert Moves(v1, h1, name, ms[1..]) == (v2, h2, [Reply([], n2)] + []);
    assert [Reply([], n1)] + ([Reply([], n2)] + []) == [Reply([], n1), Reply([], n2)];
  }

  /** Opening and two writes make up the session. */
  lemma EchoIs(v: Vol, path: seq<Byte>, mode: seq<Byte>, text: seq<Byte>, v1: Vol, o: Option<Opened>,
               v2: Vol, h2: Cursor, n2: nat, v3: Vol, h3: Cursor, n3: nat)
    requires OpenedAs(v, path, mode, v1, o)
    requires if o.None? then v3 == v1
             else if MarksDirectory(o.value.attr) then v3 == v1
             else && WroteFile(v1, o.value.cursor, To83(o.value.filename), text, v2, h2, n2)
                  && WroteFile(v2, h2, To83(o.value.filename), LINE_END, v3, h3, n3)
    requires Inv(v) && Addressable(v) && SessionOk(Files(v), path, mode, EchoMoves(text), Capacity(v))
    ensures Echoed(v, path, mode, text, v3, o.Some?)
  {
    hide WriteFile, To83, Open, Shaped, MarksDirectory, Inv, Moves, SessionDone, SessionOk, Abs, Files, WroteFile;
    SessionRefines(v, path, mode, EchoMoves(text));
    if o.Some? && !MarksDirectory(o.value.attr) {
      TwoWritesAreMoves(v1, o.value.cursor, To83(o.value.filename), text, v2, h2, n2, v3, h3, n3);
    }
  }

  /** A file to be saved may be written in a session. */
  lemma SavableSession(v: Vol, path: seq<Byte>, mode: seq<Byte>, text: seq<Byte>)
    requires Savable(Files(v), path)
    ensures SessionOk(Files(v), path, mode, EchoMoves(text), Capacity(v))
    ensures Creates(mode) && NameOf(path) !in Files(v) ==> Storable(NameOf(path))
  {
    hide Canonical, IsCString, To83, Files;
  }

  /** The name that the handle keeps is the one that was opened. */
  lemma SavableName(v: Vol, path: seq<Byte>, mode: seq<Byte>, v1: Vol, o: Opened, i: nat)
    requires Savable(Files(v), path) && Inv(v) && OpenDone(v, path, mode, v1, Some(o), i) && !MarksDirectory(o.attr)
    ensures To83(o.filename) == NameOf(path)
  {
    hide Canonical, IsCString, To83, From83, Inv, Handled, Abs, AbsCreate, Files, AbsFile.IsDirectory, MarksDirectory;
    AbsFields(v);
    AbsFields(v1);
    if NameOf(path) in Files(v) { RoundTripIffCanonical(NameOf(path)); }
  }

  lemma OpensNamed(v: Vol, path: seq<Byte>, mode: seq<Byte>) returns (i: nat)
    requires Inv(v) && Addressable(v) && Savable(Files(v), path)
    ensures forall v1: Vol, o: Option<Opened> :: OpenedAs(v, path, mode, v1, o) && o.Some? ==>
              OpenedOn(v, path, mode, v1, o.value, i)
                  && (!MarksDirectory(o.value.attr) ==> To83(o.value.filename) == NameOf(path))
  {
    hide Inv, Open, OpenedOn, Shaped, Storable, To83, Abs, Files, Addressable, AbsOpen, Savable, MarksDirectory;
    SavableSession(v, path, mode, []);
    i := OpenGivesHandle(v, path, mode);
    var (v1, o) := Open(v, path, mode);
    if o.Some? && !MarksDirectory(o.value.attr) { SavableName(v, path, mode, v1, o.value, i); }
  }

  ghost predicate MaySave(v: Vol, path: seq<Byte>) { Inv(v) && Savable(Files(v), path) }

  /** `echo text > path` and `echo text >> path`: open, write the text, write a newline, close. */
  method Echo(fs: Volume, path: seq<Byte>, text: seq<Byte>, append: bool) returns (ok: bool)
    requires fs.Valid() && fs.mounted && MaySave(fs.State(), path)
    requires SomeFree(fs.handles)
    modifies fs.ramdisk, fs.buffer, fs`mirrored, fs`freeClusters, fs`nextFree, fs.handles
    ensures fs.Valid() && fs.mirrored >= old(fs.mirrored)
    ensures Echoed(old(fs.State()), path, EchoMode(append), text, fs.State(), ok)
    ensures SameUse(fs.handles)
  {
    hide FatTable, ClusterTable, Mirrored, Fits, Inv, To83, Open, OpenedAs, OpenedOn, Echoed, Shaped, Ready;
    hide MarksDirectory;
    hide Volume.State, Volume.Valid, Savable, Addressable, WroteFile, Files, SessionOk;
    var mode := EchoMode(append);
    ghost var v := fs.State();
    fs.StateAddressable();
    SavableSession(v, path, mode, text);
    ghost var i := OpensNamed(v, path, mode);
    ok := false;
    var h, o := OpenFile(fs, path, mode);
    ghost var v1 := fs.State();
    ghost var v2, h2, n2, h3, n3 := v1, OpenCursor(0, 0), 0, OpenCursor(0, 0), 0;
    if h != null {
      ok := true;
      OpenedIsReady(v, path, mode, v1, o.value, h, i);
      var first := WriteOnce(fs, h, text, o.value, i, NameOf(path));
      v2, h2, n2 := fs.State(), h.At(), first;
      StillHolds(h, o.value);
      var second := WriteOnce(fs, h, LINE_END, o.value.(cursor := h.At()), i, NameOf(path));
      h3, n3 := h.At(), second;
      fs.Close(h);
    }
    EchoIs(v, path, mode, text, v1, o, v2, h2, n2, fs.State(), h3, n3);
  }

  lemma StillHolds(h: FileHandle, o: Opened)
    requires h.inUse && h.attributes == o.attr && h.filename == o.filename && h.isDirectory == MarksDirectory(o.attr)
    ensures Holds(h, o.(cursor := h.At()))
  {
  }

  /** "w" is 119, "a" 97, "r" 114, and a line ends with 10. */
  lemma EchoBytes(text: seq<Byte>)
    ensures EchoMode(true) == [97] && EchoMode(false) == [119] && MODE_READ == [114] && MODE_WRITE == [119]
    ensures EchoMoves(text) == [WriteMove(text), WriteMove([10])]
  {
  }
}
