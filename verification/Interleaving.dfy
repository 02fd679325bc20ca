/**
 Several open files at once. Handles on different files share the one cluster buffer, and nothing else: whatever is
 done through one of them, the others stay in order. So any interleaving of reads, seeks and writes is the same
 interleaving on the map of files, given what each call finds in the buffer.
 */
module Interleaving {
  import opened Bytes
  import opened Allocator
  import opened Directory
  import opened VolumeState
  import opened FileContent
  import opened FileWrite
  import opened VolumeOps
  import opened AbstractFs
  import opened Refinement
  import opened Writes
  import opened OpenHandles
  import opened Sessions

  // ---- one call and the other handles ----

  /** What a write through entry `i` does to directory and chains: a new size, and clusters for that entry only. */
  ghost predicate OnlyEntry(v: Vol, v': Vol, i: nat)
  {
    && Inv(v') && i < |v.RootEntries()| && |v'.RootEntries()| == |v.RootEntries()|
    && forall j: nat :: j < |v.RootEntries()| && j != i ==>
         v'.RootEntries()[j] == v.RootEntries()[j] && ChainsIn(v')[j] == ChainsIn(v)[j]
  }

  lemma WriteKeepsOthers(v: Vol, i: nat, h: Cursor, name: Name, b: seq<Byte>)
    requires Handled(v, i, h, name)
    ensures Shaped(v) && h.off < v.Bpc() && OnlyEntry(v, WriteFile(v, h, name, b).0, i)
  {
    hide Inv, Entries, Vol.RootEntries, FileOf, ChainsIn, Handled, WriteLoop, UpdateSize, Imposed, WritableAt, Shaped;
    hide WroteOver;
    HandledEntryIs(v, i, h, name);
    WriteRefines(v, i, h, name, b);
    WroteInv(v, i, h, name, b);
    if b != [] {
      var k := ImposedWritable(v, i, h, name);
      ImposedSame(v, i, h, name);
      WritableEntry(Imposed(v, h), i, h, k, b);
      WriteIgnoresDisk(v, h, b);
    } else {
      var buf, k := CoherentBuffer(v, i, h, name);
      HandledInv(v, i, h, name);
      BufferUnseen(v, buf);
      WritableEntry(v.(buf := buf), i, h, k, b);
      NothingToWrite(v, h);
      NothingToWrite(v.(buf := buf), h);
      UpdateSizeIgnoresBuffer(v, buf, name, h.size);
    }
  }

  lemma HandledEntryIs(v: Vol, i: nat, h: Cursor, name: Name)
    requires Handled(v, i, h, name)
    ensures i < |v.RootEntries()| && v.RootEntries()[i].name == name && Shaped(v) && h.off < v.Bpc()
    ensures Addressable(v)
  {
    var k := HandledPlaced(v, i, h, name);
  }

  lemma WroteInv(v: Vol, i: nat, h: Cursor, name: Name, b: seq<Byte>)
    requires Handled(v, i, h, name)
    ensures Shaped(v) && h.off < v.Bpc() && Inv(WriteFile(v, h, name, b).0)
  {
    hide Inv, Handled, WriteFile, Abs, Files, AbsWriteOver, Gap, Shaped;
    HandledFile(v, i, h, name);
    WriteRefines(v, i, h, name, b);
    var (v', h', w) := WriteFile(v, h, name, b);
    HandledInv(v', i, h', name);
  }

  lemma OthersHandled(v: Vol, v': Vol, i: nat, j: nat, g: Cursor, other: Name)
    requires Handled(v, j, g, other) && OnlyEntry(v, v', i) && i != j && |v'.fat| == |v.fat| && v'.Bpc() == v.Bpc()
    ensures Handled(v', j, g, other)
  {
    hide Inv, Entries, ChainsIn, Entry.IsLive, Entry.IsDirectory, Partition, Counted;
    LiveChain(v', j);
    assert ChainsIn(v')[j] == ChainsIn(v)[j];
    var k: nat :| CursorAt(ChainsIn(v)[j], v.Bpc(), g, k);
    assert CursorAt(ChainsIn(v')[j], v'.Bpc(), g, k);
  }

  /** Whatever is done through one handle, a handle on another file stays in order. */
  lemma OtherHandleKept(v: Vol, i: nat, h: Cursor, name: Name, m: Move, j: nat, g: Cursor, other: Name)
    requires Handled(v, i, h, name) && MoveFits(m, Capacity(v)) && Handled(v, j, g, other) && name != other
    ensures Shaped(v) && h.off < v.Bpc()
    ensures Handled(MakeMove(v, h, name, m).0, j, g, other)
  {
    hide Inv, Handled, Read, WriteFile, Seek, Vol.RootEntries, Shaped, MoveDone, OnlyEntry;
    HandledEntryIs(v, i, h, name);
    HandledEntryIs(v, j, g, other);
    MoveRefines(v, i, h, name, m);
    match m
    case ReadMove(n) =>
      ReadChangesBuffer(v, i, h, name, n);
      HandledUnder(v, Read(v, h, n).0.buf, j, g, other);
    case SeekMove(t) =>
    case WriteMove(b) =>
      WriteKeepsOthers(v, i, h, name, b);
      MoveSizes(v, i, h, name, m);
      OthersHandled(v, WriteFile(v, h, name, b).0, i, j, g, other);
  }

  lemma MoveSizes(v: Vol, i: nat, h: Cursor, name: Name, m: Move)
    requires Handled(v, i, h, name) && MoveFits(m, Capacity(v))
    ensures Shaped(v) && h.off < v.Bpc()
    ensures var v' := MakeMove(v, h, name, m).0; |v'.fat| == |v.fat| && v'.Bpc() == v.Bpc()
  {
    hide Inv, Handled, MakeMove, AbsMove, Abs, Files, Shaped, Gap;
    MoveRefines(v, i, h, name, m);
  }

  lemma ReadChangesBuffer(v: Vol, i: nat, h: Cursor, name: Name, n: nat)
    requires Handled(v, i, h, name) && MoveFits(ReadMove(n), Capacity(v))
    ensures Shaped(v) && h.off < v.Bpc()
    ensures var v' := Read(v, h, n).0; v' == v.(buf := v'.buf) && |v'.buf| == |v.buf|
  {
    hide Inv, Handled, Read, Shaped, Abs, Files, Stale;
    HandleBelow(v, i, h, name);
    ReadRefines(v, i, h, name, n);
  }

  lemma HandledUnder(v: Vol, buf: seq<Byte>, j: nat, g: Cursor, other: Name)
    requires Handled(v, j, g, other) && |buf| == |v.buf|
    ensures Handled(v.(buf := buf), j, g, other)
  {
    var k := HandledPlaced(v, j, g, other);
    hide Inv, Handled, CursorAt, ChainsIn, Placed, Shaped;
    HandleOnChain(v, j, g, other);
    HandledMoved(v, buf, j, g, g, other, k);
  }

  lemma HandleOnChain(v: Vol, j: nat, g: Cursor, other: Name)
    requires Handled(v, j, g, other)
    ensures g.pos <= g.size
  {
    HandledFile(v, j, g, other);
  }

  // ---- interleavings ----

  /** An open handle: its entry, the name it was opened under, and its cursor. */
  datatype Slot = Slot(i: nat, name: Name, at: Cursor)

  /** What is left of it on the map of files. */
  datatype Place = Place(name: Name, pos: nat)

  /** A move through handle `j`. */
  datatype Turn = Turn(j: nat, move: Move)

  ghost predicate OnFile(v: Vol, s: Slot) { Handled(v, s.i, s.at, s.name) }

  /** Open handles on different files of a sound volume. */
  ghost predicate AllOpen(v: Vol, hs: seq<Slot>)
  {
    && Inv(v)
    && (forall j :: 0 <= j < |hs| ==> OnFile(v, hs[j]))
    && (forall j, k :: 0 <= j < k < |hs| ==> hs[j].name != hs[k].name)
  }

  function Places(hs: seq<Slot>): (ps: seq<Place>)
    ensures |ps| == |hs| && forall j :: 0 <= j < |hs| ==> ps[j] == Place(hs[j].name, hs[j].at.pos)
  {
    seq(|hs|, (j: nat) requires j < |hs| => Place(hs[j].name, hs[j].at.pos))
  }

  predicate InOrder(bpc: nat, hs: seq<Slot>, ts: seq<Turn>)
  {
    (forall j :: 0 <= j < |hs| ==> hs[j].at.off < bpc) && (forall j :: 0 <= j < |ts| ==> ts[j].j < |hs|)
  }

  function Turns(v: Vol, hs: seq<Slot>, ts: seq<Turn>): (r: (Vol, seq<Slot>, seq<Reply>))
    requires Shaped(v) && InOrder(v.Bpc(), hs, ts)
    decreases |ts|
  {
    if ts == [] then (v, hs, [])
    else
      var s := hs[ts[0].j];
      var (v1, h1, r) := MakeMove(v, s.at, s.name, ts[0].move);
      var (v2, hs2, rs) := Turns(v1, hs[ts[0].j := s.(at := h1)], ts[1..]);
      (v2, hs2, [r] + rs)
  }

  /** What the shared buffer holds before each of the turns. */
  function TurnBuffers(v: Vol, hs: seq<Slot>, ts: seq<Turn>): (bufs: seq<seq<Byte>>)
    requires Shaped(v) && InOrder(v.Bpc(), hs, ts)
    ensures |bufs| == |ts| && forall j :: 0 <= j < |bufs| ==> |bufs[j]| == v.Bpc()
    decreases |ts|
  {
    if ts == [] then []
    else
      var s := hs[ts[0].j];
      var (v1, h1, r) := MakeMove(v, s.at, s.name, ts[0].move);
      [v.buf] + TurnBuffers(v1, hs[ts[0].j := s.(at := h1)], ts[1..])
  }

  predicate PlacesIn(a: AbsFs, ps: seq<Place>)
  {
    && (forall j :: 0 <= j < |ps| ==> ps[j].name in a.files && ps[j].pos <= |a.files[ps[j].name].bytes|)
    && (forall j, k :: 0 <= j < k < |ps| ==> ps[j].name != ps[k].name)
  }

  predicate TurnsIn(a: AbsFs, ps: seq<Place>, ts: seq<Turn>, bufs: seq<seq<Byte>>)
  {
    && a.bpc > 0 && |bufs| == |ts| && (forall j :: 0 <= j < |bufs| ==> |bufs[j]| == a.bpc)
    && (forall j :: 0 <= j < |ts| ==> ts[j].j < |ps|)
  }

  /** A move on the map of files leaves the other files alone. */
  lemma AbsMoveFrame(a: AbsFs, n: Name, pos: nat, m: Move, buf: seq<Byte>)
    requires n in a.files && pos <= |a.files[n].bytes| && |buf| == a.bpc > 0
    ensures forall o :: o in a.files && o != n ==>
              o in AbsMove(a, n, pos, m, buf).0.files && AbsMove(a, n, pos, m, buf).0.files[o] == a.files[o]
  {
    hide Accepted, Clusters, Stale, Overlay;
  }

  function AbsTurns(a: AbsFs, ps: seq<Place>, ts: seq<Turn>, bufs: seq<seq<Byte>>)
      : (r: (AbsFs, seq<Place>, seq<Reply>))
    requires PlacesIn(a, ps) && TurnsIn(a, ps, ts, bufs)
    decreases |ts|
  {
    if ts == [] then (a, ps, [])
    else
      var p := ps[ts[0].j];
      var (a1, pos1, r) := AbsMove(a, p.name, p.pos, ts[0].move, bufs[0]);
      AbsMoveFrame(a, p.name, p.pos, ts[0].move, bufs[0]);
      var (a2, ps2, rs) := AbsTurns(a1, ps[ts[0].j := p.(pos := pos1)], ts[1..], bufs[1..]);
      (a2, ps2, [r] + rs)
  }

  ghost predicate TurnDone(v: Vol, hs: seq<Slot>, t: Turn, v': Vol, h': Cursor, r: Reply)
  {
    && t.j < |hs| && OnFile(v, hs[t.j]) && MoveDone(v, hs[t.j].i, hs[t.j].at, hs[t.j].name, t.move, v', h', r)
    && AllOpen(v', hs[t.j := hs[t.j].(at := h')]) && Capacity(v') == Capacity(v)
  }

  lemma OneTurn(v: Vol, hs: seq<Slot>, t: Turn)
    requires AllOpen(v, hs) && t.j < |hs| && MoveFits(t.move, Capacity(v))
    ensures Shaped(v) && hs[t.j].at.off < v.Bpc()
    ensures var (v', h', r) := MakeMove(v, hs[t.j].at, hs[t.j].name, t.move); TurnDone(v, hs, t, v', h', r)
  {
    hide Inv, Handled, MakeMove, MoveDone, Shaped;
    var s := hs[t.j];
    assert OnFile(v, s);
    HandledEntryIs(v, s.i, s.at, s.name);
    MoveRefines(v, s.i, s.at, s.name, t.move);
    var (v', h', r) := MakeMove(v, s.at, s.name, t.move);
    MoveParts(v, s.i, s.at, s.name, t.move, v', h', r);
    var hs' := hs[t.j := s.(at := h')];
    forall j | 0 <= j < |hs'|
      ensures OnFile(v', hs'[j])
    {
      if j != t.j {
        assert OnFile(v, hs[j]);
        OtherHandleKept(v, s.i, s.at, s.name, t.move, hs[j].i, hs[j].at, hs[j].name);
      }
    }
    HandledInv(v', s.i, h', s.name);
  }

  ghost predicate TurnsDone(v: Vol, hs: seq<Slot>, ts: seq<Turn>, v': Vol, hs': seq<Slot>, rs: seq<Reply>)
  {
    && Shaped(v) && InOrder(v.Bpc(), hs, ts) && AllOpen(v', hs')
    && PlacesIn(Abs(v), Places(hs)) && TurnsIn(Abs(v), Places(hs), ts, TurnBuffers(v, hs, ts))
    && (Abs(v'), Places(hs'), rs) == AbsTurns(Abs(v), Places(hs), ts, TurnBuffers(v, hs, ts))
    && Gap(v'.PoolOf()) == Gap(v.PoolOf())
  }

  predicate TurnsFit(hs: seq<Slot>, ts: seq<Turn>, capacity: nat)
  {
    forall j :: 0 <= j < |ts| ==> ts[j].j < |hs| && MoveFits(ts[j].move, capacity)
  }

  lemma OpenPlaces(v: Vol, hs: seq<Slot>, ts: seq<Turn>)
    requires AllOpen(v, hs) && TurnsFit(hs, ts, Capacity(v))
    ensures Shaped(v) && InOrder(v.Bpc(), hs, ts) && PlacesIn(Abs(v), Places(hs))
    ensures TurnsIn(Abs(v), Places(hs), ts, TurnBuffers(v, hs, ts))
  {
    hide Inv, Handled, Abs, Files, TurnBuffers, Shaped, Vol.RootEntries, MoveFits;
    LoadedInv(v);
    AbsFields(v);
    forall j | 0 <= j < |hs|
      ensures hs[j].at.off < v.Bpc() && hs[j].name in Files(v) && hs[j].at.pos <= |Files(v)[hs[j].name].bytes|
    {
      assert OnFile(v, hs[j]);
      HandledEntryIs(v, hs[j].i, hs[j].at, hs[j].name);
      HandledFile(v, hs[j].i, hs[j].at, hs[j].name);
    }
  }

  /** Any interleaving of reads, seeks and writes through open handles on different files, whatever is in the shared
      buffer: the volume stays sound, every handle stays on its file, and positions, replies and files are those of
      the same interleaving on the map of files. */
  lemma {:induction false} TurnsRefine(v: Vol, hs: seq<Slot>, ts: seq<Turn>)
    requires AllOpen(v, hs) && TurnsFit(hs, ts, Capacity(v))
    ensures Shaped(v) && InOrder(v.Bpc(), hs, ts)
    ensures var (v', hs', rs) := Turns(v, hs, ts); TurnsDone(v, hs, ts, v', hs', rs)
    decreases |ts|
  {
    hide Inv, OnFile, MakeMove, TurnBuffers, AbsTurns, Abs, Gap, Shaped, Vol.RootEntries, MoveFits, TurnDone, TurnsDone;
    OpenPlaces(v, hs, ts);
    if ts == [] {
      NoTurns(v, hs);
    } else {
      var s := hs[ts[0].j];
      OneTurn(v, hs, ts[0]);
      var (v1, h1, r) := MakeMove(v, s.at, s.name, ts[0].move);
      var hs1 := hs[ts[0].j := s.(at := h1)];
      TurnParts(v, hs, ts[0], v1, h1, r);
      TurnsRefine(v1, hs1, ts[1..]);
      var (v2, hs2, rs) := Turns(v1, hs1, ts[1..]);
      TurnsJoin(v, hs, ts, v2, hs2, rs);
    }
  }

  lemma TurnParts(v: Vol, hs: seq<Slot>, t: Turn, v': Vol, h': Cursor, r: Reply)
    requires TurnDone(v, hs, t, v', h', r)
    ensures AllOpen(v', hs[t.j := hs[t.j].(at := h')]) && Capacity(v') == Capacity(v)
  {
    hide AllOpen, MoveDone, OnFile;
  }

  lemma NoTurns(v: Vol, hs: seq<Slot>)
    requires AllOpen(v, hs) && Shaped(v) && InOrder(v.Bpc(), hs, []) && PlacesIn(Abs(v), Places(hs))
    requires TurnsIn(Abs(v), Places(hs), [], TurnBuffers(v, hs, []))
    ensures TurnsDone(v, hs, [], v, hs, [])
  {
    hide AllOpen, Abs, Shaped, Gap, PlacesIn;
  }

  /** The first turn and the others. */
  lemma TurnsJoin(v: Vol, hs: seq<Slot>, ts: seq<Turn>, v2: Vol, hs2: seq<Slot>, rs: seq<Reply>)
    requires ts != [] && Shaped(v) && InOrder(v.Bpc(), hs, ts) && PlacesIn(Abs(v), Places(hs))
    requires TurnsIn(Abs(v), Places(hs), ts, TurnBuffers(v, hs, ts))
    requires var s := hs[ts[0].j]; var (v1, h1, r) := MakeMove(v, s.at, s.name, ts[0].move);
             var hs1 := hs[ts[0].j := s.(at := h1)];
             && TurnDone(v, hs, ts[0], v1, h1, r) && TurnsDone(v1, hs1, ts[1..], v2, hs2, rs)
             && (v2, hs2, rs) == Turns(v1, hs1, ts[1..])
    ensures var s := hs[ts[0].j]; var r := MakeMove(v, s.at, s.name, ts[0].move).2;
            Turns(v, hs, ts) == (v2, hs2, [r] + rs) && TurnsDone(v, hs, ts, v2, hs2, [r] + rs)
  {
    hide Handled, MakeMove, AbsMove, Abs, Files, Gap, Shaped, Vol.RootEntries, AllOpen;
    var s := hs[ts[0].j];
    var (v1, h1, r) := MakeMove(v, s.at, s.name, ts[0].move);
    var hs1 := hs[ts[0].j := s.(at := h1)];
    var bufs := TurnBuffers(v, hs, ts);
    assert bufs[0] == v.buf && bufs[1..] == TurnBuffers(v1, hs1, ts[1..]);
    assert Places(hs1) == Places(hs)[ts[0].j := Places(hs)[ts[0].j].(pos := h1.pos)];
  }
}
