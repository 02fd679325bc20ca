/**
 The operations on the root directory, as functions on the volume state: what `fs_open` does for a missing
 file, `fs_mkdir`, `fs_delete`, `fs_rmdir`, `fs_rename` and the size update that ends `fs_write`.

 Names are taken in their 8.3 form. Every operation leaves in the shared buffer what the driver leaves there.
 */
module VolumeOps {
  import opened Bytes
  import opened Chains
  import opened Allocator
  import opened Names
  import opened Directory
  import opened VolumeState
  import opened FileContent
  import opened FileWrite

  /** A name that the directory can hold: its first byte is not a deletion or end mark. */
  predicate Storable(name: Name) { name[0] != 0 && name[0] != DELETED }

  const DOT_NAME: Name := [46, 32, 32, 32, 32, 32, 32, 32, 32, 32, 32]
  const DOTDOT_NAME: Name := [46, 46, 32, 32, 32, 32, 32, 32, 32, 32, 32]

  /** `fat32_free_cluster_chain` on the volume. */
  function FreeChain(v: Vol, c: nat): (r: Vol)
    requires Shaped(v)
    ensures Shaped(r) && r.Bpc() == v.Bpc() && |r.fat| == |v.fat| && r.data == v.data && r.buf == v.buf
            && r.root == v.root
  {
    ReleaseOnAnyTable(v.PoolOf(), c);
    v.WithPool(Release(v.PoolOf(), c).0)
  }

  /** `create_dir_entry` in the root directory. */
  function CreateEntry(v: Vol, name: Name, attr: Byte, first: nat): (r: (Vol, bool))
    requires Shaped(v) && first < |v.fat|
    ensures Shaped(r.0) && r.0.Bpc() == v.Bpc() && r.0.fat == v.fat && |r.0.data| == |v.data|
  {
    var v1 := v.Loaded(v.root);
    match Vacancy(Entries(v1.buf), 0)
    case None => (v1, false)
    case Some(i) => (v1.(buf := WithNew(v1.buf, i, name, attr, first, 0)).Stored(v.root), true)
  }

  /** A directory cluster with its two dot entries. */
  function DotCluster(n: nat, c: nat, parent: nat): (r: seq<Byte>)
    requires n >= 64 && c < WORD && parent < WORD
    ensures |r| == n
  {
    WithNew(WithNew(Zeros(n), 0, DOT_NAME, ATTR_DIRECTORY, c, 0), 1, DOTDOT_NAME, ATTR_DIRECTORY, parent, 0)
  }

  /** What the first cluster is filled with: the two dot entries for a directory, zeros for a file. */
  function FirstCluster(n: nat, attr: Byte, c: nat, parent: nat): (r: seq<Byte>)
    ensures |r| == n
  {
    if attr == ATTR_DIRECTORY && n >= 64 && c < WORD && parent < WORD then DotCluster(n, c, parent) else Zeros(n)
  }

  /** Allocate a cluster and fill it. The second result is the cluster, or 0. */
  function AllocateFilled(v: Vol, attr: Byte): (r: (Vol, nat))
    requires Shaped(v)
    ensures Shaped(r.0) && r.0.Bpc() == v.Bpc() && r.1 < |r.0.fat|
  {
    assert PoolOk(v.PoolOf());
    AllocateInRange(v.PoolOf());
    var (p, c) := Allocate(v.PoolOf());
    if c == 0 then (v, 0)
    else (v.WithPool(p).(buf := FirstCluster(v.Bpc(), attr, c, v.root)).Stored(c), c)
  }

  /** Allocate and fill a cluster and enter it under `name`; give the cluster back if the directory is full. */
  function CreateWith(v: Vol, name: Name, attr: Byte): (r: (Vol, nat))
    requires Shaped(v)
    ensures Shaped(r.0) && r.0.Bpc() == v.Bpc()
  {
    var (v1, c) := AllocateFilled(v, attr);
    if c == 0 then (v, 0)
    else
      var (v2, ok) := CreateEntry(v1, name, attr, c);
      if ok then (v2, c) else (FreeChain(v2, c), 0)
  }

  /** `fs_open` in write mode for a name that is not there. */
  function CreateFile(v: Vol, name: Name): (r: (Vol, nat))
    requires Shaped(v)
    ensures Shaped(r.0) && r.0.Bpc() == v.Bpc()
  {
    CreateWith(v.Loaded(v.root), name, ATTR_ARCHIVE)
  }

  /** `fs_mkdir`: the name looked up is that of the path without a leading slash, the name entered that of
      the path as given. */
  function MakeDirectory(v: Vol, lookup: Name, name: Name): (r: (Vol, bool))
    requires Shaped(v)
    ensures Shaped(r.0) && r.0.Bpc() == v.Bpc()
  {
    var v1 := v.Loaded(v.root);
    if Find(Entries(v1.buf), lookup, 0).Some? then (v1, false)
    else
      var (v2, c) := CreateWith(v1, name, ATTR_DIRECTORY);
      (v2, c != 0)
  }

  /** `fs_delete`. */
  function DeleteFile(v: Vol, name: Name): (r: (Vol, bool))
    requires Shaped(v)
    ensures Shaped(r.0) && r.0.Bpc() == v.Bpc()
  {
    var v1 := v.Loaded(v.root);
    match Find(Entries(v1.buf), name, 0)
    case None => (v1, false)
    case Some(i) =>
      FindInRange(Entries(v1.buf), name, 0);
      var e := Entries(v1.buf)[i];
      if e.IsDirectory() then (v1, false)
      else
        var v2 := if e.first >= 2 then FreeChain(v1, e.first) else v1;
        (v2.(buf := WithDeleted(v2.buf, i)).Stored(v.root), true)
  }

  /** Nothing but the two dot entries is left in a directory cluster. */
  predicate OnlyDots(es: seq<Entry>) { forall j :: 2 <= j < |es| ==> es[j].IsVacant() }

  /** `fs_rmdir`. */
  function RemoveDirectory(v: Vol, name: Name): (r: (Vol, bool))
    requires Shaped(v)
    ensures Shaped(r.0) && r.0.Bpc() == v.Bpc()
  {
    var v1 := v.Loaded(v.root);
    match Find(Entries(v1.buf), name, 0)
    case None => (v1, false)
    case Some(i) =>
      FindInRange(Entries(v1.buf), name, 0);
      var e := Entries(v1.buf)[i];
      if !e.IsDirectory() || !InRange(v.fat, e.first) then (v1, false)
      else
        var v2 := v1.Loaded(e.first);
        if !OnlyDots(Entries(v2.buf)) then (v2, false)
        else
          var v3 := FreeChain(v2, e.first).Loaded(v.root);
          (v3.(buf := WithDeleted(v3.buf, i)).Stored(v.root), true)
  }

  /** `fs_rename`. */
  function RenameEntry(v: Vol, from: Name, to: Name): (r: (Vol, bool))
    requires Shaped(v)
    ensures Shaped(r.0) && r.0.Bpc() == v.Bpc()
  {
    var v1 := v.Loaded(v.root);
    if Find(Entries(v1.buf), to, 0).Some? then (v1, false)
    else
      match Find(Entries(v1.buf), from, 0)
      case None => (v1, false)
      case Some(i) =>
        FindInRange(Entries(v1.buf), from, 0);
        (v1.(buf := WithName(v1.buf, i, to)).Stored(v.root), true)
  }

  /** `update_file_size`; the size is stored in 32 bits. */
  function UpdateSize(v: Vol, name: Name, size: nat): (r: Vol)
    requires Shaped(v)
    ensures Shaped(r) && r.Bpc() == v.Bpc()
  {
    var v1 := v.Loaded(v.root);
    match Find(Entries(v1.buf), name, 0)
    case None => v1
    case Some(i) =>
      FindInRange(Entries(v1.buf), name, 0);
      v1.(buf := WithSize(v1.buf, i, size % WORD)).Stored(v.root)
  }

  lemma {:induction false} FindInRange(es: seq<Entry>, name: Name, from: nat)
    requires from <= |es|
    ensures Find(es, name, from).Some? ==>
              var i := Find(es, name, from).value; from <= i < |es| && es[i].IsLive() && es[i].name == name
    decreases |es| - from
  {
    if from < |es| && !es[from].IsEnd() && !(es[from].IsLive() && es[from].name == name) {
      FindInRange(es, name, from + 1);
    }
  }

  /** `fs_write` on a file handle: the loop, then the size update under the handle's name. */
  function WriteFile(v: Vol, h: Cursor, name: Name, b: seq<Byte>): (r: (Vol, Cursor, nat))
    requires Shaped(v) && h.off < v.Bpc()
    ensures Shaped(r.0) && r.0.Bpc() == v.Bpc() && r.1.off < v.Bpc()
  {
    var (v1, h1, w) := WriteLoop(v, h, b);
    (UpdateSize(v1, name, h1.size), h1, w)
  }

  // ---- paths and handles ----

  /** The file name of a path: without one leading slash. */
  function Strip(path: seq<Byte>): seq<Byte> { if path != [] && path[0] == 47 then path[1..] else path }

  function NameOf(path: seq<Byte>): Name { To83(Strip(path)) }

  /** `fs_mkdir` skips leading spaces. */
  function SkipSpaces(path: seq<Byte>): seq<Byte>
  {
    if path != [] && path[0] == 32 then SkipSpaces(path[1..]) else path
  }

  /** Modes starting with "w" or "a" create a missing file; "a" also moves the cursor to the end. */
  predicate Creates(mode: seq<Byte>) { mode != [] && (mode[0] == 119 || mode[0] == 97) }

  predicate Appends(mode: seq<Byte>) { mode != [] && mode[0] == 97 }

  /** What `fs_open` puts into a handle. */
  datatype Opened = Opened(cursor: Cursor, attr: Byte, filename: seq<Byte>)

  /** A cursor at the start of a file. */
  function OpenCursor(first: nat, size: nat): Cursor { Cursor(first, first, 0, size, 0) }

  /** `fs_open` once a handle is available. */
  function Open(v: Vol, path: seq<Byte>, mode: seq<Byte>): (r: (Vol, Option<Opened>))
    requires Shaped(v)
    ensures Shaped(r.0) && r.0.Bpc() == v.Bpc()
    ensures r.1.Some? ==> r.1.value.cursor.off < v.Bpc()
  {
    match Find(v.RootEntries(), NameOf(path), 0)
    case Some(i) =>
      FindInRange(v.RootEntries(), NameOf(path), 0);
      var e := v.RootEntries()[i];
      var start := OpenCursor(e.first, e.size);
      var cursor := if Appends(mode) && !e.IsDirectory() then Seek(v, start, e.size) else start;
      (v.Loaded(v.root), Some(Opened(cursor, e.attr, From83(e.name))))
    case None =>
      if !Creates(mode) then (v.Loaded(v.root), None)
      else
        var (v1, c) := CreateFile(v, NameOf(path));
        (v1, if c == 0 then None else Some(Opened(OpenCursor(c, 0), ATTR_ARCHIVE, Strip(path))))
  }

  lemma OpenFinds(v: Vol, path: seq<Byte>, mode: seq<Byte>)
    requires Shaped(v) && Find(v.RootEntries(), NameOf(path), 0).Some?
    ensures var i := Find(v.RootEntries(), NameOf(path), 0).value;
            && i < |v.RootEntries()| && v.RootEntries()[i].IsLive()
            && var e := v.RootEntries()[i]; var start := OpenCursor(e.first, e.size);
               Open(v, path, mode) ==
               (v.Loaded(v.root),
                Some(Opened(if Appends(mode) && !e.IsDirectory() then Seek(v, start, e.size) else start,
                            e.attr, From83(e.name))))
  {
    hide Find, Entries, Seek, From83, Entry.IsDirectory, Entry.IsLive;
    FindInRange(v.RootEntries(), NameOf(path), 0);
  }

  lemma OpenMisses(v: Vol, path: seq<Byte>, mode: seq<Byte>)
    requires Shaped(v) && Find(v.RootEntries(), NameOf(path), 0).None?
    ensures Open(v, path, mode) ==
            if !Creates(mode) then (v.Loaded(v.root), None)
            else (var r := CreateFile(v, NameOf(path));
                  (r.0, if r.1 == 0 then None else Some(Opened(OpenCursor(r.1, 0), ATTR_ARCHIVE, Strip(path)))))
  {
    hide Find, Entries, CreateFile;
  }

  /** One slash, 47, in front of a path makes no difference; `fs_mkdir` skips spaces, 32. */
  lemma PathNames(p: seq<Byte>)
    ensures NameOf([47] + p) == To83(p) && (p == [] || p[0] != 47 ==> NameOf(p) == To83(p))
    ensures SkipSpaces([32] + p) == SkipSpaces(p) && (p == [] || p[0] != 32 ==> SkipSpaces(p) == p)
  {
    assert ([47] + p)[1..] == p && ([32] + p)[1..] == p;
  }

  /** A new name must not begin with 0 or 0xE5. */
  lemma StorableIff(name: Name)
    ensures Storable(name) <==> name[0] != 0 && name[0] != 0xE5
  {
  }
}
