/**
 The root directory cluster: a run of 32-byte entries.

 `Entries` decodes the cluster; the byte-level edits of the driver (create, resize, delete, rename) are
 shown to be single updates of that list. Under `DirOk` the list is a finite map from 8.3 names to
 entries, and the scanning loops compute lookup in that map.
 */
module Directory {
  import opened Bytes
  import opened Names

  const ENTRY_SIZE: nat := 32
  const ATTR_DIRECTORY: Byte := 0x10
  const ATTR_ARCHIVE: Byte := 0x20
  const ATTR_LONG_NAME: Byte := 0x0F
  const DELETED: Byte := 0xE5

  type Name = n: seq<Byte> | |n| == 11 witness Zeros(11)

  predicate MarksDirectory(attr: Byte) { attr / 16 % 2 == 1 }

  datatype Entry = Entry(name: Name, attr: Byte, first: nat, size: nat)
  {
    predicate IsEnd() { name[0] == 0 }
    /** The entry can take a new file. */
    predicate IsVacant() { name[0] == 0 || name[0] == DELETED }
    /** The entry is one that a lookup may return. */
    predicate IsLive() { !IsVacant() && attr != ATTR_LONG_NAME }
    predicate IsDirectory() { MarksDirectory(attr) }
    predicate IsVolumeLabel() { attr / 8 % 2 == 1 }
    predicate IsDot() { name[0] == 46 && (name[1] == 32 || (name[1] == 46 && name[2] == 32)) }
  }

  // ---- decoding ----

  function DecodeEntry(b: seq<Byte>): (e: Entry)
    requires |b| == ENTRY_SIZE
    ensures e.first < WORD && e.size < WORD
  {
    Entry(Window(b, 0, 11), b[11],
          De16(Window(b, 20, 2)) * 0x1_0000 + De16(Window(b, 26, 2)), De32(Window(b, 28, 4)))
  }

  function Count(dir: seq<Byte>): nat { |dir| / ENTRY_SIZE }

  function EntryBytes(dir: seq<Byte>, i: nat): (b: seq<Byte>)
    requires i < Count(dir)
    ensures |b| == ENTRY_SIZE
  {
    Window(dir, ENTRY_SIZE * i, ENTRY_SIZE)
  }

  function Entries(dir: seq<Byte>): (es: seq<Entry>)
    ensures |es| == Count(dir)
  {
    seq(Count(dir), (i: nat) requires i < Count(dir) => DecodeEntry(EntryBytes(dir, i)))
  }

  /** Where the fields of entry `i` lie in a directory cluster. */
  lemma EntryAt(dir: seq<Byte>, i: nat)
    requires i < Count(dir)
    ensures ENTRY_SIZE * i + ENTRY_SIZE <= |dir|
    ensures Entries(dir)[i] == DecodeEntry(Window(dir, ENTRY_SIZE * i, ENTRY_SIZE))
    ensures Entries(dir)[i].name == Window(dir, ENTRY_SIZE * i, 11) && Entries(dir)[i].attr == dir[ENTRY_SIZE * i + 11]
  {
  }

  // ---- the byte-level edits ----

  /** The 32 bytes that `create_dir_entry` fills in. */
  function MakeEntry(name: Name, attr: Byte, first: nat, size: nat): (b: seq<Byte>)
    requires first < WORD && size < WORD
    ensures |b| == ENTRY_SIZE
  {
    name + [attr, 0, 0] + Zeros(6) + Le16(first / 0x1_0000) + Zeros(4) + Le16(first % 0x1_0000) + Le32(size)
  }

  function WithNew(dir: seq<Byte>, i: nat, name: Name, attr: Byte, first: nat, size: nat): (r: seq<Byte>)
    requires i < Count(dir) && first < WORD && size < WORD
    ensures |r| == |dir|
  {
    Splice(dir, ENTRY_SIZE * i, MakeEntry(name, attr, first, size))
  }

  function WithSize(dir: seq<Byte>, i: nat, size: nat): (r: seq<Byte>)
    requires i < Count(dir) && size < WORD
    ensures |r| == |dir|
  {
    Splice(dir, ENTRY_SIZE * i + 28, Le32(size))
  }

  function WithDeleted(dir: seq<Byte>, i: nat): (r: seq<Byte>)
    requires i < Count(dir)
    ensures |r| == |dir|
  {
    Splice(dir, ENTRY_SIZE * i, [DELETED])
  }

  function WithName(dir: seq<Byte>, i: nat, name: Name): (r: seq<Byte>)
    requires i < Count(dir)
    ensures |r| == |dir|
  {
    Splice(dir, ENTRY_SIZE * i, name)
  }

  /** An edit inside entry `i` changes that entry only, and changes its 32 bytes by the same edit. */
  lemma EditOneEntry(dir: seq<Byte>, i: nat, off: nat, t: seq<Byte>)
    requires i < Count(dir) && off + |t| <= ENTRY_SIZE
    ensures var dir' := Splice(dir, ENTRY_SIZE * i + off, t);
            Entries(dir') == Entries(dir)[i := DecodeEntry(Splice(EntryBytes(dir, i), off, t))]
  {
    var dir' := Splice(dir, ENTRY_SIZE * i + off, t);
    forall j | 0 <= j < Count(dir)
      ensures EntryBytes(dir', j) == if j == i then Splice(EntryBytes(dir, i), off, t) else EntryBytes(dir, j)
    {
      if j == i { SpliceInsideWindow(dir, ENTRY_SIZE * i, ENTRY_SIZE, off, t); }
      else { WindowOfSplice(dir, ENTRY_SIZE * i + off, t, ENTRY_SIZE * j, ENTRY_SIZE); }
    }
  }

  lemma DecodeMade(name: Name, attr: Byte, first: nat, size: nat)
    requires first < WORD && size < WORD
    ensures DecodeEntry(MakeEntry(name, attr, first, size)) == Entry(name, attr, first, size)
  {
    var b := MakeEntry(name, attr, first, size);
    assert Window(b, 0, 11) == name;
    assert Window(b, 20, 2) == Le16(first / 0x1_0000);
    assert Window(b, 26, 2) == Le16(first % 0x1_0000);
    assert Window(b, 28, 4) == Le32(size);
    De32OfLe32(size);
  }

  lemma NewRefines(dir: seq<Byte>, i: nat, name: Name, attr: Byte, first: nat, size: nat)
    requires i < Count(dir) && first < WORD && size < WORD
    ensures Entries(WithNew(dir, i, name, attr, first, size)) == Entries(dir)[i := Entry(name, attr, first, size)]
  {
    var b := MakeEntry(name, attr, first, size);
    EditOneEntry(dir, i, 0, b);
    assert Splice(EntryBytes(dir, i), 0, b) == b;
    DecodeMade(name, attr, first, size);
  }

  lemma SizeRefines(dir: seq<Byte>, i: nat, size: nat)
    requires i < Count(dir) && size < WORD
    ensures Entries(WithSize(dir, i, size)) == Entries(dir)[i := Entries(dir)[i].(size := size)]
  {
    EditOneEntry(dir, i, 28, Le32(size));
    var b := EntryBytes(dir, i);
    var b' := Splice(b, 28, Le32(size));
    WindowOfSplice(b, 28, Le32(size), 0, 11);
    WindowOfSplice(b, 28, Le32(size), 20, 2);
    WindowOfSplice(b, 28, Le32(size), 26, 2);
    assert Window(b', 28, 4) == Le32(size);
    De32OfLe32(size);
  }

  lemma DeletedRefines(dir: seq<Byte>, i: nat)
    requires i < Count(dir)
    ensures Entries(WithDeleted(dir, i)) ==
            Entries(dir)[i := Entries(dir)[i].(name := Entries(dir)[i].name[0 := DELETED])]
  {
    EditOneEntry(dir, i, 0, [DELETED]);
    var b := EntryBytes(dir, i);
    assert Window(Splice(b, 0, [DELETED]), 0, 11) == Window(b, 0, 11)[0 := DELETED];
    WindowOfSplice(b, 0, [DELETED], 20, 2);
    WindowOfSplice(b, 0, [DELETED], 26, 2);
    WindowOfSplice(b, 0, [DELETED], 28, 4);
  }

  lemma NameRefines(dir: seq<Byte>, i: nat, name: Name)
    requires i < Count(dir)
    ensures Entries(WithName(dir, i, name)) == Entries(dir)[i := Entries(dir)[i].(name := name)]
  {
    EditOneEntry(dir, i, 0, name);
    var b := EntryBytes(dir, i);
    assert Window(Splice(b, 0, name), 0, 11) == name;
    WindowOfSplice(b, 0, name, 20, 2);
    WindowOfSplice(b, 0, name, 26, 2);
    WindowOfSplice(b, 0, name, 28, 4);
  }

  // ---- the scanning loops ----

  /** The entry that `find_dir_entry` and the other lookups select: the first live match before the end. */
  function Find(es: seq<Entry>, name: Name, from: nat): Option<nat>
    requires from <= |es|
    decreases |es| - from
  {
    if from == |es| || es[from].IsEnd() then None
    else if es[from].IsLive() && es[from].name == name then Some(from)
    else Find(es, name, from + 1)
  }

  /** The slot that `find_free_dir_entry_slot` selects. */
  function Vacancy(es: seq<Entry>, from: nat): (r: Option<nat>)
    requires from <= |es|
    ensures match r
            case Some(i) => from <= i < |es| && es[i].IsVacant() && forall j :: from <= j < i ==> !es[j].IsVacant()
            case None => forall j :: from <= j < |es| ==> !es[j].IsVacant()
    decreases |es| - from
  {
    if from == |es| then None else if es[from].IsVacant() then Some(from) else Vacancy(es, from + 1)
  }

  /** Entries shown by `fs_list_directory`, in order. */
  function Listing(es: seq<Entry>, from: nat): seq<Entry>
    requires from <= |es|
    decreases |es| - from
  {
    if from == |es| || es[from].IsEnd() then []
    else if es[from].IsLive() && !es[from].IsVolumeLabel() && !es[from].IsDot() then [es[from]] + Listing(es, from + 1)
    else Listing(es, from + 1)
  }

  // ---- the directory as a map ----

  /** No live entry lies behind an end mark, and live entries have different names. */
  ghost predicate DirOk(es: seq<Entry>)
  {
    && (forall i, j :: 0 <= i < j < |es| && es[i].IsEnd() ==> !es[j].IsLive())
    && (forall i, j :: 0 <= i < j < |es| && es[i].IsLive() && es[j].IsLive() ==> es[i].name != es[j].name)
  }

  /** The live entries by name. */
  ghost function Catalog(es: seq<Entry>): map<Name, Entry>
    requires DirOk(es)
  {
    map i | 0 <= i < |es| && es[i].IsLive() :: es[i].name := es[i]
  }

  lemma CatalogHas(es: seq<Entry>, i: nat)
    requires DirOk(es) && i < |es| && es[i].IsLive()
    ensures es[i].name in Catalog(es) && Catalog(es)[es[i].name] == es[i]
  {
    assert es[i].name in Catalog(es);
  }

  /** Under `DirOk` a scan that has passed no match finds exactly the live entry of that name. */
  lemma {:induction false} FindFrom(es: seq<Entry>, name: Name, from: nat)
    requires DirOk(es) && from <= |es|
    requires forall j :: 0 <= j < from ==> !es[j].IsEnd() && !(es[j].IsLive() && es[j].name == name)
    ensures match Find(es, name, from)
            case Some(i) => i < |es| && es[i].IsLive() && es[i].name == name
            case None => forall j :: 0 <= j < |es| && es[j].IsLive() ==> es[j].name != name
    decreases |es| - from
  {
    if from < |es| && !es[from].IsEnd() && !(es[from].IsLive() && es[from].name == name) {
      FindFrom(es, name, from + 1);
    }
  }

  /** The lookup loop is map lookup. */
  lemma FindIsLookup(es: seq<Entry>, name: Name)
    requires DirOk(es)
    ensures match Find(es, name, 0)
            case Some(i) => i < |es| && es[i].IsLive() && es[i].name == name && name in Catalog(es)
                && Catalog(es)[name] == es[i]
            case None => name !in Catalog(es)
  {
    FindFrom(es, name, 0);
    if Find(es, name, 0).Some? { CatalogHas(es, Find(es, name, 0).value); }
  }

  lemma FindsLive(es: seq<Entry>, i: nat)
    requires DirOk(es) && i < |es| && es[i].IsLive()
    ensures Find(es, es[i].name, 0) == Some(i)
  {
    FindFrom(es, es[i].name, 0);
  }

  ghost predicate LiveAt(es: seq<Entry>, i: nat, name: Name)
  {
    i < |es| && es[i].IsLive() && es[i].name == name
  }

  lemma CatalogWitness(es: seq<Entry>, name: Name) returns (i: nat)
    requires DirOk(es) && name in Catalog(es)
    ensures LiveAt(es, i, name) && Catalog(es)[name] == es[i]
  {
    i :| 0 <= i < |es| && es[i].IsLive() && es[i].name == name;
    CatalogHas(es, i);
  }

  /** A map that holds every live entry, and only names of live entries, is the catalog. */
  lemma CatalogIs(es: seq<Entry>, m: map<Name, Entry>)
    requires DirOk(es)
    requires forall i {:trigger es[i].IsLive()} :: 0 <= i < |es| && es[i].IsLive() ==>
             es[i].name in m && m[es[i].name] == es[i]
    requires forall n :: n in m ==> exists i: nat :: LiveAt(es, i, n)
    ensures Catalog(es) == m
  {
    forall n | n in Catalog(es)
      ensures n in m && m[n] == Catalog(es)[n]
    {
      var i := CatalogWitness(es, n);
    }
    forall n | n in m
      ensures n in Catalog(es)
    {
      var i: nat :| LiveAt(es, i, n);
      CatalogHas(es, i);
    }
  }

  lemma NotInCatalog(es: seq<Entry>, name: Name)
    requires DirOk(es) && name !in Catalog(es)
    ensures forall i :: 0 <= i < |es| && es[i].IsLive() ==> es[i].name != name
  {
    forall i | 0 <= i < |es| && es[i].IsLive()
      ensures es[i].name != name
    {
      CatalogHas(es, i);
    }
  }

  /** Filling the first vacant slot with an unused name is map insertion. */
  lemma CreateIsInsert(es: seq<Entry>, i: nat, e: Entry)
    requires DirOk(es) && Vacancy(es, 0) == Some(i)
    requires e.IsLive() && e.name !in Catalog(es)
    ensures DirOk(es[i := e]) && Catalog(es[i := e]) == Catalog(es)[e.name := e]
  {
    var es' := es[i := e];
    var m := Catalog(es)[e.name := e];
    NotInCatalog(es, e.name);
    assert DirOk(es');
    forall j | 0 <= j < |es'| && es'[j].IsLive()
      ensures es'[j].name in m && m[es'[j].name] == es'[j]
    {
      if j != i { CatalogHas(es, j); }
    }
    forall n | n in m
      ensures exists j: nat :: LiveAt(es', j, n)
    {
      if n == e.name { assert LiveAt(es', i, n); }
      else { var j := CatalogWitness(es, n); assert LiveAt(es', j, n); }
    }
    CatalogIs(es', m);
  }

  /** Changing a live entry without renaming it is map update. */
  lemma ResizeIsUpdate(es: seq<Entry>, i: nat, e: Entry)
    requires DirOk(es) && i < |es| && es[i].IsLive() && e.IsLive() && e.name == es[i].name
    ensures DirOk(es[i := e]) && Catalog(es[i := e]) == Catalog(es)[e.name := e]
  {
    var es' := es[i := e];
    var m := Catalog(es)[e.name := e];
    assert DirOk(es');
    forall j | 0 <= j < |es'| && es'[j].IsLive()
      ensures es'[j].name in m && m[es'[j].name] == es'[j]
    {
      if j != i { CatalogHas(es, j); }
    }
    forall n | n in m
      ensures exists j: nat :: LiveAt(es', j, n)
    {
      if n == e.name { assert LiveAt(es', i, n); }
      else { var j := CatalogWitness(es, n); assert LiveAt(es', j, n); }
    }
    CatalogIs(es', m);
  }

  /** Marking a live entry deleted is map removal. */
  lemma DeleteIsRemove(es: seq<Entry>, i: nat, e: Entry)
    requires DirOk(es) && i < |es| && es[i].IsLive() && !e.IsLive() && !e.IsEnd()
    ensures DirOk(es[i := e]) && Catalog(es[i := e]) == Catalog(es) - {es[i].name}
  {
    var es' := es[i := e];
    var m := Catalog(es) - {es[i].name};
    assert DirOk(es');
    forall j | 0 <= j < |es'| && es'[j].IsLive()
      ensures es'[j].name in m && m[es'[j].name] == es'[j]
    {
      CatalogHas(es, j);
    }
    forall n | n in m
      ensures exists j: nat :: LiveAt(es', j, n)
    {
      var j := CatalogWitness(es, n);
      assert LiveAt(es', j, n);
    }
    CatalogIs(es', m);
  }

  /** Overwriting the name of a live entry with an unused one re-keys the map. */
  lemma RenameIsRekey(es: seq<Entry>, i: nat, e: Entry)
    requires DirOk(es) && i < |es| && es[i].IsLive() && e.IsLive() && e.name !in Catalog(es)
    ensures DirOk(es[i := e]) && Catalog(es[i := e]) == (Catalog(es) - {es[i].name})[e.name := e]
  {
    var es' := es[i := e];
    var m := (Catalog(es) - {es[i].name})[e.name := e];
    NotInCatalog(es, e.name);
    assert DirOk(es');
    forall j | 0 <= j < |es'| && es'[j].IsLive()
      ensures es'[j].name in m && m[es'[j].name] == es'[j]
    {
      if j != i { CatalogHas(es, j); }
    }
    forall n | n in m
      ensures exists j: nat :: LiveAt(es', j, n)
    {
      if n == e.name { assert LiveAt(es', i, n); }
      else { var j := CatalogWitness(es, n); assert LiveAt(es', j, n); }
    }
    CatalogIs(es', m);
  }

  /** Listing shows exactly the entries a lookup can return, less volume labels and dot entries. */
  lemma {:induction false} ListingFrom(es: seq<Entry>, from: nat, e: Entry)
    requires DirOk(es) && from <= |es| && forall j :: 0 <= j < from ==> !es[j].IsEnd()
    ensures e in Listing(es, from) <==>
            exists j :: from <= j < |es| && es[j] == e && e.IsLive() && !e.IsVolumeLabel() && !e.IsDot()
    decreases |es| - from
  {
    if from < |es| && !es[from].IsEnd() {
      ListingFrom(es, from + 1, e);
    }
  }

  lemma ListingIsFindable(es: seq<Entry>, e: Entry)
    requires DirOk(es)
    ensures e in Listing(es, 0) <==>
            e.name in Catalog(es) && Catalog(es)[e.name] == e && !e.IsVolumeLabel() && !e.IsDot()
  {
    ListingFrom(es, 0, e);
    if e in Listing(es, 0) {
      var j :| 0 <= j < |es| && es[j] == e && e.IsLive();
      CatalogHas(es, j);
    }
  }

  /** No 8.3 name is listed twice. */
  lemma {:induction false} ListingOnce(es: seq<Entry>, from: nat)
    requires DirOk(es) && from <= |es| && forall j :: 0 <= j < from ==> !es[j].IsEnd()
    ensures forall a, b :: 0 <= a < b < |Listing(es, from)| ==> Listing(es, from)[a].name != Listing(es, from)[b].name
    decreases |es| - from
  {
    if from < |es| && !es[from].IsEnd() {
      ListingOnce(es, from + 1);
      forall e | e in Listing(es, from + 1)
        ensures es[from].IsLive() ==> e.name != es[from].name
      {
        ListingFrom(es, from + 1, e);
      }
    }
  }

  /** Nor is a printed name, as long as the names are canonical; `SpacesCanHide` has two others that print alike. */
  lemma PrintedOnce(es: seq<Entry>)
    requires DirOk(es) && forall e :: e in Listing(es, 0) ==> IsCString(e.name) && Canonical(e.name)
    ensures var l := Listing(es, 0); forall a, b :: 0 <= a < b < |l| ==> From83(l[a].name) != From83(l[b].name)
  {
    hide DirOk, From83, Canonical, IsCString;
    var l := Listing(es, 0);
    ListingOnce(es, 0);
    forall a, b | 0 <= a < b < |l|
      ensures From83(l[a].name) != From83(l[b].name)
    {
      assert l[a] in l && l[b] in l;
      CanonicalPrintsApart(l[a].name, l[b].name);
    }
  }

  // ---- entries, byte by byte ----

  /** Where the fields lie in the 32 bytes of an entry, and what marks it: a first byte of 0 the end, 0xE5 a deleted
      entry, 15 in the attributes a part of a long name, 16 a directory and 8 a volume label. */
  lemma EntryFieldsAre(dir: seq<Byte>, i: nat)
    requires i < |dir| / 32
    ensures |Entries(dir)| == |dir| / 32 && 32 * i + 32 <= |dir|
    ensures var e, b := Entries(dir)[i], dir[32 * i..32 * i + 32];
            && e.name == b[..11] && e.attr == b[11]
            && e.first == LittleEndian(b[26], b[27], b[20], b[21]) && e.size == LittleEndian(b[28], b[29], b[30], b[31])
            && (e.IsEnd() <==> b[0] == 0)
            && (e.IsLive() <==> b[0] != 0 && b[0] != 0xE5 && b[11] != 15)
            && (e.IsDirectory() <==> b[11] / 16 % 2 == 1) && (e.IsVolumeLabel() <==> b[11] / 8 % 2 == 1)
            && (e.IsDot() <==> b[0] == 46 && (b[1] == 32 || (b[1] == 46 && b[2] == 32)))
  {
    EntryAt(dir, i);
    var b := Window(dir, 32 * i, 32);
    assert b == dir[32 * i..32 * i + 32];
    assert Window(b, 0, 11) == b[..11] && Window(b, 20, 2) == b[20..22] && Window(b, 26, 2) == b[26..28];
    assert Window(b, 28, 4) == b[28..32];
  }

  /** The listing goes through the directory from front to back: entry `k` of it is the one at index `at[k]`. */
  lemma {:induction false} ListingInOrder(es: seq<Entry>, from: nat) returns (at: seq<nat>)
    requires from <= |es|
    ensures |at| == |Listing(es, from)|
    ensures forall k :: 0 <= k < |at| ==> from <= at[k] < |es| && Listing(es, from)[k] == es[at[k]]
    ensures forall j, k :: 0 <= j < k < |at| ==> at[j] < at[k]
    decreases |es| - from
  {
    at := [];
    if from < |es| && !es[from].IsEnd() {
      at := ListingInOrder(es, from + 1);
      if es[from].IsLive() && !es[from].IsVolumeLabel() && !es[from].IsDot() { at := [from] + at; }
    }
  }
}
