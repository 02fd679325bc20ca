/**
 The volume as a file system: a finite map from names to files, with a stock of free clusters and of
 free directory slots. `Abs` reads it off a sound volume.
 */
module AbstractFs {
  import opened Bytes
  import opened Chains
  import opened Directory
  import opened VolumeState
  import opened FileContent
  import opened VolumeOps

  /** A file as its users see it: attributes, contents, the number of clusters it holds, and for a
      directory whether it is empty. */
  datatype AbsFile = AbsFile(attr: Byte, bytes: seq<Byte>, clusters: nat, empty: bool)
  {
    predicate IsDirectory() { MarksDirectory(attr) }
  }

  datatype AbsFs = AbsFs(files: map<Name, AbsFile>, free: nat, slots: nat, bpc: nat)

  ghost function FileOf(v: Vol, e: Entry): AbsFile
  {
    var ch := Chain(v.fat, e.first);
    AbsFile(
      e.attr,
      Contents(v, ch, e.size),
      |ch|,
      e.IsDirectory() && e.first < |v.data| && OnlyDots(Entries(v.data[e.first])))
  }

  ghost function VacantSlots(es: seq<Entry>): set<nat> { set i: nat | i < |es| && es[i].IsVacant() }

  ghost function Files(v: Vol): map<Name, AbsFile>
  {
    if DirOk(v.RootEntries()) then
      var cat := Catalog(v.RootEntries());
      map n | n in cat :: FileOf(v, cat[n])
    else map[]
  }

  ghost function Abs(v: Vol): AbsFs
  {
    AbsFs(Files(v), v.free, |VacantSlots(v.RootEntries())|, v.Bpc())
  }

  lemma AbsFields(v: Vol)
    ensures Abs(v).files == Files(v) && Abs(v).free == v.free && Abs(v).bpc == v.Bpc()
  {
  }

  // ---- taking the invariant apart and putting it together ----

  ghost function ChainsIn(v: Vol): (r: seq<seq<nat>>)
    ensures |r| == |v.RootEntries()|
  {
    ChainsOf(Heads(v.RootEntries()), v.fat)
  }

  lemma InvParts(v: Vol)
    requires Inv(v)
    ensures Shaped(v) && DirOk(v.RootEntries()) && Counted(v.PoolOf())
    ensures Partition(v.root, Heads(v.RootEntries()), v.fat, ChainsIn(v))
    ensures Fitting(v.RootEntries(), ChainsIn(v), v.Bpc())
  {
  }

  lemma InvFrom(v: Vol, chains: seq<seq<nat>>)
    requires Shaped(v) && DirOk(v.RootEntries()) && Counted(v.PoolOf())
    requires Partition(v.root, Heads(v.RootEntries()), v.fat, chains)
    requires |chains| == |v.RootEntries()| && Fitting(v.RootEntries(), chains, v.Bpc())
    ensures Inv(v) && ChainsIn(v) == chains
  {
    PartitionIsFound(v.root, Heads(v.RootEntries()), v.fat, chains);
  }

  /** The chain of a live entry in a sound volume. */
  lemma LiveChain(v: Vol, i: nat)
    requires Inv(v) && i < |v.RootEntries()| && v.RootEntries()[i].IsLive()
    ensures var e, ch := v.RootEntries()[i], ChainsIn(v)[i];
            && ch == Chain(v.fat, e.first) && IsChain(v.fat, ch) && ch[0] == e.first && v.root !in ch
            && Heads(v.RootEntries())[i] == Some(e.first)
            && Uniform(v.data, ch, v.Bpc()) && e.size <= |ch| * v.Bpc()
            && FileOf(v, e).bytes == Contents(v, ch, e.size) && |Contents(v, ch, e.size)| == e.size
            && FileOf(v, e).clusters == |ch|
  {
    assert Heading(v.root, Heads(v.RootEntries())[i], v.fat, ChainsIn(v)[i]);
    ChainUniform(v, ChainsIn(v)[i]);
    ContentsLength(v, ChainsIn(v)[i], v.RootEntries()[i].size);
  }

  lemma FileOfFrame(v: Vol, v': Vol, e: Entry)
    requires Shaped(v) && IsChain(v.fat, Chain(v.fat, e.first))
    requires Chain(v'.fat, e.first) == Chain(v.fat, e.first) && v'.Bpc() == v.Bpc() && |v'.data| == |v.data|
    requires forall c :: c in Chain(v.fat, e.first) ==> c < |v.data| && v'.data[c] == v.data[c]
    ensures FileOf(v', e) == FileOf(v, e)
  {
    var ch := Chain(v.fat, e.first);
    ChainUniform(v, ch);
    assert e.first == ch[0] && ch[0] in ch;
    forall k | 0 <= k < |ch|
      ensures ch[k] < |v.data| && v'.data[ch[k]] == v.data[ch[k]]
    {
      assert ch[k] in ch;
    }
    FlatFrame(v.data, v'.data, ch);
  }

  /** All files but the one in slot `i` look the same in both volumes. */
  ghost predicate OthersSame(v: Vol, v': Vol, i: nat)
  {
    forall j: nat :: j < |v.RootEntries()| && j != i && v.RootEntries()[j].IsLive() ==>
      FileOf(v', v.RootEntries()[j]) == FileOf(v, v.RootEntries()[j])
  }

  /** The clusters of all chains but that of slot `i` are the same. */
  ghost predicate DataKept(data: seq<seq<Byte>>, data': seq<seq<Byte>>, chains: seq<seq<nat>>, i: nat)
  {
    forall j: nat, c: nat :: j < |chains| && j != i && c in chains[j] ==>
        c < |data| && c < |data'| && data'[c] == data[c]
  }

  /** The files other than the one in slot `i` look the same when their chains and clusters are the same. */
  lemma OthersUnchanged(v: Vol, v': Vol, i: nat)
    requires Inv(v) && Inv(v') && v'.Bpc() == v.Bpc() && |v'.data| == |v.data| && v'.root == v.root
    requires |v'.RootEntries()| == |v.RootEntries()|
    requires forall j :: 0 <= j < |v.RootEntries()| && j != i ==> v'.RootEntries()[j] == v.RootEntries()[j]
    requires forall j :: 0 <= j < |v.RootEntries()| && j != i ==> ChainsIn(v')[j] == ChainsIn(v)[j]
    requires DataKept(v.data, v'.data, ChainsIn(v), i)
    ensures OthersSame(v, v', i)
  {
    forall j: nat | j < |v.RootEntries()| && j != i && v.RootEntries()[j].IsLive()
      ensures FileOf(v', v.RootEntries()[j]) == FileOf(v, v.RootEntries()[j])
    {
      assert v'.RootEntries()[j] == v.RootEntries()[j];
      LiveChain(v, j);
      LiveChain(v', j);
      FileOfFrame(v, v', v.RootEntries()[j]);
    }
  }

  /** The map of files follows the catalog. */
  lemma FilesFollow(v: Vol, v': Vol, i: nat, gone: set<Name>, added: map<Name, Entry>)
    requires DirOk(v.RootEntries()) && DirOk(v'.RootEntries())
    requires Catalog(v'.RootEntries()) == (Catalog(v.RootEntries()) - gone) + added
    requires i < |v.RootEntries()| && v.RootEntries()[i].IsLive() ==> v.RootEntries()[i].name in gone + added.Keys
    requires OthersSame(v, v', i)
    ensures Files(v') == (Files(v) - gone) + map n | n in added :: FileOf(v', added[n])
  {
    hide FileOf, Catalog, DirOk, Entries, Vol.RootEntries;
    var cat := Catalog(v.RootEntries());
    forall n | n in cat && n !in gone && n !in added
      ensures FileOf(v', cat[n]) == FileOf(v, cat[n])
    {
      var j := CatalogWitness(v.RootEntries(), n);
    }
  }
}
