/**
 The state of a mounted volume as a value, and the ownership of its clusters.

 `Vol` holds what the operations of the driver can observe: the table of FAT entries, the contents of the
 clusters, the allocator's two counters and the shared cluster buffer.
 */
module VolumeState {
  import opened Bytes
  import opened FatImage
  import opened Chains
  import opened Allocator
  import opened Directory

  datatype Vol = Vol(
    root: nat, fat: seq<nat>, data: seq<seq<Byte>>, free: nat, hint: nat, buf: seq<Byte>)
  {
    function Bpc(): nat { |buf| }
    function PoolOf(): Pool { Pool(fat, free, hint) }
    function WithPool(p: Pool): Vol { this.(fat := p.fat, free := p.free, hint := p.hint) }

    /** `fat32_read_cluster` into the shared buffer. */
    function Loaded(c: nat): Vol { if c < |data| then this.(buf := data[c]) else this }

    /** `fat32_write_cluster` from the shared buffer. */
    function Stored(c: nat): Vol { if c < |data| then this.(data := data[c := buf]) else this }

    function RootEntries(): seq<Entry> { if root < |data| then Entries(data[root]) else [] }
  }

  /** Sizes agree: every cluster is as long as the buffer and holds a whole number of entries. */
  ghost predicate Shaped(v: Vol)
  {
    && Sized(v.fat) && |v.data| == |v.fat| && InRange(v.fat, v.root)
    && |v.buf| % 32 == 0 && |v.buf| >= 64
    && 2 <= v.hint <= |v.fat|
    && (forall c {:trigger v.data[c]} :: 2 <= c < |v.data| ==> |v.data[c]| == |v.buf|)
  }

  /** The first cluster of every live entry. */
  function Heads(es: seq<Entry>): (h: seq<Option<nat>>)
    ensures |h| == |es|
    ensures forall i {:trigger h[i]} :: 0 <= i < |es| ==> h[i] == if es[i].IsLive() then Some(es[i].first) else None
  {
    seq(|es|, (i: nat) requires i < |es| => if es[i].IsLive() then Some(es[i].first) else None)
  }

  /** `chains` lists, entry by entry, a chain of its own for every live entry (`[]` for the others), none
      of which meets another or the root's single cluster; and every cluster in use is the root or on
      one of them. Nothing is shared and nothing leaks. */
  ghost predicate Partition(root: nat, heads: seq<Option<nat>>, fat: seq<nat>, chains: seq<seq<nat>>)
  {
    && Sized(fat) && InRange(fat, root) && fat[root] >= FAT32_EOC
    && |chains| == |heads|
    && (forall i :: 0 <= i < |heads| ==> Heading(root, heads[i], fat, chains[i]))
    && (forall i, j, c :: 0 <= i < |chains| && 0 <= j < |chains| && i != j && c in chains[i] ==> c !in chains[j])
    && (forall c: nat :: InRange(fat, c) && fat[c] != FAT32_FREE && c != root ==> Covered(chains, c))
  }

  ghost predicate Heading(root: nat, head: Option<nat>, fat: seq<nat>, chain: seq<nat>)
  {
    match head
    case None => chain == []
    case Some(f) => IsChain(fat, chain) && chain[0] == f && root !in chain
  }

  ghost predicate Covered(chains: seq<seq<nat>>, c: nat)
  {
    exists i :: 0 <= i < |chains| && c in chains[i]
  }

  /** The chains found by following the table from every live entry. */
  ghost function ChainsOf(heads: seq<Option<nat>>, fat: seq<nat>): (r: seq<seq<nat>>)
    ensures |r| == |heads|
    ensures forall i {:trigger r[i]} :: 0 <= i < |heads| ==>
            r[i] == if heads[i].Some? then Chain(fat, heads[i].value) else []
  {
    seq(|heads|, (i: nat) requires i < |heads| => if heads[i].Some? then Chain(fat, heads[i].value) else [])
  }

  ghost predicate Owned(root: nat, es: seq<Entry>, fat: seq<nat>)
  {
    Partition(root, Heads(es), fat, ChainsOf(Heads(es), fat))
  }

  /** The allocator's bookkeeping is sound. */
  ghost predicate Counted(p: Pool) { PoolOk(p) && HintTight(p) && Gap(p) >= 0 }

  /** Files fit their chains. */
  ghost predicate Fitting(es: seq<Entry>, chains: seq<seq<nat>>, bpc: nat)
    requires |chains| == |es|
  {
    forall i :: 0 <= i < |es| && es[i].IsLive() ==> es[i].size <= |chains[i]| * bpc
  }

  /** The volume invariant. */
  ghost predicate Inv(v: Vol)
  {
    && Shaped(v)
    && DirOk(v.RootEntries())
    && Owned(v.root, v.RootEntries(), v.fat)
    && Fitting(v.RootEntries(), ChainsOf(Heads(v.RootEntries()), v.fat), v.Bpc())
    && Counted(v.PoolOf())
  }

  // ---- the partition is unique, and each kind of table change keeps it ----

  /** A partition is what following the table finds. */
  lemma PartitionIsFound(root: nat, heads: seq<Option<nat>>, fat: seq<nat>, chains: seq<seq<nat>>)
    requires Partition(root, heads, fat, chains)
    ensures chains == ChainsOf(heads, fat)
  {
    forall i | 0 <= i < |heads|
      ensures chains[i] == ChainsOf(heads, fat)[i]
    {
      assert Heading(root, heads[i], fat, chains[i]);
      if heads[i].Some? { ChainFound(fat, chains[i]); }
    }
  }

  /** The clusters of an owned chain are in use. */
  lemma PartitionInUse(root: nat, heads: seq<Option<nat>>, fat: seq<nat>, chains: seq<seq<nat>>)
    requires Partition(root, heads, fat, chains)
    ensures forall i, c :: 0 <= i < |chains| && c in chains[i] ==> InRange(fat, c) && fat[c] != FAT32_FREE
  {
    forall i, c | 0 <= i < |chains| && c in chains[i]
      ensures InRange(fat, c) && fat[c] != FAT32_FREE
    {
      assert Heading(root, heads[i], fat, chains[i]);
      ChainNotFree(fat, chains[i]);
    }
  }

  lemma HeadingFrame(root: nat, head: Option<nat>, fat: seq<nat>, fat': seq<nat>, chain: seq<nat>)
    requires Heading(root, head, fat, chain)
    requires |fat'| == |fat| && forall c :: c in chain ==> c < |fat| && fat'[c] == fat[c]
    ensures Heading(root, head, fat', chain)
  {
  }

  /** A new entry on a freshly allocated cluster. */
  lemma PartitionCreate(root: nat, heads: seq<Option<nat>>, fat: seq<nat>, chains: seq<seq<nat>>, i: nat, c: nat)
    requires Partition(root, heads, fat, chains) && i < |heads| && heads[i].None?
    requires InRange(fat, c) && fat[c] == FAT32_FREE
    ensures Partition(root, heads[i := Some(c)], fat[c := FAT32_EOC], chains[i := [c]])
  {
    var heads', fat', chains' := heads[i := Some(c)], fat[c := FAT32_EOC], chains[i := [c]];
    PartitionInUse(root, heads, fat, chains);
    forall j | 0 <= j < |heads|
      ensures Heading(root, heads'[j], fat', chains'[j])
    {
      assert Heading(root, heads[j], fat, chains[j]);
      if j != i { HeadingFrame(root, heads[j], fat, fat', chains[j]); }
    }
    forall x: nat | InRange(fat', x) && fat'[x] != FAT32_FREE && x != root
      ensures Covered(chains', x)
    {
      if x == c {
        assert x in chains'[i];
      } else {
        assert Covered(chains, x);
        var j :| 0 <= j < |chains| && x in chains[j];
        assert Heading(root, heads[i], fat, chains[i]);
        assert x in chains'[j];
      }
    }
  }

  /** Freeing the chain of an entry and striking the entry out. */
  lemma PartitionDelete(root: nat, heads: seq<Option<nat>>, fat: seq<nat>, chains: seq<seq<nat>>, i: nat)
    requires Partition(root, heads, fat, chains) && i < |heads|
    ensures Partition(root, heads[i := None], Cleared(fat, Members(chains[i])), chains[i := []])
  {
    var heads', fat', chains' := heads[i := None], Cleared(fat, Members(chains[i])), chains[i := []];
    PartitionInUse(root, heads, fat, chains);
    assert Heading(root, heads[i], fat, chains[i]);
    forall j | 0 <= j < |heads|
      ensures Heading(root, heads'[j], fat', chains'[j])
    {
      assert Heading(root, heads[j], fat, chains[j]);
      if j != i { HeadingFrame(root, heads[j], fat, fat', chains[j]); }
    }
    forall x: nat | InRange(fat', x) && fat'[x] != FAT32_FREE && x != root
      ensures Covered(chains', x)
    {
      assert Covered(chains, x);
      var j :| 0 <= j < |chains| && x in chains[j];
      assert x in chains'[j];
    }
  }

  lemma CoveredAfterExtend(chains: seq<seq<nat>>, i: nat, c: nat, x: nat)
    requires i < |chains| && (x == c || Covered(chains, x))
    ensures Covered(chains[i := chains[i] + [c]], x)
  {
    var chains' := chains[i := chains[i] + [c]];
    if x == c {
      assert x in chains'[i];
    } else {
      var j :| 0 <= j < |chains| && x in chains[j];
      assert x in chains'[j];
    }
  }

  /** Linking a freshly allocated cluster behind the last one of an entry's chain. */
  lemma PartitionExtend(root: nat, heads: seq<Option<nat>>, fat: seq<nat>, chains: seq<seq<nat>>, i: nat, c: nat)
    requires Partition(root, heads, fat, chains) && i < |heads| && heads[i].Some?
    requires InRange(fat, c) && fat[c] == FAT32_FREE
    ensures var ch := chains[i];
            && ch != [] && InRange(fat, ch[|ch| - 1])
            && Partition(root, heads, fat[c := FAT32_EOC][ch[|ch| - 1] := c], chains[i := ch + [c]])
  {
    hide IsChain, Chain, Covered;
    var ch := chains[i];
    PartitionInUse(root, heads, fat, chains);
    assert Heading(root, heads[i], fat, ch);
    HeadingExtended(root, heads[i], fat, ch, c);
    var last := ch[|ch| - 1];
    var fat', chains' := fat[c := FAT32_EOC][last := c], chains[i := ch + [c]];
    assert forall j :: 0 <= j < |heads| && j != i ==> chains'[j] == chains[j] && c !in chains[j] && last !in chains[j];
    forall j | 0 <= j < |heads|
      ensures Heading(root, heads[j], fat', chains'[j])
    {
      if j != i {
        assert forall x :: x in chains[j] ==> InRange(fat, x) && x != c && x != last;
        HeadingFrame(root, heads[j], fat, fat', chains[j]);
      }
    }
    hide Heading;
    forall x: nat | InRange(fat', x) && fat'[x] != FAT32_FREE && x != root
      ensures Covered(chains', x)
    {
      CoveredAfterExtend(chains, i, c, x);
    }
  }

  lemma HeadingExtended(root: nat, head: Option<nat>, fat: seq<nat>, ch: seq<nat>, c: nat)
    requires Heading(root, head, fat, ch) && head.Some? && InRange(fat, c) && fat[c] == FAT32_FREE && c != root
    ensures ch != [] && ch[|ch| - 1] in ch && InRange(fat, ch[|ch| - 1])
    ensures Heading(root, head, fat[c := FAT32_EOC][ch[|ch| - 1] := c], ch + [c])
  {
    hide Chain;
    ChainExtended(fat, ch, c);
  }
}
