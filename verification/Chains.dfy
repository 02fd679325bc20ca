/**
 Cluster chains in the table of FAT entries.

 An entry is free (0), the number of the next cluster, or an end mark (EOC or above). `Chain(fat, c)`
 follows the entries from `c`; `IsChain` says that such a list of clusters stays in range, is linked and
 ends in an end mark.
 */
module Chains {
  import opened FatImage

  predicate InRange(fat: seq<nat>, c: nat) { 2 <= c < |fat| }

  /** The table is small enough for an end mark never to be a cluster number. */
  predicate Sized(fat: seq<nat>) { 2 <= |fat| <= FAT32_EOC }

  /** What `fat32_read_fat_entry` answers: the entry, or the end mark for what is no cluster of the volume. */
  function Link(fat: seq<nat>, c: nat): nat { if InRange(fat, c) then fat[c] else FAT32_EOC }

  ghost predicate IsChain(fat: seq<nat>, ch: seq<nat>)
  {
    && Sized(fat) && ch != []
    && (forall i :: 0 <= i < |ch| ==> InRange(fat, ch[i]))
    && (forall i :: 0 <= i < |ch| - 1 ==> fat[ch[i]] == ch[i + 1])
    && fat[ch[|ch| - 1]] >= FAT32_EOC
  }

  function Follow(fat: seq<nat>, c: nat, fuel: nat): (ch: seq<nat>)
    ensures ch != [] ==> ch[0] == c && InRange(fat, c)
    decreases fuel
  {
    if fuel == 0 || !InRange(fat, c) then [] else [c] + Follow(fat, fat[c], fuel - 1)
  }

  /** The clusters met when following the table from `c`. */
  function Chain(fat: seq<nat>, c: nat): (ch: seq<nat>)
    ensures ch != [] ==> ch[0] == c && InRange(fat, c)
  {
    Follow(fat, c, |fat|)
  }

  /** A well-formed file starts at `c`. */
  ghost predicate GoodChain(fat: seq<nat>, c: nat) { IsChain(fat, Chain(fat, c)) }

  ghost predicate Distinct(ch: seq<nat>)
  {
    forall i, j :: 0 <= i < j < |ch| ==> ch[i] != ch[j]
  }

  function Members(ch: seq<nat>): set<nat> { set c | c in ch }

  function FreeSet(fat: seq<nat>): set<nat> { set c | 2 <= c < |fat| && fat[c] == FAT32_FREE }

  // ---- a chain has no cycle and is the one that following the table finds ----

  /** A list that ends in an end mark cannot visit a cluster twice: a repeat would repeat for ever. */
  lemma {:induction false} NoRepeat(fat: seq<nat>, ch: seq<nat>, i: nat, j: nat)
    requires IsChain(fat, ch) && i < j < |ch|
    ensures ch[i] != ch[j]
    decreases |ch| - j
  {
    assert fat[ch[i]] == ch[i + 1] && InRange(fat, ch[i + 1]);
    if j < |ch| - 1 {
      NoRepeat(fat, ch, i + 1, j + 1);
    }
  }

  lemma ChainIsAcyclic(fat: seq<nat>, ch: seq<nat>)
    requires IsChain(fat, ch)
    ensures Distinct(ch)
  {
    forall i, j | 0 <= i < j < |ch|
      ensures ch[i] != ch[j]
    {
      NoRepeat(fat, ch, i, j);
    }
  }

  lemma {:induction false} MembersCount(ch: seq<nat>)
    requires Distinct(ch)
    ensures |Members(ch)| == |ch|
  {
    if ch != [] {
      var n := |ch| - 1;
      MembersCount(ch[..n]);
      assert ch == ch[..n] + [ch[n]];
      assert Members(ch) == Members(ch[..n]) + {ch[n]};
      assert ch[n] !in ch[..n];
    }
  }

  lemma {:induction false} BelowCount(s: set<nat>, n: nat)
    requires forall x :: x in s ==> x < n
    ensures |s| <= n
    decreases n
  {
    if n == 0 {
      assert s == {};
    } else {
      var r := s - {n - 1};
      BelowCount(r, n - 1);
      assert s <= r + {n - 1};
      assert |s| <= |r + {n - 1}| by { SubsetCount(s, r + {n - 1}); }
    }
  }

  lemma {:induction false} SubsetCount<T>(a: set<T>, b: set<T>)
    requires a <= b
    ensures |a| <= |b|
    ensures |b - a| == |b| - |a|
  {
    assert b == a + (b - a);
  }

  lemma ChainIsShort(fat: seq<nat>, ch: seq<nat>)
    requires IsChain(fat, ch)
    ensures |ch| <= |fat|
  {
    ChainIsAcyclic(fat, ch);
    MembersCount(ch);
    BelowCount(Members(ch), |fat|);
  }

  lemma {:induction false} FollowFinds(fat: seq<nat>, ch: seq<nat>, fuel: nat)
    requires IsChain(fat, ch) && |ch| <= fuel
    ensures Follow(fat, ch[0], fuel) == ch
  {
    if |ch| == 1 {
      assert Follow(fat, fat[ch[0]], fuel - 1) == [];
    } else {
      TailIsChain(fat, ch);
      FollowFinds(fat, ch[1..], fuel - 1);
    }
  }

  lemma TailIsChain(fat: seq<nat>, ch: seq<nat>)
    requires IsChain(fat, ch) && |ch| > 1
    ensures IsChain(fat, ch[1..])
  {
    forall i | 0 <= i < |ch| - 2
      ensures fat[ch[1..][i]] == ch[1..][i + 1]
    {
      assert fat[ch[i + 1]] == ch[i + 2];
    }
  }

  /** Chains are unique: a well-formed list of clusters is what following its head finds. */
  lemma ChainFound(fat: seq<nat>, ch: seq<nat>)
    requires IsChain(fat, ch)
    ensures Chain(fat, ch[0]) == ch
    ensures GoodChain(fat, ch[0])
  {
    ChainIsShort(fat, ch);
    FollowFinds(fat, ch, |fat|);
  }

  // ---- frames ----

  /** Two tables that agree on the clusters of a chain have that chain in common. */
  lemma ChainFrame(fat: seq<nat>, fat': seq<nat>, c: nat)
    requires GoodChain(fat, c)
    requires |fat'| == |fat| && forall x :: x in Chain(fat, c) ==> fat'[x] == fat[x]
    ensures Chain(fat', c) == Chain(fat, c)
    ensures GoodChain(fat', c)
  {
    var ch := Chain(fat, c);
    assert IsChain(fat', ch);
    ChainFound(fat', ch);
  }

  /** A chain consists of clusters that are not free. */
  lemma ChainNotFree(fat: seq<nat>, ch: seq<nat>)
    requires IsChain(fat, ch)
    ensures forall c :: c in ch ==> InRange(fat, c) && fat[c] != FAT32_FREE
  {
    forall c | c in ch
      ensures InRange(fat, c) && fat[c] != FAT32_FREE
    {
      var i :| 0 <= i < |ch| && ch[i] == c;
      if i < |ch| - 1 { assert fat[ch[i]] == ch[i + 1]; }
    }
  }

  /** Linking a fresh end-marked cluster behind the last one makes the chain one longer. */
  lemma ChainExtended(fat: seq<nat>, ch: seq<nat>, c: nat)
    requires IsChain(fat, ch) && InRange(fat, c) && fat[c] == FAT32_FREE
    ensures c !in ch
    ensures var fat' := fat[c := FAT32_EOC][ch[|ch| - 1] := c];
            IsChain(fat', ch + [c]) && Chain(fat', ch[0]) == ch + [c]
  {
    ChainNotFree(fat, ch);
    ChainIsAcyclic(fat, ch);
    var n := |ch| - 1;
    var fat' := fat[c := FAT32_EOC][ch[n] := c];
    var ch' := ch + [c];
    forall i | 0 <= i < |ch'| - 1
      ensures fat'[ch'[i]] == ch'[i + 1]
    {
      if i < n { assert ch[i] != ch[n]; assert ch[i] in ch; }
    }
    assert fat'[ch'[n + 1]] >= FAT32_EOC by { assert ch[n] in ch; }
    ChainFound(fat', ch');
  }

  lemma SingletonChain(fat: seq<nat>, c: nat)
    requires Sized(fat) && InRange(fat, c) && fat[c] >= FAT32_EOC
    ensures GoodChain(fat, c) && Chain(fat, c) == [c]
  {
    assert IsChain(fat, [c]);
    ChainFound(fat, [c]);
  }
}
