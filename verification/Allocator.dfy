/**
 The cluster allocator: a next-free hint, a free counter and the scan-and-mark operations on the table.

 The functions mirror `fat32_allocate_cluster` and `fat32_free_cluster_chain`; the lemmas compare them
 with plain first-fit and with exact bookkeeping.
 */
module Allocator {
  import opened Bytes
  import opened FatImage
  import opened Chains

  /** The table with the two running values of `g_fs` that the allocator keeps. */
  datatype Pool = Pool(fat: seq<nat>, free: nat, hint: nat)

  ghost predicate PoolOk(p: Pool) { Sized(p.fat) && 2 <= p.hint <= |p.fat| }

  /** No cluster below the hint is free. */
  ghost predicate HintTight(p: Pool)
  {
    forall c :: 2 <= c < p.hint && c < |p.fat| ==> p.fat[c] != FAT32_FREE
  }

  /** How many free clusters the counter fails to account for. */
  ghost function Gap(p: Pool): int { |FreeSet(p.fat)| - p.free }

  // ---- allocation ----

  /** The first free cluster of `lo..hi`, in scanning order. */
  function Scan(fat: seq<nat>, lo: nat, hi: nat): Option<nat>
    requires hi <= |fat|
    decreases hi - lo
  {
    if lo >= hi then None else if fat[lo] == FAT32_FREE then Some(lo) else Scan(fat, lo + 1, hi)
  }

  function Take(p: Pool, c: nat): Pool
    requires InRange(p.fat, c) && p.free > 0
  {
    Pool(p.fat[c := FAT32_EOC], p.free - 1, c + 1)
  }

  /** `fat32_allocate_cluster`: scan from the hint, then from the start; 0 means failure. */
  function Allocate(p: Pool): (r: (Pool, nat))
    requires PoolOk(p)
  {
    if p.free == 0 then (p, 0)
    else
      ScanResult(p.fat, p.hint, |p.fat|);
      ScanResult(p.fat, 2, p.hint);
      match Scan(p.fat, p.hint, |p.fat|)
      case Some(c) => (Take(p, c), c)
      case None =>
        match Scan(p.fat, 2, p.hint)
        case Some(c) => (Take(p, c), c)
        case None => (p, 0)
  }

  lemma {:induction false} ScanResult(fat: seq<nat>, lo: nat, hi: nat)
    requires hi <= |fat|
    ensures match Scan(fat, lo, hi)
            case Some(c) => lo <= c < hi && fat[c] == FAT32_FREE && (forall x :: lo <= x < c ==> fat[x] != FAT32_FREE)
            case None => forall x :: lo <= x < hi ==> fat[x] != FAT32_FREE
    decreases hi - lo
  {
    if lo < hi && fat[lo] != FAT32_FREE {
      ScanResult(fat, lo + 1, hi);
    }
  }

  /** With a tight hint the second scan never finds anything. */
  lemma SecondScanIsIdle(p: Pool)
    requires PoolOk(p) && HintTight(p)
    ensures Scan(p.fat, 2, p.hint) == None
  {
    ScanResult(p.fat, 2, p.hint);
  }

  lemma FreeSetUpdate(fat: seq<nat>, c: nat, x: nat)
    requires InRange(fat, c)
    ensures x == FAT32_FREE ==> FreeSet(fat[c := x]) == FreeSet(fat) + {c}
    ensures x != FAT32_FREE ==> FreeSet(fat[c := x]) == FreeSet(fat) - {c}
  {
  }

  /** The hinted allocator refines first-fit: while the counter is positive it hands out the lowest free
      cluster of the whole table, end-marked, and it fails exactly when the counter is zero. The hint
      stays tight and the gap between the counter and the true number of free clusters does not move. */
  lemma AllocateIsFirstFit(p: Pool)
    requires PoolOk(p) && HintTight(p) && Gap(p) >= 0
    ensures var (p', c) := Allocate(p);
            if p.free == 0 then c == 0 && p' == p
            else
              && InRange(p.fat, c) && p.fat[c] == 0
              && (forall x :: 2 <= x < c ==> p.fat[x] != 0)
              && p' == Pool(p.fat[c := 0x0FFF_FFF8], p.free - 1, c + 1)
              && PoolOk(p') && HintTight(p') && Gap(p') == Gap(p)
  {
    if p.free > 0 {
      ScanResult(p.fat, p.hint, |p.fat|);
      SecondScanIsIdle(p);
      assert FreeSet(p.fat) != {};
      var x :| x in FreeSet(p.fat);
      FreeSetUpdate(p.fat, Allocate(p).1, FAT32_EOC);
    }
  }

  // ---- release ----

  ghost function UsedSet(fat: seq<nat>): set<nat> { set c | 2 <= c < |fat| && fat[c] != FAT32_FREE }

  lemma UsedSetShrinks(fat: seq<nat>, c: nat)
    requires InRange(fat, c) && fat[c] != FAT32_FREE
    ensures |UsedSet(fat[c := FAT32_FREE])| < |UsedSet(fat)|
  {
    assert UsedSet(fat[c := FAT32_FREE]) == UsedSet(fat) - {c};
    assert c in UsedSet(fat);
  }

  function Drop(p: Pool, c: nat): Pool
    requires InRange(p.fat, c)
  {
    Pool(p.fat[c := FAT32_FREE], p.free + 1, if c < p.hint then c else p.hint)
  }

  /** The loop of `fat32_free_cluster_chain`, on any table at all. It ends because a step either turns a
      used entry free or follows a free entry to cluster 0. */
  function Release(p: Pool, c: nat): (r: (Pool, bool))
    requires Sized(p.fat)
    ensures |r.0.fat| == |p.fat|
    decreases |UsedSet(p.fat)|, c
  {
    if !(2 <= c < FAT32_EOC) then (p, true)
    else if c >= |p.fat| then (p, false)
    else
      if p.fat[c] != FAT32_FREE then UsedSetShrinks(p.fat, c); Release(Drop(p, c), p.fat[c])
      else
        assert p.fat[c := FAT32_FREE] == p.fat;
        Release(Drop(p, c), FAT32_FREE)
  }

  /** The table with the clusters of `s` marked free. */
  function Cleared(fat: seq<nat>, s: set<nat>): (r: seq<nat>)
    ensures |r| == |fat|
    ensures forall c {:trigger r[c]} :: 0 <= c < |fat| ==> r[c] == if c in s then FAT32_FREE else fat[c]
  {
    seq(|fat|, (c: nat) requires c < |fat| => if c in s then FAT32_FREE else fat[c])
  }

  /** On every table, however damaged: the hint stays tight, and no entry changes except by becoming free. */
  lemma {:induction false} ReleaseOnAnyTable(p: Pool, c: nat)
    requires PoolOk(p)
    ensures var p' := Release(p, c).0;
            && PoolOk(p') && (HintTight(p) ==> HintTight(p')) && p'.free >= p.free
            && (forall x :: 0 <= x < |p.fat| ==> p'.fat[x] == p.fat[x] || p'.fat[x] == FAT32_FREE)
    decreases |UsedSet(p.fat)|, c
  {
    if InRange(p.fat, c) {
      if p.fat[c] != FAT32_FREE {
        UsedSetShrinks(p.fat, c);
        ReleaseOnAnyTable(Drop(p, c), p.fat[c]);
      } else {
        assert p.fat[c := FAT32_FREE] == p.fat;
        ReleaseOnAnyTable(Drop(p, c), FAT32_FREE);
      }
    }
  }

  /** On a well-formed chain it frees that chain and nothing else, and counts every cluster once. */
  lemma {:induction false} ReleaseFreesTheChain(p: Pool, ch: seq<nat>)
    requires PoolOk(p) && IsChain(p.fat, ch)
    ensures var (p', ok) := Release(p, ch[0]);
            && ok && p'.fat == Cleared(p.fat, Members(ch))
            && p'.free == p.free + |ch| && Gap(p') == Gap(p) && (forall c :: c in ch ==> p'.fat[c] == 0)
            && PoolOk(p') && (HintTight(p) ==> HintTight(p'))
    decreases |ch|
  {
    ReleaseOnAnyTable(p, ch[0]);
    ReleaseStep(p, ch);
    var q := Drop(p, ch[0]);
    hide Release, Gap, HintTight;
    if |ch| == 1 {
      assert q.fat == Cleared(p.fat, Members(ch));
      ReleaseStops(q, p.fat[ch[0]]);
    } else {
      assert p.fat[ch[0]] == ch[1..][0];
      ReleaseFreesTheChain(q, ch[1..]);
      assert Cleared(q.fat, Members(ch[1..])) == Cleared(p.fat, Members(ch));
    }
  }

  /** The next search starts at the lowest cluster given back, or where it would have started anyway. */
  lemma {:induction false} ReleaseLowersHint(p: Pool, ch: seq<nat>)
    requires PoolOk(p) && IsChain(p.fat, ch)
    ensures var h := Release(p, ch[0]).0.hint;
            && h <= p.hint && (forall k :: 0 <= k < |ch| ==> h <= ch[k]) && (h == p.hint || h in ch)
    decreases |ch|
  {
    ReleaseStep(p, ch);
    var q := Drop(p, ch[0]);
    hide Release;
    if |ch| == 1 {
      ReleaseStops(q, p.fat[ch[0]]);
    } else {
      ReleaseLowersHint(q, ch[1..]);
    }
  }

  lemma ReleaseStops(p: Pool, c: nat)
    requires Sized(p.fat) && c >= FAT32_EOC
    ensures Release(p, c) == (p, true)
  {
  }

  /** The first turn of the loop on a well-formed chain. */
  lemma ReleaseStep(p: Pool, ch: seq<nat>)
    requires PoolOk(p) && IsChain(p.fat, ch)
    ensures var q := Drop(p, ch[0]);
            && Release(p, ch[0]) == Release(q, p.fat[ch[0]]) && Gap(q) == Gap(p) && PoolOk(q)
            && (|ch| == 1 ==> p.fat[ch[0]] >= FAT32_EOC) && (|ch| > 1 ==> IsChain(q.fat, ch[1..]))
  {
    ChainNotFree(p.fat, ch);
    UsedSetShrinks(p.fat, ch[0]);
    FreeSetUpdate(p.fat, ch[0], FAT32_FREE);
    ChainIsAcyclic(p.fat, ch);
    if |ch| > 1 { TailIsChain(p.fat, ch); }
  }
}
