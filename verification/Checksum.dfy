/**
 The Internet checksum of RFC 1071, as `network_checksum` computes it: little-endian words summed in 32 bits, the
 carries folded in, the result complemented.
 */
module Checksum {
  import opened Bytes
  import opened ByteOrder

  const ONES: nat := 0xFFFF

  /** The bytes that can be summed in 32 bits whatever they are: 65537 words. */
  const LONGEST: nat := 131074

  function Word16(low: nat, high: nat): nat { low + 256 * high }

  /** 32-bit wrap-around. */
  function Wrap(n: nat): (r: nat)
    ensures r < WORD && (n < WORD ==> r == n)
  {
    n % WORD
  }

  /** The sum of the words as the machine loads them; an odd last byte counts as a low byte. */
  function SumLow(b: seq<Byte>): nat
  {
    if b == [] then 0 else if |b| == 1 then b[0] else Word16(b[0], b[1]) + SumLow(b[2..])
  }

  /** The sum of the words in network order; an odd last byte counts as a high byte (section 1 of RFC 1071). */
  function SumHigh(b: seq<Byte>): nat
  {
    if b == [] then 0 else if |b| == 1 then 256 * b[0] else Word16(b[1], b[0]) + SumHigh(b[2..])
  }

  /** The carries folded in, until none is left. */
  function Fold(sum: nat): (r: nat)
    ensures r <= ONES
    decreases sum
  {
    if sum <= ONES then sum else Fold(sum % 0x1_0000 + sum / 0x1_0000)
  }

  function InternetChecksum(b: seq<Byte>): nat { ONES - Fold(SumLow(b)) }

  /** Up to two bytes: the first is the low one. */
  lemma ShortChecksums(a: Byte, b: Byte)
    ensures InternetChecksum([]) == 0xFFFF && InternetChecksum([a]) == 0xFFFF - a
    ensures var w: nat := b; InternetChecksum([a, b]) == 0xFFFF - (256 * w + a)
  {
    assert SumLow([a, b]) == Word16(a, b) + SumLow([a, b][2..]) && [a, b][2..] == [];
  }

  // ---- one's complement arithmetic ----

  lemma Carry(n: nat)
    ensures (n % 0x1_0000 + n / 0x1_0000) % ONES == n % ONES
  {
    var q, r := n / 0x1_0000, n % 0x1_0000;
    assert n == 0x1_0000 * q + r == ONES * q + (q + r);
    SameRemainder(q + r, q);
  }

  lemma SameRemainder(n: nat, q: nat)
    ensures (ONES * q + n) % ONES == n % ONES
    decreases q
  {
    if q > 0 {
      SameRemainder(n, q - 1);
      assert ONES * q + n == ONES + (ONES * (q - 1) + n);
    }
  }

  /** Folding is reduction modulo 2^16 - 1, where only zero folds to zero. */
  lemma {:induction false} FoldIs(sum: nat)
    ensures Fold(sum) % ONES == sum % ONES && (Fold(sum) == 0 <==> sum == 0)
    decreases sum
  {
    if sum > ONES {
      Carry(sum);
      FoldIs(sum % 0x1_0000 + sum / 0x1_0000);
    }
  }

  /** A folded sum is determined by its remainder and by being zero. */
  lemma FoldUnique(x: nat, y: nat)
    requires x <= ONES && y <= ONES && x % ONES == y % ONES && (x == 0 <==> y == 0)
    ensures x == y
  {
  }

  lemma AddRemainder(a: nat, b: nat, c: nat)
    requires a % ONES == b % ONES
    ensures (a + c) % ONES == (b + c) % ONES
  {
    var p, q := a / ONES, b / ONES;
    assert a == ONES * p + a % ONES && b == ONES * q + b % ONES;
    SameRemainder(a % ONES + c, p);
    SameRemainder(a % ONES + c, q);
  }

  // ---- sums ----

  lemma {:induction false} SumBound(b: seq<Byte>)
    ensures SumLow(b) <= (|b| + 1) / 2 * ONES
  {
    if |b| > 1 {
      SumBound(b[2..]);
      assert (|b| + 1) / 2 == (|b[2..]| + 1) / 2 + 1;
    }
  }

  lemma {:induction false} SumSplit(a: seq<Byte>, b: seq<Byte>)
    requires |a| % 2 == 0
    ensures SumLow(a + b) == SumLow(a) + SumLow(b)
  {
    if a == [] {
      assert a + b == b;
    } else {
      SumSplit(a[2..], b);
      assert (a + b)[2..] == a[2..] + b;
    }
  }

  lemma SwapStep(high: nat, low: nat, a: nat, b: nat)
    requires high % ONES == (256 * low) % ONES
    ensures (Word16(b, a) + high) % ONES == (256 * (Word16(a, b) + low)) % ONES
  {
    AddRemainder(high, 256 * low, Word16(b, a));
    SameRemainder(256 * low + Word16(b, a), b);
    assert 256 * (Word16(a, b) + low) == ONES * b + (256 * low + Word16(b, a));
  }

  /** The two byte orders give sums that differ by a factor of 256. */
  lemma {:induction false} SumSwaps(b: seq<Byte>)
    ensures SumHigh(b) % ONES == (256 * SumLow(b)) % ONES
  {
    if |b| > 1 {
      SumSwaps(b[2..]);
      SwapStep(SumHigh(b[2..]), SumLow(b[2..]), b[0], b[1]);
    }
  }

  lemma {:induction false} SumsVanish(b: seq<Byte>)
    ensures SumHigh(b) == 0 <==> SumLow(b) == 0
  {
    if |b| > 1 { SumsVanish(b[2..]); }
  }

  // ---- the function ----

  /** `network_checksum`. Up to 131074 bytes the 32-bit sum never wraps around, so the result is the checksum. */
  method NetworkChecksum(data: seq<Byte>) returns (r: nat)
    ensures |data| <= LONGEST ==> r == InternetChecksum(data)
    ensures r <= ONES
  {
    hide Wrap, Word16;
    SumFits(data);
    var sum: nat, at := 0, 0;
    while |data| - at > 1
      invariant at <= |data| && sum < WORD
      invariant |data| <= LONGEST ==> sum + SumLow(data[at..]) == SumLow(data)
    {
      assert data[at..][2..] == data[at + 2..];
      sum := Wrap(sum + Word16(data[at], data[at + 1]));
      at := at + 2;
    }
    if |data| - at == 1 { sum := Wrap(sum + data[at] as nat); }
    while sum / 0x1_0000 != 0
      invariant |data| <= LONGEST ==> Fold(sum) == Fold(SumLow(data))
      decreases sum
    {
      sum := sum % 0x1_0000 + sum / 0x1_0000;
    }
    return ONES - sum;
  }

  lemma SumFits(b: seq<Byte>)
    ensures |b| <= LONGEST ==> SumLow(b) < WORD
  {
    SumBound(b);
  }

  /** The bound is the best possible: one word more can wrap around. */
  lemma {:induction false} AllOnes(n: nat)
    ensures SumLow(seq(2 * n, _ => 255)) == n * ONES
  {
    if n > 0 {
      AllOnes(n - 1);
      assert seq<Byte>(2 * n, _ => 255)[2..] == seq<Byte>(2 * (n - 1), _ => 255);
    }
  }

  lemma LongestIsBest()
    ensures SumLow(seq(LONGEST, _ => 255)) < WORD <= SumLow(seq(LONGEST + 2, _ => 255))
  {
    AllOnes(65537);
    AllOnes(65538);
    assert seq<Byte>(LONGEST, _ => 255) == seq<Byte>(2 * 65537, _ => 255);
    assert seq<Byte>(LONGEST + 2, _ => 255) == seq<Byte>(2 * 65538, _ => 255);
  }

  // ---- what a checksum is for ----

  /** A 16-bit field at an even place, stored as the machine stores it. */
  function WithField(b: seq<Byte>, at: nat, x: nat): (r: seq<Byte>)
    requires at + 2 <= |b| && x <= ONES
    ensures |r| == |b|
  {
    Splice(b, at, Le16(x))
  }

  lemma FieldSum(b: seq<Byte>, at: nat, x: nat)
    requires at % 2 == 0 && at + 2 <= |b| && x <= ONES
    ensures SumLow(WithField(b, at, x)) == SumLow(b[..at]) + x + SumLow(b[at + 2..])
  {
    var r := WithField(b, at, x);
    var tail := r[at..];
    assert r == b[..at] + tail;
    SumSplit(b[..at], tail);
    assert tail[2..] == b[at + 2..];
  }

  /** With the checksum stored in a field that was zero, a second checksum is zero. It is zero for exactly that
      value of the field, except that all ones may stand for zero. */
  lemma CheckPassesIff(b: seq<Byte>, at: nat, x: nat)
    requires at % 2 == 0 && at + 2 <= |b| && x <= ONES
    ensures var sum := InternetChecksum(WithField(b, at, 0));
            InternetChecksum(WithField(b, at, x)) == 0 <==> x == sum || (sum == 0 && x == ONES)
  {
    hide Fold, SumLow;
    FieldSum(b, at, 0);
    FieldSum(b, at, x);
    PassesIff(SumLow(WithField(b, at, 0)), x);
  }

  lemma PassesIff(s: nat, x: nat)
    requires x <= ONES
    ensures Fold(s + x) == ONES <==> x == ONES - Fold(s) || (Fold(s) == ONES && x == ONES)
  {
    hide Fold;
    FoldIs(s);
    FoldIs(s + x);
    var f := Fold(s);
    AddRemainder(s, f, x);
    if f + x > 2 * ONES - 1 { assert f + x == 2 * ONES; }
  }

  /** Summing in machine order gives the byte-swapped checksum of network order (section 2(B) of RFC 1071). */
  lemma ByteOrderIndependent(b: seq<Byte>)
    ensures InternetChecksum(b) == Htons(ONES - Fold(SumHigh(b)))
  {
    var low, high := Fold(SumLow(b)), Fold(SumHigh(b));
    FoldIs(SumLow(b));
    FoldIs(SumHigh(b));
    SumSwaps(b);
    SumsVanish(b);
    ScaleRemainder(SumLow(b), low);
    SwapScales(low);
    FoldUnique(Htons(low), high);
    SwapComplement(low);
    hide Fold;
    HtonsTwice(ONES - low);
  }

  lemma ScaleRemainder(a: nat, b: nat)
    requires a % ONES == b % ONES
    ensures (256 * a) % ONES == (256 * b) % ONES
  {
    var p, q, r := a / ONES, b / ONES, a % ONES;
    SameRemainder(256 * r, 256 * p);
    SameRemainder(256 * r, 256 * q);
  }

  lemma SwapScales(x: nat)
    requires x <= ONES
    ensures Htons(x) % ONES == (256 * x) % ONES && (Htons(x) == 0 <==> x == 0)
  {
    SameRemainder(Htons(x), x / 256);
  }

  lemma SwapComplement(x: nat)
    requires x <= ONES
    ensures Htons(ONES - x) == ONES - Htons(x)
  {
    var hi, lo := x / 256, x % 256;
    assert ONES - x == 256 * (255 - hi) + (255 - lo);
  }
}
