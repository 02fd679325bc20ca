/** Bytes, little-endian words and the in-place overwrite of a stretch of a buffer. */
module Bytes {

  datatype Option<T> = None | Some(value: T)

  type Byte = b: int | 0 <= b < 256

  /** The buffer of the commands that go through a file in pieces. */
  const CHUNK: nat := 512

  /** What a 32-bit word wraps around at. */
  const WORD: nat := 0x1_0000_0000

  /** `s` with `t` written over it from index `at` on: the effect of a copy loop. */
  function Splice<T>(s: seq<T>, at: nat, t: seq<T>): (r: seq<T>)
    requires at + |t| <= |s|
    ensures |r| == |s|
    ensures forall k {:trigger r[k]} :: 0 <= k < |s| ==> r[k] == if at <= k < at + |t| then t[k - at] else s[k]
  {
    s[..at] + t + s[at + |t|..]
  }

  /** The `n` elements of `s` from index `at` on. */
  function Window<T>(s: seq<T>, at: nat, n: nat): (r: seq<T>)
    requires at + n <= |s|
    ensures |r| == n
  {
    s[at..at + n]
  }

  /** The bytes `t` copied to `dst` from index `at` on. */
  method Poke(dst: array<Byte>, at: nat, t: seq<Byte>)
    requires at + |t| <= dst.Length
    modifies dst
    ensures dst[..] == Splice(old(dst[..]), at, t)
  {
    var i := 0;
    while i < |t|
      invariant i <= |t|
      invariant forall k :: 0 <= k < dst.Length ==> dst[k] == if at <= k < at + i then t[k - at] else old(dst[k])
    {
      dst[at + i] := t[i];
      i := i + 1;
    }
    assert dst[..] == Splice(old(dst[..]), at, t);
  }

  lemma WindowOfSplice<T>(s: seq<T>, at: nat, t: seq<T>, lo: nat, n: nat)
    requires at + |t| <= |s| && lo + n <= |s|
    ensures lo + n <= at || at + |t| <= lo ==> Window(Splice(s, at, t), lo, n) == Window(s, lo, n)
    ensures at <= lo && lo + n <= at + |t| ==> Window(Splice(s, at, t), lo, n) == Window(t, lo - at, n)
  {
  }

  lemma SpliceInsideWindow<T>(s: seq<T>, lo: nat, n: nat, at: nat, t: seq<T>)
    requires lo + n <= |s| && at + |t| <= n
    ensures Window(Splice(s, lo + at, t), lo, n) == Splice(Window(s, lo, n), at, t)
  {
  }

  function Le16(x: nat): (r: seq<Byte>)
    requires x < 0x1_0000
    ensures |r| == 2
  {
    [x % 256, x / 256]
  }

  function De16(s: seq<Byte>): (x: nat)
    requires |s| == 2
    ensures x < 0x1_0000
  {
    var a: nat, b: nat := s[0], s[1];
    a + 256 * b
  }

  function Le32(x: nat): (r: seq<Byte>)
    requires x < WORD
    ensures |r| == 4
  {
    [x % 256, x / 0x100 % 256, x / 0x1_0000 % 256, x / 0x100_0000]
  }

  function De32(s: seq<Byte>): (x: nat)
    requires |s| == 4
    ensures x < WORD
  {
    var a: nat, b: nat, c: nat, d: nat := s[0], s[1], s[2], s[3];
    a + 0x100 * b + 0x1_0000 * c + 0x100_0000 * d
  }

  lemma De32OfLe32(x: nat)
    requires x < WORD
    ensures De32(Le32(x)) == x
  {
    assert x / 0x100 / 0x100 == x / 0x1_0000;
    assert x / 0x1_0000 / 0x100 == x / 0x100_0000;
  }

  /** Four bytes read with the lowest first. */
  function LittleEndian(a: nat, b: nat, c: nat, d: nat): nat { a + 256 * (b + 256 * (c + 256 * d)) }

  function Zeros(n: nat): (r: seq<Byte>)
    ensures |r| == n
  {
    seq(n, _ => 0)
  }
}
