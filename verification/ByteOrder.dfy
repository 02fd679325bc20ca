/** Host and network byte order on 16-bit and 32-bit words: `htons` and `htonl`, which undo themselves. */
module ByteOrder {
  import opened Bytes

  type Word = x: nat | x < WORD

  /** `htons`, which is also `ntohs`. */
  function Htons(x: nat): (r: nat)
    requires x < 0x1_0000
    ensures r < 0x1_0000
  {
    x % 0x100 * 0x100 + x / 0x100 % 0x100
  }

  /** `htonl`, which is also `ntohl`. */
  function Htonl(x: nat): (r: nat)
    requires x < WORD
    ensures r < WORD
  {
    x % 0x100 * 0x100_0000 + x / 0x100 % 0x100 * 0x1_0000 + x / 0x1_0000 % 0x100 * 0x100 + x / 0x100_0000 % 0x100
  }

  /** A 32-bit word, most significant byte first. */
  function Be32(s: seq<Byte>): Word
    requires |s| == 4
  {
    var a: nat, b: nat, c: nat, d: nat := s[0], s[1], s[2], s[3];
    a * 0x100_0000 + b * 0x1_0000 + c * 0x100 + d
  }

  lemma HtonsTwice(x: nat)
    requires x < 0x1_0000
    ensures Htons(Htons(x)) == x
  {
  }

  /** The four digits of a word to the base 256 are unique. */
  lemma Digits(x: nat, a: nat, b: nat, c: nat, d: nat)
    requires a < 256 && b < 256 && c < 256 && d < 256 && x == a * 0x100_0000 + b * 0x1_0000 + c * 0x100 + d
    ensures x % 0x100 == d && x / 0x100 % 0x100 == c && x / 0x1_0000 % 0x100 == b && x / 0x100_0000 % 0x100 == a
  {
    assert x / 0x100 == a * 0x1_0000 + b * 0x100 + c;
    assert x / 0x1_0000 == a * 0x100 + b;
  }

  /** Swapping a word's bytes twice gives it back. */
  lemma HtonlTwice(x: nat)
    requires x < WORD
    ensures Htonl(Htonl(x)) == x
  {
    Digits(Htonl(x), x % 0x100, x / 0x100 % 0x100, x / 0x1_0000 % 0x100, x / 0x100_0000 % 0x100);
    assert x / 0x100 / 0x100 == x / 0x1_0000;
    assert x / 0x1_0000 / 0x100 == x / 0x100_0000;
  }

  /** A word loaded in host order and swapped is the word in network order. */
  lemma SwappedLoad(s: seq<Byte>)
    requires |s| == 4
    ensures Htonl(De32(s)) == Be32(s)
  {
    Digits(De32(s), s[3], s[2], s[1], s[0]);
  }

  /** A swapped word stored in host order reads back in network order. */
  lemma SwappedStore(x: nat)
    requires x < WORD
    ensures Be32(Le32(Htonl(x))) == x
  {
    De32OfLe32(Htonl(x));
    SwappedLoad(Le32(Htonl(x)));
    HtonlTwice(x);
  }

  /** Both exchange the bytes of a word end for end. */
  lemma HtonsSwaps(a: Byte, b: Byte)
    ensures Htons(Pair(a, b)) == Pair(b, a)
  {
    var x: nat := a;
    var y: nat := b;
    var z := Pair(x, y);
    assert z == 0x100 * x + y;
    assert z / 0x100 == x && z % 0x100 == y;
  }

  lemma HtonlSwaps(a: Byte, b: Byte, c: Byte, d: Byte)
    ensures Htonl(Four(a, b, c, d)) == Four(d, c, b, a)
  {
    var x := Four(a, b, c, d);
    Digits(x, a, b, c, d);
    assert x / 0x100_0000 % 0x100 == a as nat;
  }

  function Pair(a: nat, b: nat): nat { 256 * a + b }

  function Four(a: nat, b: nat, c: nat, d: nat): nat { 0x100_0000 * a + 0x1_0000 * b + 0x100 * c + d }
}
