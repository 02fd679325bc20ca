/**
 The generator of DHCP transaction ids: x -> 1103515245 x + 12345 modulo 2^32.

 A generator x -> a x + c modulo 2^k has full period whenever a leaves 1 modulo 4 and c is odd: `n` draws lead
 back to the seed exactly when 2^k divides `n`. So no id comes back within 2^32 draws.
 */
module TransactionIds {
  import opened Bytes

  function Pow2(k: nat): (p: nat)
    ensures p > 0
  {
    if k == 0 then 1 else 2 * Pow2(k - 1)
  }

  predicate Divides(d: nat, n: int)
    requires d > 0
  {
    n % d == 0
  }

  // ---- remainders ----

  lemma ModIs(n: int, d: nat, q: int, r: int)
    requires d > 0 && n == q * d + r && 0 <= r < d
    ensures n % d == r && n / d == q
  {
    var e := n / d - q;
    assert n == (n / d) * d + n % d;
    assert e * d == r - n % d by { assert (n / d) * d - q * d == e * d; }
    if e >= 1 { MulGe(e, 1, d); } else if e <= -1 { MulGe(-1, e, d); }
  }

  lemma MulGe(a: int, b: int, d: nat)
    requires a >= b
    ensures a * d >= b * d
  {
  }

  lemma ModShift(n: int, d: nat, q: int)
    requires d > 0
    ensures (n + q * d) % d == n % d
  {
    var k := n / d;
    assert n == k * d + n % d;
    assert (k + q) * d == k * d + q * d;
    ModIs(n + q * d, d, k + q, n % d);
  }

  lemma DoubleDivides(d: nat, n: int)
    requires d > 0
    ensures Divides(2 * d, 2 * n) <==> Divides(d, n)
  {
    var q, r := n / d, n % d;
    assert n == q * d + r;
    assert 2 * n == q * (2 * d) + 2 * r;
    ModIs(2 * n, 2 * d, q, 2 * r);
  }

  lemma EvenDivisor(d: nat, n: int)
    requires d > 0 && Divides(2 * d, n)
    ensures n % 2 == 0
  {
    var q := n / (2 * d);
    assert n == q * (2 * d);
    assert n == 2 * (q * d);
  }

  // ---- products ----

  function Times(a: nat, b: nat): nat { a * b }

  lemma Distributes(a: nat, b: nat, c: nat)
    ensures Times(a, b + c) == Times(a, b) + Times(a, c)
    ensures Times(b + c, a) == Times(b, a) + Times(c, a)
  {
  }

  lemma Associates(a: nat, b: nat, c: nat)
    ensures Times(a, Times(b, c)) == Times(Times(a, b), c)
  {
  }

  lemma Commutes(a: nat, b: nat)
    ensures Times(a, b) == Times(b, a) && Times(1, a) == a && Times(0, a) == 0
  {
  }

  lemma Doubles(m: nat, u: nat)
    ensures Times(2 * m, u) == 2 * Times(m, u)
  {
    hide Times;
    Distributes(u, m, m);
  }

  lemma OddTimes(a: nat, s: nat)
    requires a % 2 == 1
    ensures Times(a, s) % 2 == s % 2
  {
    hide Times;
    var q := a / 2;
    Distributes(s, 2 * q, 1);
    Doubles(q, s);
    Commutes(s, 1);
  }

  lemma Mod4Times(a: nat, s: nat)
    requires a % 4 == 1
    ensures Times(a, s) % 4 == s % 4
  {
    hide Times;
    var q := a / 4;
    Distributes(s, 2 * (2 * q), 1);
    Doubles(2 * q, s);
    Doubles(q, s);
    Commutes(s, 1);
    assert a == 2 * (2 * q) + 1;
  }

  /** An odd factor does not matter for divisibility by a power of two. */
  lemma {:induction false} OddFactor(k: nat, n: nat, u: nat)
    requires u % 2 == 1
    ensures Divides(Pow2(k), Times(n, u)) <==> Divides(Pow2(k), n)
    decreases k
  {
    hide Times, Divides;
    if k == 0 {
      ByOne(n);
      ByOne(Times(n, u));
    } else if n % 2 == 0 {
      var m := n / 2;
      Doubles(m, u);
      OddFactor(k - 1, m, u);
      DoubleDivides(Pow2(k - 1), Times(m, u));
      DoubleDivides(Pow2(k - 1), m);
    } else {
      OddTimes(u, n);
      Commutes(n, u);
      if Divides(Pow2(k), n) { EvenDivisor(Pow2(k - 1), n); }
      if Divides(Pow2(k), Times(n, u)) { EvenDivisor(Pow2(k - 1), Times(n, u)); }
    }
  }

  lemma ByOne(n: nat)
    ensures Divides(1, n)
  {
  }

  // ---- powers and their sums ----

  function Power(a: nat, n: nat): nat { if n == 0 then 1 else Times(a, Power(a, n - 1)) }

  /** 1 + a + ... + a^(n-1). */
  function Series(a: nat, n: nat): nat { if n == 0 then 0 else Times(a, Series(a, n - 1)) + 1 }

  lemma {:induction false} PowerMod4(a: nat, n: nat)
    requires a % 4 == 1
    ensures Power(a, n) % 4 == 1
  {
    hide Times;
    if n > 0 {
      PowerMod4(a, n - 1);
      Mod4Times(a, Power(a, n - 1));
    }
  }

  lemma {:induction false} SeriesJoin(a: nat, m: nat, n: nat)
    ensures Series(a, m + n) == Times(Power(a, n), Series(a, m)) + Series(a, n)
  {
    hide Times;
    Commutes(Series(a, m), Series(a, m));
    if n > 0 {
      SeriesJoin(a, m, n - 1);
      var p, s, t := Power(a, n - 1), Series(a, m), Series(a, n - 1);
      Distributes(a, Times(p, s), t);
      Associates(a, p, s);
      assert Series(a, m + n) == Times(a, Series(a, m + (n - 1))) + 1;
    }
  }

  lemma NextParity(p: int, n: int)
    ensures p % 2 == n % 2 ==> (p + 1) % 2 == (n + 1) % 2
  {
  }

  lemma {:induction false} SeriesParity(a: nat, n: nat)
    requires a % 2 == 1
    ensures Series(a, n) % 2 == n % 2
  {
    hide Times;
    if n > 0 {
      SeriesParity(a, n - 1);
      OddTimes(a, Series(a, n - 1));
      NextParity(Times(a, Series(a, n - 1)), n - 1);
    }
  }

  lemma SeriesHalves(a: nat, m: nat)
    requires a % 4 == 1
    ensures var u := (Power(a, m) + 1) / 2; u % 2 == 1 && Series(a, 2 * m) == 2 * Times(Series(a, m), u)
  {
    hide Times, Power, Series;
    SeriesJoin(a, m, m);
    PowerMod4(a, m);
    HalfSum(Power(a, m), Series(a, m));
  }

  lemma HalfSum(p: nat, s: nat)
    requires p % 4 == 1
    ensures var u := (p + 1) / 2; u % 2 == 1 && Times(p, s) + s == 2 * Times(s, u)
  {
    hide Times;
    var u := (p + 1) / 2;
    assert p + 1 == 2 * u;
    Distributes(s, p, 1);
    Commutes(s, 1);
    Doubles(u, s);
    Commutes(u, s);
  }

  /** The series of `n` terms has exactly as many factors two as `n`. */
  lemma {:induction false} SeriesDivides(a: nat, k: nat, n: nat)
    requires a % 4 == 1
    ensures Divides(Pow2(k), Series(a, n)) <==> Divides(Pow2(k), n)
    decreases k
  {
    hide Times, Divides, Series, Power;
    if k == 0 {
      ByOne(n);
      ByOne(Series(a, n));
    } else {
      SeriesParity(a, n);
      if n % 2 == 1 {
        if Divides(Pow2(k), n) { EvenDivisor(Pow2(k - 1), n); }
        if Divides(Pow2(k), Series(a, n)) { EvenDivisor(Pow2(k - 1), Series(a, n)); }
      } else {
        var m := n / 2;
        var s, u := Series(a, m), (Power(a, m) + 1) / 2;
        SeriesHalves(a, m);
        SeriesDivides(a, k - 1, m);
        OddFactor(k - 1, s, u);
        DoubleDivides(Pow2(k - 1), Times(s, u));
        DoubleDivides(Pow2(k - 1), m);
      }
    }
  }

  // ---- the generator ----

  function Rem(n: nat, m: nat): (r: nat)
    requires m > 0
    ensures r < m
  {
    n % m
  }

  /** `n` draws from seed `x`. */
  function Iterate(a: nat, c: nat, m: nat, x: nat, n: nat): (r: nat)
    requires x < m
    ensures r < m
  {
    if n == 0 then x else Rem(Times(a, Iterate(a, c, m, x, n - 1)) + c, m)
  }

  lemma {:induction false} IterateJoin(a: nat, c: nat, m: nat, x: nat, i: nat, n: nat)
    requires x < m
    ensures Iterate(a, c, m, x, i + n) == Iterate(a, c, m, Iterate(a, c, m, x, i), n)
  {
    if n > 0 { IterateJoin(a, c, m, x, i, n - 1); }
  }

  lemma StepMod(a: nat, c: nat, m: nat, t: nat)
    requires m > 0
    ensures Rem(Times(a, Rem(t, m)) + c, m) == Rem(Times(a, t) + c, m)
  {
    var q, r := t / m, t % m;
    assert t == Times(q, m) + r;
    hide Times;
    Distributes(a, Times(q, m), r);
    Associates(a, q, m);
    ShiftRem(Times(a, r) + c, m, Times(a, q));
  }

  lemma ShiftRem(n: nat, m: nat, q: nat)
    requires m > 0
    ensures Rem(n + Times(q, m), m) == Rem(n, m)
  {
    ModShift(n, m, q);
  }

  lemma StepSum(a: nat, c: nat, x: nat, u: nat, s: nat)
    requires Times(a, x) + c == x + u
    ensures Times(a, x + Times(s, u)) + c == x + Times(Times(a, s) + 1, u)
  {
    hide Times;
    Distributes(a, x, Times(s, u));
    Associates(a, s, u);
    Distributes(u, Times(a, s), 1);
    Commutes(u, 1);
  }

  /** `n` draws add the series times one fixed number to the seed. */
  lemma {:induction false} IterateIs(a: nat, c: nat, m: nat, x: nat, u: nat, n: nat)
    requires x < m && Times(a, x) + c == x + u
    ensures Iterate(a, c, m, x, n) == Rem(x + Times(Series(a, n), u), m)
  {
    hide Rem, Times;
    if n == 0 {
      NoTerms(x, u, m);
    } else {
      IterateIs(a, c, m, x, u, n - 1);
      var s := Series(a, n - 1);
      StepSum(a, c, x, u, s);
      StepMod(a, c, m, x + Times(s, u));
    }
  }

  lemma NoTerms(x: nat, u: nat, m: nat)
    requires x < m
    ensures Rem(x + Times(0, u), m) == x
  {
    ModIs(x, m, 0, x);
  }

  lemma RemainderOfSum(x: nat, d: nat, m: nat)
    requires x < m
    ensures (x + d) % m == x <==> Divides(m, d)
  {
    var q, r := d / m, d % m;
    assert d == q * m + r;
    ModShift(x + r, m, q);
    if x + r < m { ModIs(x + r, m, 0, x + r); } else { ModIs(x + r, m, 1, x + r - m); }
  }

  /** Full period: `n` draws lead back to the seed exactly when the modulus divides `n`. */
  lemma FullPeriod(a: nat, c: nat, k: nat, x: nat, n: nat)
    requires a % 4 == 1 && c % 2 == 1 && x < Pow2(k)
    ensures Iterate(a, c, Pow2(k), x, n) == x <==> Divides(Pow2(k), n)
  {
    var u := Times(a - 1, x) + c;
    OddIncrement(a, c, x);
    hide Iterate, Series, Pow2, Times, Rem;
    IterateIs(a, c, Pow2(k), x, u, n);
    PeriodOf(a, k, x, u, n);
  }

  lemma OddIncrement(a: nat, c: nat, x: nat)
    requires a % 4 == 1 && c % 2 == 1
    ensures Times(a, x) + c == x + (Times(a - 1, x) + c) && (Times(a - 1, x) + c) % 2 == 1
  {
    hide Times;
    Distributes(x, a - 1, 1);
    Commutes(x, 1);
    Doubles((a - 1) / 2, x);
  }

  lemma PeriodOf(a: nat, k: nat, x: nat, u: nat, n: nat)
    requires a % 4 == 1 && u % 2 == 1 && x < Pow2(k)
    ensures Rem(x + Times(Series(a, n), u), Pow2(k)) == x <==> Divides(Pow2(k), n)
  {
    hide Series, Pow2, Times;
    RemainderOfSum(x, Times(Series(a, n), u), Pow2(k));
    OddFactor(k, Series(a, n), u);
    SeriesDivides(a, k, n);
  }

  // ---- the ids ----

  const MULTIPLIER: nat := 1103515245
  const INCREMENT: nat := 12345

  /** `dhcp_random`, one call: the new seed, which is also the id. */
  function NextId(seed: nat): (r: nat)
    ensures r < WORD
  {
    (MULTIPLIER * seed + INCREMENT) % WORD
  }

  /** The id of the `n`-th call from `seed`. */
  function Draw(seed: nat, n: nat): nat
  {
    if n == 0 then seed else NextId(Draw(seed, n - 1))
  }

  lemma {:induction false} DrawIsIterate(seed: nat, n: nat)
    requires seed < WORD
    ensures Draw(seed, n) == Iterate(MULTIPLIER, INCREMENT, WORD, seed, n)
  {
    if n > 0 { DrawIsIterate(seed, n - 1); }
  }

  lemma WordIsPower()
    ensures Pow2(32) == WORD
  {
    assert Pow2(8) == 256;
    assert Pow2(16) == 0x1_0000;
    assert Pow2(24) == 0x100_0000;
  }

  /** From every seed, draws `i` and `j` give the same id exactly when 2^32 divides their distance. */
  lemma IdsRepeatIff(seed: nat, i: nat, j: nat)
    requires seed < WORD && i <= j
    ensures Draw(seed, i) == Draw(seed, j) <==> (j - i) % WORD == 0
  {
    hide Iterate, Draw, Pow2;
    WordIsPower();
    DrawIsIterate(seed, i);
    DrawIsIterate(seed, j);
    IterateJoin(MULTIPLIER, INCREMENT, WORD, seed, i, j - i);
    FullPeriod(MULTIPLIER, INCREMENT, 32, Draw(seed, i), j - i);
  }

  /** No id repeats within 2^32 consecutive draws. */
  lemma IdsStayFresh(seed: nat, i: nat, j: nat)
    requires seed < WORD && i < j < i + WORD
    ensures Draw(seed, i) != Draw(seed, j)
  {
    IdsRepeatIff(seed, i, j);
  }
}
