/**
 IP addresses as text: the validator of the `ipconfig` command, that of the `ping` command, the parser and the
 printer of the network layer. An address is four octets between dots; leading zeros are allowed.
 */
module DottedQuad {
  import opened Bytes

  const DOT: Byte := 46
  const ZERO: Byte := 48
  const NINE: Byte := 57

  predicate IsDigit(b: Byte) { ZERO <= b <= NINE }

  // ---- what an address is ----

  /** The pieces of `s` between its dots, from left to right. */
  function Parts(s: seq<Byte>): (p: seq<seq<Byte>>)
    ensures |p| > 0
  {
    if s == [] then [[]]
    else
      var p, c := Parts(s[..|s| - 1]), s[|s| - 1];
      if c == DOT then p + [[]] else p[|p| - 1 := p[|p| - 1] + [c]]
  }

  function Joined(p: seq<seq<Byte>>): seq<Byte>
    requires |p| > 0
    decreases |p|
  {
    if |p| == 1 then p[0] else Joined(p[..|p| - 1]) + [DOT] + p[|p| - 1]
  }

  predicate AllDigits(t: seq<Byte>) { forall k :: 0 <= k < |t| ==> IsDigit(t[k]) }

  /** The number that a run of digits writes. */
  function Number(t: seq<Byte>): nat
  {
    if t == [] then 0 else 10 * Number(t[..|t| - 1]) + Digit(t[|t| - 1])
  }

  function Digit(c: Byte): nat { if c >= ZERO then c - ZERO else 0 }

  predicate IsOctet(t: seq<Byte>) { t != [] && AllDigits(t) && Number(t) <= 255 }

  /** Four octets between dots. */
  predicate IsQuad(s: seq<Byte>) { |Parts(s)| == 4 && forall k :: 0 <= k < 4 ==> IsOctet(Parts(s)[k]) }

  /** The address, first octet most significant. */
  function QuadValue(s: seq<Byte>): nat
  {
    var p := Parts(s);
    if |p| < 4 then 0 else Number(p[0]) * 0x100_0000 + Number(p[1]) * 0x1_0000 + Number(p[2]) * 0x100 + Number(p[3])
  }

  /** `Parts` really cuts at the dots. */
  lemma {:induction false} PartsJoin(s: seq<Byte>)
    ensures Joined(Parts(s)) == s
  {
    if s != [] {
      var init, c := s[..|s| - 1], s[|s| - 1];
      PartsJoin(init);
      var p := Parts(init);
      if c == DOT {
        assert (p + [[]])[..|p|] == p;
      } else {
        var q := p[|p| - 1 := p[|p| - 1] + [c]];
        assert q[..|q| - 1] == p[..|p| - 1];
      }
    }
  }

  lemma {:induction false} NoDotInside(s: seq<Byte>, k: nat, i: nat)
    requires k < |Parts(s)| && i < |Parts(s)[k]|
    ensures Parts(s)[k][i] != DOT
  {
    if s != [] {
      var p := Parts(s[..|s| - 1]);
      if k < |p| && i < |p[k]| { NoDotInside(s[..|s| - 1], k, i); }
    }
  }

  // ---- what the scanners keep ----

  /** The pieces read so far can still become an address. */
  predicate Viable(p: seq<seq<Byte>>)
    requires |p| > 0
  {
    && |p| <= 4 && (forall k :: 0 <= k < |p| - 1 ==> IsOctet(p[k]))
    && AllDigits(p[|p| - 1]) && Number(p[|p| - 1]) <= 255
  }

  lemma QuadIsViable(s: seq<Byte>)
    ensures IsQuad(s) <==> Viable(Parts(s)) && |Parts(s)| == 4 && Parts(s)[3] != []
  {
  }

  lemma LastDigit(t: seq<Byte>, c: Byte)
    requires AllDigits(t + [c])
    ensures AllDigits(t) && IsDigit(c) && Number(t + [c]) == 10 * Number(t) + Digit(c)
  {
    assert (t + [c])[..|t|] == t;
    assert forall k :: 0 <= k < |t| ==> (t + [c])[k] == t[k];
    assert (t + [c])[|t|] == c;
  }

  lemma PartsOn(s: seq<Byte>, c: Byte)
    ensures var p := Parts(s); Parts(s + [c]) == if c == DOT then p + [[]] else p[|p| - 1 := p[|p| - 1] + [c]]
  {
    assert (s + [c])[..|s|] == s;
  }

  /** One more character. */
  lemma ViableOn(s: seq<Byte>, c: Byte)
    ensures var p := Parts(s); var last := p[|p| - 1];
            Viable(Parts(s + [c])) <==>
              Viable(p) && if c == DOT then last != [] && |p| < 4 else IsDigit(c) && 10 * Number(last) + Digit(c) <= 255
  {
    hide Parts, Number, Viable, AllDigits, IsDigit;
    PartsOn(s, c);
    if c == DOT { ViableDot(Parts(s)); } else { ViableChar(Parts(s), c); }
  }

  lemma ViableDot(p: seq<seq<Byte>>)
    requires |p| > 0
    ensures Viable(p + [[]]) <==> Viable(p) && p[|p| - 1] != [] && |p| < 4
  {
    var q := p + [[]];
    assert AllDigits([]) && Number([]) == 0;
    hide Number, AllDigits;
    assert forall k :: 0 <= k < |p| ==> q[k] == p[k];
    if Viable(q) { assert IsOctet(q[|p| - 1]); }
  }

  lemma ViableChar(p: seq<seq<Byte>>, c: Byte)
    requires |p| > 0 && c != DOT
    ensures var last := p[|p| - 1];
            Viable(p[|p| - 1 := last + [c]]) <==> Viable(p) && IsDigit(c) && 10 * Number(last) + Digit(c) <= 255
  {
    var last := p[|p| - 1];
    var q := p[|p| - 1 := last + [c]];
    DigitsOn(last, c);
    if AllDigits(last + [c]) { LastDigit(last, c); }
    hide Number, AllDigits, IsDigit;
    assert forall k :: 0 <= k < |p| - 1 ==> q[k] == p[k];
  }

  /** What has failed once cannot be mended. */
  lemma {:induction false} StaysUnviable(s: seq<Byte>, n: nat)
    requires n <= |s| && !Viable(Parts(s[..n]))
    ensures !Viable(Parts(s))
    decreases |s| - n
  {
    if n == |s| {
      assert s[..n] == s;
    } else {
      assert s[..n + 1] == s[..n] + [s[n]];
      ViableOn(s[..n], s[n]);
      StaysUnviable(s, n + 1);
    }
  }

  /** The scanners' variables, after `n` characters. */
  ghost predicate Scanned(s: seq<Byte>, n: nat, number: nat, dots: nat, inNumber: bool)
  {
    && n <= |s|
    && var p := Parts(s[..n]);
       Viable(p) && number == Number(p[|p| - 1]) && dots == |p| - 1 && inNumber == (p[|p| - 1] != [])
  }

  lemma ScanStep(s: seq<Byte>, n: nat, number: nat, dots: nat, inNumber: bool)
    requires Scanned(s, n, number, dots, inNumber) && n < |s|
    ensures IsDigit(s[n]) ==>
              if 10 * number + (s[n] - ZERO) <= 255 then Scanned(s, n + 1, 10 * number + (s[n] - ZERO), dots, true)
              else !IsQuad(s)
    ensures s[n] == DOT ==> if inNumber && dots < 3 then Scanned(s, n + 1, 0, dots + 1, false) else !IsQuad(s)
    ensures !IsDigit(s[n]) && s[n] != DOT ==> !IsQuad(s)
  {
    assert s[..n + 1] == s[..n] + [s[n]];
    ViableOn(s[..n], s[n]);
    PartsOn(s[..n], s[n]);
    QuadIsViable(s);
    if !Viable(Parts(s[..n + 1])) {
      StaysUnviable(s, n + 1);
    } else if s[n] != DOT {
      var p := Parts(s[..n]);
      LastDigit(p[|p| - 1], s[n]);
    }
  }

  lemma ScanEnd(s: seq<Byte>, number: nat, dots: nat, inNumber: bool)
    requires Scanned(s, |s|, number, dots, inNumber)
    ensures IsQuad(s) <==> inNumber && dots == 3
    ensures number <= 255
  {
    assert s[..|s|] == s;
    QuadIsViable(s);
  }

  // ---- the validators ----

  /** `validate_ip`. */
  method ValidateIp(s: seq<Byte>) returns (ok: bool)
    ensures ok == IsQuad(s)
  {
    hide IsQuad, Scanned;
    var current, count, inNumber := 0, 0, false;
    ScanStart(s);
    var i := 0;
    while i < |s|
      invariant i <= |s| && 0 <= current && 0 <= count && Scanned(s, i, current, count, inNumber)
    {
      ScanStep(s, i, current, count, inNumber);
      if ZERO <= s[i] <= NINE {
        current := current * 10 + (s[i] - ZERO);
        inNumber := true;
        if current > 255 { return false; }
      } else if s[i] == DOT {
        if !inNumber || count >= 3 { return false; }
        count, current, inNumber := count + 1, 0, false;
      } else {
        return false;
      }
      i := i + 1;
    }
    ScanEnd(s, current, count, inNumber);
    if !inNumber || count != 3 { return false; }
    return true;
  }

  lemma ScanStart(s: seq<Byte>)
    ensures Scanned(s, 0, 0, 0, false)
  {
    assert s[..0] == [];
    assert Parts([]) == [[]] && Number([]) == 0;
  }

  /** `is_valid_ip`: it accepts the same strings. */
  method IsValidIp(s: seq<Byte>) returns (ok: bool)
    ensures ok == IsQuad(s)
  {
    hide IsQuad, Scanned;
    var dots, num, inNum := 0, 0, false;
    ScanStart(s);
    var i := 0;
    while i < |s|
      invariant i <= |s| && 0 <= num && 0 <= dots && Scanned(s, i, num, dots, inNum)
    {
      ScanStep(s, i, num, dots, inNum);
      if ZERO <= s[i] <= NINE {
        num := num * 10 + (s[i] - ZERO);
        inNum := true;
        if num > 255 { return false; }
      } else if s[i] == DOT {
        if !inNum || dots >= 3 { return false; }
        dots, num, inNum := dots + 1, 0, false;
      } else {
        return false;
      }
      i := i + 1;
    }
    ScanEnd(s, num, dots, inNum);
    return inNum && dots == 3 && num <= 255;
  }

  // ---- the parser ----

  function Weight(k: nat): nat {
    if k == 0 then 0x100_0000 else if k == 1 then 0x1_0000 else if k == 2 then 0x100 else 1
  }

  /** The first `n` octets at their places. */
  function Partial(p: seq<seq<Byte>>, n: nat): nat
    requires n <= |p|
  {
    if n == 0 then 0 else Partial(p, n - 1) + Number(p[n - 1]) * Weight(n - 1)
  }

  /** The pieces that the parser does not stumble over: of the first four, all are digits, and those behind which
      a dot follows are octets or empty. */
  predicate Fine(p: seq<seq<Byte>>)
  {
    forall k :: 0 <= k < |p| && k < 4 ==> AllDigits(p[k]) && (k < |p| - 1 ==> Number(p[k]) <= 255)
  }

  /** What `ip_str_to_int` makes of any text: with fewer than three dots the last piece is dropped, from the fourth
      dot on nothing is read, and anything wrong in what it reads gives zero. */
  function TextValue(s: seq<Byte>): nat
  {
    var p := Parts(s);
    if !Fine(p) || (|p| == 4 && Number(p[3]) > 255) then 0
    else Partial(p, if |p| < 4 then |p| - 1 else 4)
  }

  /** On an address that is its value. */
  lemma QuadTextValue(s: seq<Byte>)
    requires IsQuad(s)
    ensures TextValue(s) == QuadValue(s)
  {
    var p := Parts(s);
    assert IsOctet(p[0]) && IsOctet(p[1]) && IsOctet(p[2]) && IsOctet(p[3]);
    assert Partial(p, 1) == Number(p[0]) * 0x100_0000;
    assert Partial(p, 2) == Partial(p, 1) + Number(p[1]) * 0x1_0000;
    assert Partial(p, 3) == Partial(p, 2) + Number(p[2]) * 0x100;
  }

  lemma FineOn(s: seq<Byte>, c: Byte)
    ensures var p := Parts(s); var last := p[|p| - 1];
            Fine(Parts(s + [c])) <==> Fine(p) && (|p| > 4 || if c == DOT then Number(last) <= 255 else IsDigit(c))
  {
    hide Parts, Number, AllDigits, IsDigit;
    PartsOn(s, c);
    var p := Parts(s);
    DigitsOn(p[|p| - 1], c);
    DigitsOn([], c);
    if c == DOT { FineDot(p); } else { FineChar(p, c); }
  }

  lemma DigitsOn(t: seq<Byte>, c: Byte)
    ensures AllDigits(t + [c]) <==> AllDigits(t) && IsDigit(c)
    ensures AllDigits([])
  {
    assert forall k :: 0 <= k < |t| ==> (t + [c])[k] == t[k];
    assert (t + [c])[|t|] == c;
  }

  lemma FineDot(p: seq<seq<Byte>>)
    requires |p| > 0 && AllDigits([])
    ensures Fine(p + [[]]) <==> Fine(p) && (|p| > 4 || Number(p[|p| - 1]) <= 255)
  {
    hide AllDigits, Number;
    var q := p + [[]];
    assert forall k :: 0 <= k < |p| ==> q[k] == p[k];
    assert q[|p| - 1] == p[|p| - 1];
  }

  lemma FineChar(p: seq<seq<Byte>>, c: Byte)
    requires |p| > 0 && (AllDigits(p[|p| - 1] + [c]) <==> AllDigits(p[|p| - 1]) && IsDigit(c))
    ensures Fine(p[|p| - 1 := p[|p| - 1] + [c]]) <==> Fine(p) && (|p| > 4 || IsDigit(c))
  {
    hide AllDigits, Number, IsDigit;
    var q := p[|p| - 1 := p[|p| - 1] + [c]];
    assert forall k :: 0 <= k < |p| - 1 ==> q[k] == p[k];
    assert q[|p| - 1] == p[|p| - 1] + [c];
  }

  /** Once four dots are read the rest does not count, and what has failed stays failed. */
  lemma {:induction false} FineLater(s: seq<Byte>, n: nat)
    requires n <= |s|
    ensures !Fine(Parts(s[..n])) ==> !Fine(Parts(s))
    ensures |Parts(s[..n])| > 4 ==>
            |Parts(s)| > 4 && Parts(s)[..4] == Parts(s[..n])[..4] && Fine(Parts(s)) == Fine(Parts(s[..n]))
    decreases |s| - n
  {
    if n == |s| {
      assert s[..n] == s;
    } else {
      assert s[..n + 1] == s[..n] + [s[n]];
      PartsOn(s[..n], s[n]);
      FineOn(s[..n], s[n]);
      FineLater(s, n + 1);
    }
  }

  lemma {:induction false} PartialFrame(p: seq<seq<Byte>>, q: seq<seq<Byte>>, n: nat)
    requires n <= |p| && n <= |q| && p[..n] == q[..n]
    ensures Partial(p, n) == Partial(q, n)
  {
    if n > 0 {
      assert p[n - 1] == p[..n][n - 1] == q[n - 1];
      assert p[..n - 1] == p[..n][..n - 1] == q[..n - 1];
      PartialFrame(p, q, n - 1);
    }
  }

  /** The parser's variables after `n` characters. */
  ghost predicate Parsed(s: seq<Byte>, n: nat, ip: nat, octet: nat, dots: nat)
  {
    && n <= |s|
    && var p := Parts(s[..n]);
       Fine(p) && octet == Number(p[|p| - 1]) && dots == |p| - 1 <= 4 && ip == Partial(p, dots)
  }

  lemma ParseDigit(s: seq<Byte>, n: nat, ip: nat, octet: nat, dots: nat)
    requires Parsed(s, n, ip, octet, dots) && n < |s| && IsDigit(s[n])
    ensures Parsed(s, n + 1, ip, 10 * octet + Digit(s[n]), dots)
  {
    var p, c := Parts(s[..n]), s[n];
    assert s[..n + 1] == s[..n] + [c];
    FineOn(s[..n], c);
    PartsOn(s[..n], c);
    var last := p[|p| - 1];
    assert (last + [c])[..|last|] == last;
    PartialFrame(p, Parts(s[..n + 1]), dots);
  }

  lemma ParseDot(s: seq<Byte>, n: nat, ip: nat, octet: nat, dots: nat)
    requires Parsed(s, n, ip, octet, dots) && n < |s| && s[n] == DOT && dots < 4
    ensures if octet <= 255 then Parsed(s, n + 1, ip + octet * Weight(dots), 0, dots + 1) else TextValue(s) == 0
  {
    var p := Parts(s[..n]);
    assert s[..n + 1] == s[..n] + [s[n]];
    FineOn(s[..n], s[n]);
    PartsOn(s[..n], s[n]);
    FineLater(s, n + 1);
    PartialFrame(p, Parts(s[..n + 1]), dots);
  }

  lemma ParseOther(s: seq<Byte>, n: nat, ip: nat, octet: nat, dots: nat)
    requires Parsed(s, n, ip, octet, dots) && n < |s| && !IsDigit(s[n]) && s[n] != DOT && dots < 4
    ensures TextValue(s) == 0
  {
    assert s[..n + 1] == s[..n] + [s[n]];
    FineOn(s[..n], s[n]);
    FineLater(s, n + 1);
  }

  lemma ParseEnd(s: seq<Byte>, n: nat, ip: nat, octet: nat, dots: nat)
    requires Parsed(s, n, ip, octet, dots) && (n == |s| || dots == 4)
    ensures TextValue(s) == if dots == 3 then if octet > 255 then 0 else ip + octet else ip
  {
    FineLater(s, n);
    var p := Parts(s[..n]);
    if n == |s| { assert s[..n] == s; }
    if dots == 4 {
      assert p[..4][..4] == p[..4];
      PartialFrame(p, Parts(s), 4);
    }
  }

  lemma ParseStart(s: seq<Byte>)
    ensures Parsed(s, 0, 0, 0, 0)
  {
    assert s[..0] == [];
    assert Parts([]) == [[]];
  }

  /** `ip_str_to_int`. The shift is the weight of the octet being read; octets do not overlap, so `|=` adds. */
  method IpStrToInt(s: seq<Byte>) returns (ip: nat)
    ensures ip == TextValue(s)
    ensures IsQuad(s) ==> ip == QuadValue(s)
  {
    hide TextValue, Parsed, IsQuad, QuadValue;
    if IsQuad(s) { QuadTextValue(s); }
    ip := 0;
    var octet: nat, shift := 0, 24;
    ParseStart(s);
    var i := 0;
    while i < |s| && shift >= 0
      invariant i <= |s| && shift in {24, 16, 8, 0, -8} && Parsed(s, i, ip, octet, (24 - shift) / 8)
    {
      if IsDigit(s[i]) {
        ParseDigit(s, i, ip, octet, (24 - shift) / 8);
        octet := octet * 10 + (s[i] - ZERO);
      } else if s[i] == DOT {
        ParseDot(s, i, ip, octet, (24 - shift) / 8);
        if octet > 255 { return 0; }
        ip := ip + octet * Weight((24 - shift) / 8);
        shift := shift - 8;
        octet := 0;
      } else {
        ParseOther(s, i, ip, octet, (24 - shift) / 8);
        return 0;
      }
      i := i + 1;
    }
    ParseEnd(s, i, ip, octet, (24 - shift) / 8);
    if shift == 0 {
      if octet > 255 { return 0; }
      ip := ip + octet;
    }
  }

  // ---- the printer ----

  function Hundreds(o: nat): nat { o / 100 }

  function Tens(o: nat): (t: nat)
    ensures t <= 9
  {
    o / 10 % 10
  }

  function Units(o: nat): (u: nat)
    ensures u <= 9
  {
    o % 10
  }

  lemma OctetDigits(o: nat)
    requires o <= 255
    ensures o == 100 * Hundreds(o) + 10 * Tens(o) + Units(o) && Hundreds(o) <= 2
  {
  }

  lemma DigitsAre(o: nat, a: nat, b: nat, c: nat)
    requires b <= 9 && c <= 9 && o == 100 * a + 10 * b + c
    ensures Hundreds(o) == a && Tens(o) == b && Units(o) == c
  {
    assert o / 10 == 10 * a + b;
  }

  /** An octet in decimal, without leading zeros. */
  function Decimal(o: nat): (t: seq<Byte>)
    requires o <= 255
  {
    OctetDigits(o);
    if o >= 100 then [ZERO + Hundreds(o), ZERO + Tens(o), ZERO + Units(o)]
    else if o >= 10 then [ZERO + Tens(o), ZERO + Units(o)]
    else [ZERO + Units(o)]
  }

  /** Octet `k` of an address, from the left. */
  function OctetOf(ip: nat, k: nat): (o: nat)
    ensures o <= 255
  {
    ip / Weight(k) % 256
  }

  function Printed(ip: nat): seq<Byte>
  {
    Decimal(OctetOf(ip, 0)) + [DOT] + Decimal(OctetOf(ip, 1)) + [DOT]
    + Decimal(OctetOf(ip, 2)) + [DOT] + Decimal(OctetOf(ip, 3))
  }

  /** The digits of one octet, as `ip_int_to_str` writes them. */
  method PrintOctet(o: nat) returns (t: seq<Byte>)
    requires o <= 255
    ensures t == Decimal(o)
  {
    hide Hundreds, Tens, Units;
    OctetDigits(o);
    PrintDigits(o);
    t := [];
    var octet := o;
    if octet >= 100 {
      t := t + [ZERO + octet / 100];
      octet := octet % 100;
    }
    if octet >= 10 || o >= 100 {
      t := t + [ZERO + octet / 10];
      octet := octet % 10;
    }
    t := t + [ZERO + octet];
  }

  lemma PrintDigits(o: nat)
    requires o <= 255
    ensures o / 100 == Hundreds(o) && o % 100 / 10 == Tens(o) && o % 100 % 10 == Units(o)
    ensures o < 100 ==> o / 10 == Tens(o) && o % 10 == Units(o)
    ensures o < 10 ==> o == Units(o)
  {
  }

  /** `ip_int_to_str`. */
  method IpIntToStr(ip: nat) returns (s: seq<Byte>)
    ensures s == Printed(ip)
  {
    hide Decimal, OctetOf;
    s := [];
    var i := 0;
    while i < 4
      invariant 0 <= i <= 4
      invariant s == if i == 0 then [] else if i == 1 then Decimal(OctetOf(ip, 0)) + [DOT]
                     else if i == 2 then Decimal(OctetOf(ip, 0)) + [DOT] + Decimal(OctetOf(ip, 1)) + [DOT]
                     else if i == 3 then
                       Decimal(OctetOf(ip, 0)) + [DOT] + Decimal(OctetOf(ip, 1)) + [DOT]
                       + Decimal(OctetOf(ip, 2)) + [DOT]
                     else Printed(ip)
    {
      var t := PrintOctet(OctetOf(ip, i));
      s := s + t;
      if i < 3 { s := s + [DOT]; }
      i := i + 1;
    }
  }

  /** A run without dots is the last piece. */
  lemma {:induction false} PartsOfRun(s: seq<Byte>, t: seq<Byte>)
    requires forall k :: 0 <= k < |t| ==> t[k] != DOT
    ensures var p := Parts(s); Parts(s + t) == p[|p| - 1 := p[|p| - 1] + t]
  {
    hide Parts;
    var p := Parts(s);
    var last := |p| - 1;
    if t == [] {
      assert s + t == s && p[last] + t == p[last];
    } else {
      var init, c := t[..|t| - 1], t[|t| - 1];
      PartsOfRun(s, init);
      PartsOn(s + init, c);
      assert (s + init) + [c] == s + t;
      assert (p[last] + init) + [c] == p[last] + t;
      UpdateTwice(p, last, p[last] + init, p[last] + t);
    }
  }

  lemma UpdateTwice<T>(p: seq<T>, i: nat, x: T, y: T)
    requires i < |p|
    ensures p[i := x][i := y] == p[i := y]
  {
  }

  lemma PartsOfDot(s: seq<Byte>, t: seq<Byte>)
    requires forall k :: 0 <= k < |t| ==> t[k] != DOT
    ensures Parts(s + [DOT] + t) == Parts(s) + [t]
  {
    PartsOn(s, DOT);
    PartsOfRun(s + [DOT], t);
    assert [] + t == t;
  }

  lemma DecimalIs(o: nat)
    requires o <= 255
    ensures IsOctet(Decimal(o)) && Number(Decimal(o)) == o && forall k :: 0 <= k < |Decimal(o)| ==> Decimal(o)[k] != DOT
  {
    hide Number, Hundreds, Tens, Units;
    OctetDigits(o);
    ShortNumbers(ZERO + Hundreds(o), ZERO + Tens(o), ZERO + Units(o));
    ShortNumbers(ZERO + Tens(o), ZERO + Units(o), ZERO);
    ShortNumbers(ZERO + Units(o), ZERO, ZERO);
  }

  lemma ShortNumbers(a: Byte, b: Byte, c: Byte)
    ensures Number([a]) == Digit(a) && Number([a, b]) == 10 * Digit(a) + Digit(b)
    ensures Number([a, b, c]) == 100 * Digit(a) + 10 * Digit(b) + Digit(c)
  {
    assert [a, b, c][..2] == [a, b] && [a, b][..1] == [a] && [a][..0] == [];
  }

  lemma PrintedParts(ip: nat)
    ensures Parts(Printed(ip)) ==
            [Decimal(OctetOf(ip, 0)), Decimal(OctetOf(ip, 1)), Decimal(OctetOf(ip, 2)), Decimal(OctetOf(ip, 3))]
  {
    hide Decimal, OctetOf;
    var a, b, c, d := Decimal(OctetOf(ip, 0)), Decimal(OctetOf(ip, 1)), Decimal(OctetOf(ip, 2)),
        Decimal(OctetOf(ip, 3));
    forall k: nat | k < 4 { DecimalIs(OctetOf(ip, k)); }
    PartsOfRun([], a);
    assert [] + a == a && Parts([]) == [[]];
    PartsOfDot(a, b);
    PartsOfDot(a + [DOT] + b, c);
    PartsOfDot(a + [DOT] + b + [DOT] + c, d);
  }

  lemma OctetsMakeAddress(ip: nat)
    requires ip < WORD
    ensures ip == OctetOf(ip, 0) * 0x100_0000 + OctetOf(ip, 1) * 0x1_0000 + OctetOf(ip, 2) * 0x100 + OctetOf(ip, 3)
  {
    assert ip / 0x100 / 0x100 == ip / 0x1_0000;
    assert ip / 0x1_0000 / 0x100 == ip / 0x100_0000;
  }

  /** Parsing the printed form of any address gives it back, and the printed form is valid. */
  lemma PrintThenParse(ip: nat)
    requires ip < WORD
    ensures IsQuad(Printed(ip)) && QuadValue(Printed(ip)) == ip && TextValue(Printed(ip)) == ip
  {
    hide Decimal, OctetOf, Printed, TextValue;
    PrintedParts(ip);
    forall k: nat | k < 4 { DecimalIs(OctetOf(ip, k)); }
    OctetsMakeAddress(ip);
    QuadTextValue(Printed(ip));
  }

  // ---- leading zeros ----

  predicate NoLeadingZero(t: seq<Byte>) { |t| == 1 || (|t| > 1 && t[0] != ZERO) }

  /** A long number without a leading zero is large. */
  lemma {:induction false} NumberGrows(t: seq<Byte>)
    requires AllDigits(t) && t != [] && t[0] != ZERO
    ensures |t| == 1 ==> 1 <= Number(t) <= 9
    ensures |t| == 2 ==> 10 <= Number(t) <= 99
    ensures |t| == 3 ==> 100 <= Number(t) <= 999
    ensures |t| > 3 ==> Number(t) >= 1000
  {
    if |t| == 1 { assert t[..0] == []; } else { NumberGrows(t[..|t| - 1]); }
  }

  lemma DecimalPlain(o: nat)
    requires o <= 255
    ensures NoLeadingZero(Decimal(o))
  {
    hide Units;
    OctetDigits(o);
  }

  lemma PlainDigits(a: Byte, b: Byte, c: Byte)
    requires IsDigit(a) && IsDigit(b) && IsDigit(c)
    ensures Decimal(Digit(a)) == [a]
    ensures a != ZERO ==> Decimal(10 * Digit(a) + Digit(b)) == [a, b]
    ensures a != ZERO && 100 * Digit(a) + 10 * Digit(b) + Digit(c) <= 255 ==>
            Decimal(100 * Digit(a) + 10 * Digit(b) + Digit(c)) == [a, b, c]
  {
    DigitsAre(Digit(a), 0, 0, Digit(a));
    DigitsAre(10 * Digit(a) + Digit(b), 0, Digit(a), Digit(b));
    DigitsAre(100 * Digit(a) + 10 * Digit(b) + Digit(c), Digit(a), Digit(b), Digit(c));
    hide Hundreds, Tens, Units;
  }

  lemma PlainDecimal(t: seq<Byte>)
    requires IsOctet(t) && NoLeadingZero(t)
    ensures Decimal(Number(t)) == t
  {
    hide Decimal, Digit;
    if t[0] != ZERO { NumberGrows(t); }
    hide Number;
    if |t| == 1 {
      assert t == [t[0]];
      ShortNumbers(t[0], ZERO, ZERO);
      PlainDigits(t[0], ZERO, ZERO);
    } else if |t| == 2 {
      assert t == [t[0], t[1]];
      ShortNumbers(t[0], t[1], ZERO);
      PlainDigits(t[0], t[1], ZERO);
    } else {
      assert t == [t[0], t[1], t[2]];
      ShortNumbers(t[0], t[1], t[2]);
      PlainDigits(t[0], t[1], t[2]);
    }
  }

  /** An octet is the one its number prints exactly when it has no leading zero. */
  lemma DecimalIff(t: seq<Byte>)
    requires IsOctet(t)
    ensures Decimal(Number(t)) == t <==> NoLeadingZero(t)
  {
    hide Decimal, Number, NoLeadingZero;
    DecimalPlain(Number(t));
    if NoLeadingZero(t) { PlainDecimal(t); }
  }

  /** Printing what an accepted string says gives the string back exactly when no octet has a leading zero. */
  lemma ParseThenPrintIff(s: seq<Byte>)
    requires IsQuad(s)
    ensures Printed(QuadValue(s)) == s <==> forall k :: 0 <= k < 4 ==> NoLeadingZero(Parts(s)[k])
  {
    hide Decimal, NoLeadingZero, Printed;
    var p, ip := Parts(s), QuadValue(s);
    OctetsOfValue(s);
    PrintedParts(ip);
    PartsJoin(s);
    PartsJoin(Printed(ip));
    forall k: nat | k < 4
      ensures Parts(Printed(ip))[k] == p[k] <==> NoLeadingZero(p[k])
    {
      DecimalIff(p[k]);
    }
    if forall k :: 0 <= k < 4 ==> NoLeadingZero(p[k]) {
      assert Parts(Printed(ip)) == p;
    }
  }

  lemma OctetsOfValue(s: seq<Byte>)
    requires IsQuad(s)
    ensures QuadValue(s) < WORD
    ensures forall k: nat :: k < 4 ==> OctetOf(QuadValue(s), k) == Number(Parts(s)[k])
  {
    var p := Parts(s);
    assert IsOctet(p[0]) && IsOctet(p[1]) && IsOctet(p[2]) && IsOctet(p[3]);
    ValueDigits(QuadValue(s), Number(p[0]), Number(p[1]), Number(p[2]), Number(p[3]));
    assert Weight(0) == 0x100_0000 && Weight(1) == 0x1_0000 && Weight(2) == 0x100 && Weight(3) == 1;
  }

  lemma ValueDigits(x: nat, a: nat, b: nat, c: nat, d: nat)
    requires a < 256 && b < 256 && c < 256 && d < 256 && x == a * 0x100_0000 + b * 0x1_0000 + c * 0x100 + d
    ensures x / 1 % 256 == d && x / 0x100 % 256 == c && x / 0x1_0000 % 256 == b && x / 0x100_0000 % 256 == a
  {
    assert x / 0x100 == a * 0x1_0000 + b * 0x100 + c;
    assert x / 0x1_0000 == a * 0x100 + b;
  }

  // ---- byte by byte ----

  /** Four texts of digits, 48 to 57, up to 255 each, with dots, 46, between them are an address, whose value is theirs
      to the base 256. */
  lemma QuadOfTexts(a: seq<Byte>, b: seq<Byte>, c: seq<Byte>, d: seq<Byte>)
    requires forall t :: t in [a, b, c, d] ==> IsOctet(t)
    ensures var s := a + [46] + b + [46] + c + [46] + d;
            IsQuad(s) && QuadValue(s) == ((Number(a) * 256 + Number(b)) * 256 + Number(c)) * 256 + Number(d)
  {
    hide Parts, Number;
    forall t | t in [a, b, c, d]
      ensures forall k :: 0 <= k < |t| ==> t[k] != 46
    {
      assert IsOctet(t);
    }
    assert a in [a, b, c, d] && b in [a, b, c, d] && c in [a, b, c, d] && d in [a, b, c, d];
    PartsOfRun([], a);
    NoParts();
    assert [] + a == a;
    PartsOfDot(a, b);
    PartsOfDot(a + [46] + b, c);
    PartsOfDot(a + [46] + b + [46] + c, d);
  }

  lemma NoParts()
    ensures Parts([]) == [[]]
  {
  }

  /** What a text of up to three digits writes. */
  lemma OctetIff(t: seq<Byte>)
    requires |t| <= 3
    ensures IsOctet(t) <==> 0 < |t| && (forall k :: 0 <= k < |t| ==> 48 <= t[k] <= 57) && Value(t) <= 255
    ensures IsOctet(t) ==> Number(t) == Value(t)
  {
    if |t| == 1 { assert t == [t[0]]; ShortNumbers(t[0], 48, 48); }
    if |t| == 2 { assert t == [t[0], t[1]]; ShortNumbers(t[0], t[1], 48); }
    if |t| == 3 { assert t == [t[0], t[1], t[2]]; ShortNumbers(t[0], t[1], t[2]); }
  }

  function Less48(x: int): int { x - 48 }

  function Value(t: seq<Byte>): int
    requires |t| <= 3
  {
    if t == [] then 0 else if |t| == 1 then Less48(t[0]) else if |t| == 2 then 10 * Less48(t[0]) + Less48(t[1])
    else 100 * Less48(t[0]) + 10 * Less48(t[1]) + Less48(t[2])
  }
}
