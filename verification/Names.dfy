/**
 8.3 file names: `fat32_name_to_83` and `fat32_83_to_name`.

 A C string is its bytes before the terminator, so it contains no zero byte. An 8.3 name is 11 bytes: eight
 for the base and three for the extension, padded with spaces.
 */
module Names {
  import opened Bytes

  const SPACE: Byte := 32
  const DOT: Byte := 46

  predicate IsCString(s: seq<Byte>) { forall k :: 0 <= k < |s| ==> s[k] != 0 }

  predicate NoSpace(s: seq<Byte>) { forall k :: 0 <= k < |s| ==> s[k] != SPACE }

  function Upper(b: Byte): Byte { if 97 <= b <= 122 then b - 32 else b }

  /** The first `n` bytes of `s` in upper case, padded with spaces. */
  function Field(s: seq<Byte>, n: nat): (f: seq<Byte>)
    ensures |f| == n
  {
    seq(n, (k: nat) => if k < |s| then Upper(s[k]) else SPACE)
  }

  /** The position of the last dot, or -1. */
  function LastDot(s: seq<Byte>): (p: int)
    ensures -1 <= p < |s|
    ensures p >= 0 ==> s[p] == DOT
    ensures forall k :: p < k < |s| ==> s[k] != DOT
  {
    if s == [] then -1 else if s[|s| - 1] == DOT then |s| - 1 else LastDot(s[..|s| - 1])
  }

  function BaseOf(s: seq<Byte>): seq<Byte> { if LastDot(s) >= 0 then s[..LastDot(s)] else s }

  function ExtOf(s: seq<Byte>): seq<Byte> { if LastDot(s) >= 0 then s[LastDot(s) + 1..] else [] }

  /** The 8.3 form of a name. */
  function To83(s: seq<Byte>): (f: seq<Byte>)
    ensures |f| == 11
  {
    Field(BaseOf(s), 8) + Field(ExtOf(s), 3)
  }

  /** A field up to its first space. */
  function Trim(f: seq<Byte>): (t: seq<Byte>)
    ensures |t| <= |f| && t == f[..|t|] && (|t| < |f| ==> f[|t|] == SPACE)
    ensures forall k :: 0 <= k < |t| ==> t[k] != SPACE
  {
    if f == [] || f[0] == SPACE then [] else [f[0]] + Trim(f[1..])
  }

  /** The printed form of an 8.3 name. */
  function From83(f: seq<Byte>): seq<Byte>
    requires |f| == 11
  {
    Trim(f[..8]) + (if f[8] != SPACE then [DOT] + Trim(f[8..]) else [])
  }

  lemma {:induction false} TrimIs(f: seq<Byte>, n: nat)
    requires n <= |f| && (forall k :: 0 <= k < n ==> f[k] != SPACE) && (n < |f| ==> f[n] == SPACE)
    ensures Trim(f) == f[..n]
    decreases n
  {
    if n > 0 {
      TrimIs(f[1..], n - 1);
      assert f[..n] == [f[0]] + f[1..][..n - 1];
    }
  }

  // ---- which 8.3 names survive printing and re-reading ----

  predicate Padded(f: seq<Byte>) { forall k :: |Trim(f)| <= k < |f| ==> f[k] == SPACE }

  /** Nothing follows a padding space, no lower case, no dot in the extension, and no dot in the base of
      a name without extension. */
  predicate Canonical(f: seq<Byte>)
    requires |f| == 11
  {
    && Padded(f[..8]) && Padded(f[8..])
    && (forall k :: 0 <= k < 11 ==> f[k] == Upper(f[k]))
    && (forall k :: 8 <= k < 11 ==> f[k] != DOT)
    && (f[8] == SPACE ==> forall k :: 0 <= k < 8 ==> f[k] != DOT)
  }

  lemma FieldOfTrim(f: seq<Byte>, n: nat)
    requires |f| == n && Padded(f) && forall k :: 0 <= k < |f| ==> f[k] == Upper(f[k])
    ensures Field(Trim(f), n) == f
  {
  }

  lemma LastDotIs(s: seq<Byte>, p: int)
    requires -1 <= p < |s| && (p >= 0 ==> s[p] == DOT) && forall k :: p < k < |s| ==> s[k] != DOT
    ensures LastDot(s) == p
  {
  }

  lemma LastDotOfPrinted(f: seq<Byte>)
    requires |f| == 11
    requires forall k :: 8 <= k < 11 ==> f[k] != DOT
    requires f[8] == SPACE ==> forall k :: 0 <= k < 8 ==> f[k] != DOT
    ensures BaseOf(From83(f)) == Trim(f[..8]) && ExtOf(From83(f)) == Trim(f[8..])
  {
    var base, ext := Trim(f[..8]), Trim(f[8..]);
    var s := From83(f);
    if f[8] == SPACE {
      LastDotIs(s, -1);
    } else {
      assert s == base + [DOT] + ext;
      LastDotIs(s, |base|);
    }
  }

  /** Printing an 8.3 name and converting it back is the identity exactly on the canonical names. */
  lemma RoundTripIffCanonical(f: seq<Byte>)
    requires |f| == 11 && IsCString(f)
    ensures To83(From83(f)) == f <==> Canonical(f)
  {
    if Canonical(f) {
      LastDotOfPrinted(f);
      FieldOfTrim(f[..8], 8);
      FieldOfTrim(f[8..], 3);
      assert f == f[..8] + f[8..];
    }
    if To83(From83(f)) == f {
      RoundTripIsCanonical(f);
    }
  }

  lemma FieldShape(s: seq<Byte>, n: nat)
    requires forall k :: 0 <= k < |s| ==> s[k] != SPACE
    ensures Padded(Field(s, n)) && |Trim(Field(s, n))| == if |s| < n then |s| else n
    ensures forall k :: 0 <= k < n ==> Upper(Field(s, n)[k]) == Field(s, n)[k]
  {
    var f := Field(s, n);
    var t := |Trim(f)|;
    var m := if |s| < n then |s| else n;
    assert m < n ==> f[m] == SPACE;
    assert t < m ==> f[t] == Upper(s[t]);
    assert forall k :: 0 <= k < t ==> Trim(f)[k] == f[k] != SPACE;
  }

  /** Whatever space-free base and extension a name has, its 8.3 form is padded, upper case, and without
      a dot in the extension. */
  lemma ConvertedShape(s: seq<Byte>)
    requires NoSpace(s)
    ensures var f := To83(s);
            && f[..8] == Field(BaseOf(s), 8) && f[8..] == Field(ExtOf(s), 3)
            && Padded(f[..8]) && Padded(f[8..])
            && (forall k :: 0 <= k < 11 ==> f[k] == Upper(f[k]))
            && (forall k :: 8 <= k < 11 ==> f[k] != DOT)
  {
    var f := To83(s);
    var base, ext := BaseOf(s), ExtOf(s);
    FieldShape(base, 8);
    FieldShape(ext, 3);
    assert f[..8] == Field(base, 8) && f[8..] == Field(ext, 3);
    forall k | 0 <= k < 11
      ensures f[k] == Upper(f[k]) && (8 <= k ==> f[k] != DOT)
    {
      if k < 8 { assert f[k] == Field(base, 8)[k]; } else { assert f[k] == Field(ext, 3)[k - 8]; }
    }
  }

  lemma RoundTripIsCanonical(f: seq<Byte>)
    requires |f| == 11 && To83(From83(f)) == f
    ensures Canonical(f)
  {
    var s := From83(f);
    ConvertedShape(s);
    if f[8] == SPACE {
      // no extension was printed, so a dot left in the base would have been read as one
      assert s == Trim(f[..8]);
      forall k | 0 <= k < 8
        ensures f[k] != DOT
      {
        assert f[k] == f[..8][k] && (LastDot(s) < 0 && k < |s| ==> f[k] == s[k]);
      }
    }
  }

  // ---- which names survive conversion, printing and conversion ----

  predicate AtMostOneDot(s: seq<Byte>)
  {
    forall j, k :: 0 <= j < k < |s| && s[j] == DOT ==> s[k] != DOT
  }

  /** Every space-free name with at most one dot has a stable 8.3 form, however much of it was cut off. */
  lemma NameIsStable(s: seq<Byte>)
    requires IsCString(s) && NoSpace(s) && AtMostOneDot(s)
    ensures Canonical(To83(s))
    ensures To83(From83(To83(s))) == To83(s)
  {
    var f, base := To83(s), BaseOf(s);
    ConvertedShape(s);
    forall k | 0 <= k < 8
      ensures f[k] != DOT
    {
      assert f[k] == f[..8][k];
      if k < |base| && LastDot(s) >= 0 { assert s[LastDot(s)] == DOT && base[k] == s[k]; }
    }
    RoundTripIffCanonical(f);
  }

  /** With two dots a name need not be stable: "A.B." becomes "A.B", printed without its last dot, and
      that reads back as base A with extension B. */
  lemma TwoDotsCanBreak()
    ensures var s: seq<Byte> := [65, DOT, 66, DOT];
            !Canonical(To83(s)) && To83(From83(To83(s))) != To83(s)
  {
    var s: seq<Byte> := [65, DOT, 66, DOT];
    LastDotIs(s, 3);
    var f := To83(s);
    assert f[1] == Field(BaseOf(s), 8)[1] == DOT;
    assert f[8] == Field(ExtOf(s), 3)[0] == SPACE;
    RoundTripIffCanonical(f);
  }

  // ---- which names print alike ----

  /** Canonical names print differently. */
  lemma CanonicalPrintsApart(f: seq<Byte>, g: seq<Byte>)
    requires |f| == |g| == 11 && IsCString(f) && IsCString(g) && Canonical(f) && Canonical(g) && f != g
    ensures From83(f) != From83(g)
  {
    RoundTripIffCanonical(f);
    RoundTripIffCanonical(g);
  }

  predicate DotFree(s: seq<Byte>) { forall k :: 0 <= k < |s| ==> s[k] != DOT }

  /** Other names print alike exactly when base and extension agree up to their first spaces. */
  lemma PrintedAlikeIff(f: seq<Byte>, g: seq<Byte>)
    requires |f| == |g| == 11 && DotFree(Trim(f[..8])) && DotFree(Trim(g[..8]))
    ensures From83(f) == From83(g) <==>
            Trim(f[..8]) == Trim(g[..8]) && Trim(f[8..]) == Trim(g[8..])
  {
    var a, b, x, y := Trim(f[..8]), Trim(g[..8]), From83(f), From83(g);
    assert f[8..][0] == f[8] && g[8..][0] == g[8];
    assert |Trim(f[8..])| == 0 <==> f[8] == SPACE;
    assert |Trim(g[8..])| == 0 <==> g[8] == SPACE;
    if x == y {
      FirstDot(f, x);
      FirstDot(g, x);
      assert x[..|a|] == a && x[..|b|] == b;
      assert f[8] != SPACE ==> x[|a| + 1..] == Trim(f[8..]);
      assert g[8] != SPACE ==> x[|b| + 1..] == Trim(g[8..]);
    }
  }

  lemma FirstDot(f: seq<Byte>, x: seq<Byte>)
    requires |f| == 11 && x == From83(f)
    ensures var a := Trim(f[..8]);
            && |a| <= |x| && x[..|a|] == a
            && (if f[8] == SPACE then x == a else |a| < |x| && x[|a|] == DOT)
  {
  }

  /** So "A B" and "A" are different names that print alike. */
  lemma SpacesCanHide()
    ensures var s, t := [65, SPACE, 66], [65];
            To83(s) != To83(t) && From83(To83(s)) == From83(To83(t))
  {
    var s: seq<Byte>, t: seq<Byte> := [65, SPACE, 66], [65];
    LastDotIs(s, -1);
    LastDotIs(t, -1);
    var f, g := To83(s), To83(t);
    assert f[0] == 65 && f[1] == SPACE && f[2] == 66 && g[0] == 65 && g[1] == SPACE && g[2] == SPACE;
    TrimIs(f[..8], 1);
    TrimIs(g[..8], 1);
    assert f[8] == SPACE && g[8] == SPACE;
    assert f[..8][..1] == [65] == g[..8][..1];
  }

  // ---- byte by byte ----

  /** A byte of a name in its 8.3 form: 97 to 122 are the lower-case letters, 32 is the space. */
  function Shown(s: seq<Byte>, k: nat): Byte
  {
    if k >= |s| then 32 else if 97 <= s[k] <= 122 then s[k] - 32 else s[k]
  }

  /** A name with a dot, 46: base and extension, each cut off or padded, in upper case. */
  lemma To83Dotted(base: seq<Byte>, ext: seq<Byte>)
    requires forall k :: 0 <= k < |ext| ==> ext[k] != 46
    ensures var f := To83(base + [46] + ext);
            forall k :: 0 <= k < 11 ==> f[k] == if k < 8 then Shown(base, k) else Shown(ext, k - 8)
  {
    var s := base + [46] + ext;
    LastDotIs(s, |base|);
    assert BaseOf(s) == base && ExtOf(s) == ext;
  }

  /** A name without a dot: all of it is the base. */
  lemma To83Plain(base: seq<Byte>)
    requires forall k :: 0 <= k < |base| ==> base[k] != 46
    ensures var f := To83(base); forall k :: 0 <= k < 11 ==> f[k] == if k < 8 then Shown(base, k) else 32
  {
    LastDotIs(base, -1);
  }

  /** No lower-case letter is left. */
  lemma NoLowerCase(s: seq<Byte>)
    ensures forall k :: 0 <= k < 11 ==> !(97 <= To83(s)[k] <= 122)
  {
  }

  /** The same name, in whatever case its letters are. */
  predicate SameLetters(s: seq<Byte>, t: seq<Byte>)
  {
    |s| == |t| && forall k :: 0 <= k < |s| ==>
      s[k] == t[k] || (97 <= s[k] <= 122 && t[k] == s[k] - 32) || (97 <= t[k] <= 122 && s[k] == t[k] - 32)
  }

  lemma CaseIsIgnored(s: seq<Byte>, t: seq<Byte>)
    requires SameLetters(s, t)
    ensures To83(s) == To83(t)
  {
    assert SameLetters(t, s);
    LastDotIs(t, LastDot(s));
    assert SameLetters(BaseOf(s), BaseOf(t)) && SameLetters(ExtOf(s), ExtOf(t));
    SameFields(BaseOf(s), BaseOf(t), 8);
    SameFields(ExtOf(s), ExtOf(t), 3);
  }

  lemma SameFields(s: seq<Byte>, t: seq<Byte>, n: nat)
    requires SameLetters(s, t)
    ensures Field(s, n) == Field(t, n)
  {
  }

  /** Printing a padded name gives base, dot and extension, or the base alone. */
  lemma PrintsFields(base: seq<Byte>, ext: seq<Byte>)
    requires |base| <= 8 && |ext| <= 3 && NoSpace(base) && NoSpace(ext)
    ensures var f := Filled(base, 8) + Filled(ext, 3); From83(f) == if ext == [] then base else base + [46] + ext
  {
    var f := Filled(base, 8) + Filled(ext, 3);
    assert f[..8] == Filled(base, 8) && f[8..] == Filled(ext, 3);
    assert f[8] == Filled(ext, 3)[0];
    TrimIs(f[..8], |base|);
    TrimIs(f[8..], |ext|);
    assert f[..8][..|base|] == base && f[8..][..|ext|] == ext;
  }

  function Filled(s: seq<Byte>, n: nat): (f: seq<Byte>)
    requires |s| <= n
    ensures |f| == n
  {
    s + seq(n - |s|, _ => 32)
  }

  /** "test.txt" and the name of the driver's test file. */
  lemma TestName()
    ensures To83([116, 101, 115, 116, 46, 116, 120, 116]) == [84, 69, 83, 84, 32, 32, 32, 32, 84, 88, 84]
  {
    hide To83;
    var base: seq<Byte>, ext: seq<Byte> := [116, 101, 115, 116], [116, 120, 116];
    assert base + [46] + ext == [116, 101, 115, 116, 46, 116, 120, 116];
    To83Dotted(base, ext);
    var f := To83(base + [46] + ext);
    assert f == [f[0], f[1], f[2], f[3], f[4], f[5], f[6], f[7], f[8], f[9], f[10]];
  }
}
