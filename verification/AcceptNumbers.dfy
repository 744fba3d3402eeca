/** Every number that is read is one that can be written. */
module AcceptedNumbers {
  import opened Basics
  import opened Datum
  import opened Numbers
  import opened Scanning
  import opened StringTexts
  import opened NumberTexts
  import opened ReadingNumbers

  // ---------- digits and underscores

  predicate IsDigitOf(c: int, base: nat) { DigitValue(c) < base }

  /** Digits of the base, and underscores between two of them. */
  ghost predicate IsRun(u: seq<byte>, base: nat) { u != [] && forall k :: 0 <= k < |u| ==> RunAt(u, k, base) }

  ghost predicate RunAt(u: seq<byte>, k: nat, base: nat)
    requires k < |u|
  {
    || IsDigitOf(u[k], base)
    || (u[k] == UNDERSCORE && 0 < k && k + 1 < |u| && IsDigitOf(u[k - 1], base) && IsDigitOf(u[k + 1], base))
  }

  lemma {:induction false} DigitIsLetter(c: byte, base: nat)
    requires IsDigitOf(c, base) && base <= 16
    ensures IsHex(c) && HexValue(c) == DigitValue(c) && HexLetter(HexValue(c), IsUpper(c)) == c && c != UNDERSCORE
  {}

  lemma {:induction false} RunPrefix(u: seq<byte>, base: nat, n: nat)
    requires IsRun(u, base) && 0 < n <= |u| && IsDigitOf(u[n - 1], base)
    ensures IsRun(u[..n], base)
  {
    hide IsDigitOf;
    var v := u[..n];
    forall k | 0 <= k < n ensures RunAt(v, k, base) {
      assert RunAt(u, k, base);
      assert v[k] == u[k] && (k > 0 ==> v[k - 1] == u[k - 1]) && (k + 1 < n ==> v[k + 1] == u[k + 1]);
    }
  }

  lemma {:induction false} MoreFigures(fs: seq<Figure>, f: Figure, base: nat)
    requires f.v < base && if fs == [] then !f.under else FiguresOk(fs, base)
    ensures FiguresOk(fs + [f], base) && FiguresText(fs + [f]) == FiguresText(fs) + FigureText(f)
  {
    assert (fs + [f])[..|fs|] == fs;
  }

  lemma {:induction false} RunEnds(u: seq<byte>, base: nat)
    requires IsRun(u, base) && base <= 16
    ensures IsDigitOf(u[0], base) && IsDigitOf(u[|u| - 1], base)
    ensures |u| > 1 && u[|u| - 2] != UNDERSCORE ==> IsDigitOf(u[|u| - 2], base)
    ensures |u| > 1 && u[|u| - 2] == UNDERSCORE ==> |u| > 2 && IsDigitOf(u[|u| - 3], base)
  {
    hide IsDigitOf;
    assert RunAt(u, 0, base) && RunAt(u, |u| - 1, base);
    assert |u| > 1 ==> RunAt(u, |u| - 2, base);
    UnderscoreIsNoDigit(base);
  }

  lemma {:induction false} UnderscoreIsNoDigit(base: nat)
    requires base <= 16
    ensures !IsDigitOf(UNDERSCORE, base)
  {}

  lemma {:induction false} FiguresFrom(u: seq<byte>, base: nat) returns (fs: seq<Figure>)
    requires IsRun(u, base) && base <= 16
    ensures FiguresOk(fs, base) && FiguresText(fs) == u
    decreases |u|
  {
    hide IsRun, IsDigitOf, FiguresOk, FiguresText;
    RunEnds(u, base);
    RunNotEmpty(u, base);
    var n := |u| - 1;
    var c := u[n];
    DigitIsLetter(c, base);
    DigitBelow(c, base);
    var f := Figure(HexValue(c), IsUpper(c), false);
    var rest: seq<Figure> := [];
    NoFigures();
    if n > 0 && u[n - 1] == UNDERSCORE {
      f := f.(under := true);
      RunPrefix(u, base, n - 1);
      rest := FiguresFrom(u[..n - 1], base);
      assert u == u[..n - 1] + [UNDERSCORE, c];
    } else if n > 0 {
      RunPrefix(u, base, n);
      rest := FiguresFrom(u[..n], base);
      assert u == u[..n] + [c];
    } else {
      assert u == [] + [c];
    }
    FiguresNotEmpty(rest, base);
    MoreFigures(rest, f, base);
    fs := rest + [f];
  }

  lemma {:induction false} RunNotEmpty(u: seq<byte>, base: nat)
    requires IsRun(u, base)
    ensures u != []
  {}

  lemma {:induction false} FiguresNotEmpty(fs: seq<Figure>, base: nat)
    ensures FiguresOk(fs, base) ==> fs != []
  {}

  lemma {:induction false} NoFigures()
    ensures FiguresText([]) == []
  {}

  lemma {:induction false} DigitBelow(c: byte, base: nat)
    requires IsDigitOf(c, base)
    ensures DigitValue(c) < base
  {}

  // ---------- what is left of a text tells what it was

  ghost predicate AllDigitsOf(t: seq<byte>, base: nat) { forall k :: 0 <= k < |t| ==> IsDigitOf(t[k], base) }

  lemma {:induction false} LowerIsDigit(c: byte, base: nat)
    requires base <= 16
    ensures IsDigitOf(ToLower(c), base) <==> IsDigitOf(c, base)
  {}

  lemma {:induction false} CanonLast(t: seq<byte>)
    requires t != []
    ensures var n := |t| - 1;
            Canon(t) == if t[n] == UNDERSCORE then Canon(t[..n]) else Canon(t[..n]) + [ToLower(t[n])]
  {
    hide ToLower;
  }

  lemma {:induction false} CanonDigits(t: seq<byte>, base: nat)
    requires AllDigitsOf(Canon(t), base) && base <= 16
    ensures forall k :: 0 <= k < |t| ==> t[k] == UNDERSCORE || IsDigitOf(t[k], base)
    decreases |t|
  {
    hide Canon, IsDigitOf;
    if t != [] {
      var n := |t| - 1;
      CanonLast(t);
      LowerIsDigit(t[n], base);
      var c := Canon(t[..n]);
      if t[n] != UNDERSCORE {
        assert (c + [ToLower(t[n])])[|c|] == ToLower(t[n]);
        forall k | 0 <= k < |c| ensures IsDigitOf(c[k], base) {
          assert (c + [ToLower(t[n])])[k] == c[k];
        }
      }
      CanonDigits(t[..n], base);
      assert forall k :: 0 <= k < n ==> t[..n][k] == t[k];
    }
  }

  lemma {:induction false} DigitOfIsDigitIn(c: int, base: nat)
    requires DigitIn(c, base) && (c == UNDERSCORE || IsDigitOf(c, base)) && base <= 16
    ensures IsDigitOf(c, base)
  {}

  /** A text with its underscores in good places, of which only digits are left. */
  lemma {:induction false} DigitsAreRun(t: seq<byte>, base: nat)
    requires UnderscoresOk(t, base) && AllDigitsOf(Canon(t), base) && base <= 16 && t != []
    ensures IsRun(t, base)
  {
    hide Canon, IsDigitOf, DigitIn;
    CanonDigits(t, base);
    forall k | 0 <= k < |t| ensures RunAt(t, k, base) {
      if t[k] == UNDERSCORE {
        DigitOfIsDigitIn(t[k - 1], base);
        DigitOfIsDigitIn(t[k + 1], base);
      }
    }
  }

  // ---------- integers

  lemma {:induction false} RunAll(t: seq<byte>, i: nat, base: nat)
    requires i <= |t| && DigitRun(t, i, base) == |t|
    ensures forall k :: i <= k < |t| ==> IsDigitOf(t[k], base)
    decreases |t| - i
  {
    if i < |t| {
      RunAll(t, i + 1, base);
    }
  }

  /** Digits behind a prefix. */
  lemma {:induction false} PrefixedOf(s: Input, w: seq<byte>) returns (n: Integer)
    requires Radix(w).Some? && NumberOf(s, w).Ok? && |w| <= LONGEST
    ensures IntegerOk(n) && n.base != 10 && IntegerText(n) == w[..NumberOf(s, w).value.1]
  {
    hide Span, NumText, StrToLL, FiguresText, FiguresOk;
    var (base, span) := Radix(w).value;
    var len := NumberOf(s, w).value.1;
    var t := w[2..len];
    SpanHasNoSign(w, base, span, len);
    PrefixedDigits(t, base);
    var fs := FiguresFrom(t, base);
    n := Integer(Unsigned, base, fs);
    assert w[..len] == w[..2] + w[2..len];
    assert w[..2] == [w[0], w[1]];
    assert [] + (PrefixText(base) + t) == PrefixText(base) + t;
  }

  lemma {:induction false} SpanHasNoSign(w: seq<byte>, base: nat, span: set<int>, len: nat)
    requires Radix(w) == Some((base, span)) && len == Span(w, 2, span)
    ensures forall k :: 0 <= k < len - 2 ==> !IsSign(w[2..len][k])
  {
    SpanChars(w, 2, span);
    assert 43 !in span && 45 !in span;
  }

  lemma {:induction false} PrefixedDigits(t: seq<byte>, base: nat)
    requires base in {2, 8, 16} && NumText(t, base).Ok?
    requires var c := NumText(t, base).value; StrToLL(c, base).1 == |c| > 0
    requires forall k :: 0 <= k < |t| ==> !IsSign(t[k])
    ensures IsRun(t, base)
  {
    hide DigitRun, ValueOf, IsDigitOf, Canon, UnderscoresOk, PointsOk, LeadingOk;
    NumTextIs(t, base);
    var c := Canon(t);
    NoSignLeft(t);
    RunAll(c, 0, base);
    DigitsAreRun(t, base);
  }

  lemma {:induction false} NoSignLeft(t: seq<byte>)
    requires forall k :: 0 <= k < |t| ==> !IsSign(t[k])
    ensures forall k :: 0 <= k < |Canon(t)| ==> !IsSign(Canon(t)[k])
    decreases |t|
  {
    hide Canon, IsSign;
    if t != [] {
      CanonLast(t);
      NoSignLeft(t[..|t| - 1]);
      LowerNoSign(t[|t| - 1]);
    } else {
      CanonShort([]);
    }
  }

  lemma {:induction false} LowerNoSign(c: byte)
    ensures IsSign(ToLower(c)) <==> IsSign(c)
  {}

  lemma {:induction false} CanonFirst(t: seq<byte>)
    requires t != [] && t[0] != UNDERSCORE
    ensures Canon(t) != [] && Canon(t)[0] == ToLower(t[0])
  {
    hide Canon, ToLower;
    assert t == [t[0]] + t[1..];
    CanonJoin([t[0]], t[1..]);
    CanonOne(t[0]);
  }

  lemma {:induction false} CanonOne(c: byte)
    requires c != UNDERSCORE
    ensures Canon([c]) == [ToLower(c)]
  {
    hide ToLower;
    CanonShort([c]);
  }

  lemma {:induction false} NoUnderscoreFirst(t: seq<byte>)
    requires UnderscoresOk(t, 10) && t != []
    ensures t[0] != UNDERSCORE
  {}

  lemma {:induction false} UnderscoresSuffix(t: seq<byte>, k: nat)
    requires UnderscoresOk(t, 10) && k <= |t| && (k == 0 || !IsDigit(t[k - 1]))
    ensures UnderscoresOk(t[k..], 10)
  {
    var u := t[k..];
    forall i | 0 <= i < |u| && u[i] == UNDERSCORE
      ensures 0 < i && i + 1 < |u| && DigitIn(u[i - 1], 10) && DigitIn(u[i + 1], 10)
    {
      assert t[k + i] == UNDERSCORE;
      assert u[i + 1] == t[k + i + 1];
    }
  }

  lemma {:induction false} UnderscoresPrefix(t: seq<byte>, k: nat)
    requires UnderscoresOk(t, 10) && k <= |t| && (k == |t| || !IsDigit(t[k]))
    ensures UnderscoresOk(t[..k], 10)
  {
    var u := t[..k];
    forall i | 0 <= i < |u| && u[i] == UNDERSCORE
      ensures 0 < i && i + 1 < |u| && DigitIn(u[i - 1], 10) && DigitIn(u[i + 1], 10)
    {
      assert t[i] == UNDERSCORE;
      assert t[i + 1] != UNDERSCORE;
    }
  }

  // ---------- signs

  /** The sign of a text and what follows it. */
  lemma {:induction false} SignOf(t: seq<byte>) returns (g: Sign, u: seq<byte>)
    requires UnderscoresOk(t, 10)
    ensures t == SignText(g) + u && UnderscoresOk(u, 10) && Canon(t) == SignText(g) + Canon(u)
    ensures Canon(u) != [] && IsSign(Canon(u)[0]) ==> g != Unsigned
  {
    hide Canon, UnderscoresOk;
    if t != [] && IsSign(t[0]) {
      g, u := if t[0] == 43 then Plus else Minus, t[1..];
      assert t == [t[0]] + u;
      CanonJoin([t[0]], u);
      CanonOne(t[0]);
      UnderscoresSuffix(t, 1);
    } else {
      g, u := Unsigned, t;
      assert t == [] + u && Canon(t) == [] + Canon(u);
      NoSignFirst(t);
    }
  }

  lemma {:induction false} NoSignFirst(t: seq<byte>)
    requires UnderscoresOk(t, 10) && (t == [] || !IsSign(t[0]))
    ensures Canon(t) == [] || !IsSign(Canon(t)[0])
  {
    hide Canon, IsSign;
    if t != [] {
      NoUnderscoreFirst(t);
      CanonFirst(t);
      LowerNoSign(t[0]);
    } else {
      CanonShort([]);
    }
  }

  /** A sign is a sign on either side. */
  lemma {:induction false} SameSign(g: Sign, a: seq<byte>, h: Sign, b: seq<byte>)
    requires SignText(g) + a == SignText(h) + b && b != [] && !IsSign(b[0]) && (a != [] && IsSign(a[0]) ==> g != Unsigned)
    ensures g == h && a == b
  {
    var c := SignText(g) + a;
    SignParts(g, a, c);
    SignParts(h, b, c);
  }

  lemma {:induction false} SignParts(g: Sign, a: seq<byte>, c: seq<byte>)
    requires c == SignText(g) + a
    ensures g == Unsigned ==> c == a
    ensures g != Unsigned ==> c != [] && c[0] == SignText(g)[0] && IsSign(c[0]) && c[1..] == a
  {}

  // ---------- decimal integers

  lemma {:induction false} NoLeadingZero(g: Sign, fs: seq<Figure>, rest: seq<byte>)
    requires FiguresOk(fs, 10) && LeadingOk(SignText(g) + (DigitsText(fs) + rest))
    ensures DecimalOk(fs)
  {
    var c := SignText(g) + (DigitsText(fs) + rest);
    var i := |SignText(g)|;
    DigitsAre(fs, 10);
    if |fs| > 1 {
      assert c[i] == DigitsText(fs)[0] && c[i + 1] == DigitsText(fs)[1];
      assert fs[0] in fs && fs[1] in fs;
      LetterIs(fs[0].v, false, 10);
      LetterIs(fs[1].v, false, 10);
      if i == 1 {
        assert c[0] == SignText(g)[0];
      }
    }
  }

  lemma {:induction false} WholeIsDigits(c: seq<byte>)
    requires StrToLL(c, 10).1 == |c| > 0
    ensures var i := if IsSign(c[0]) then 1 else 0;
            i < |c| && forall k :: i <= k < |c| ==> IsDigitOf(c[k], 10)
  {
    hide ValueOf, DigitRun, IsDigitOf, IsSign;
    RunAll(c, if IsSign(c[0]) then 1 else 0, 10);
  }

  /** Behind its sign a text that is converted whole is digits. */
  lemma {:induction false} ConvertedWhole(g: Sign, d: seq<byte>)
    requires (d != [] && IsSign(d[0]) ==> g != Unsigned)
    requires var c := SignText(g) + d; StrToLL(c, 10).1 == |c| > 0
    ensures d != [] && AllDigitsOf(d, 10)
  {
    hide StrToLL, IsDigitOf, IsSign;
    var c := SignText(g) + d;
    WholeIsDigits(c);
    SignParts(g, d, c);
    if g != Unsigned {
      assert forall k :: 0 <= k < |d| ==> d[k] == c[1 + k];
    }
  }

  lemma {:induction false} DecimalOf(s: Input, w: seq<byte>) returns (n: Integer)
    requires Radix(w).None? && NumberOf(s, w).Ok? && NumberOf(s, w).value.0.Int64? && |w| <= LONGEST
    ensures IntegerOk(n) && n.base == 10 && IntegerText(n) == w[..NumberOf(s, w).value.1]
  {
    hide Span, NumText, StrToLL, FiguresText, FiguresOk, Canon, UnderscoresOk, PointsOk, LeadingOk, DigitsText, IsRun,
         AllDigitsOf, IsSign, FloatLen;
    var len := NumberOf(s, w).value.1;
    var t := w[..len];
    IntegerIsWhole(s, w);
    NumTextIs(t, 10);
    var g, u := SignOf(t);
    ConvertedWhole(g, Canon(u));
    CanonNotEmpty(u);
    DigitsAreRun(u, 10);
    var fs := FiguresFrom(u, 10);
    CanonFigures(fs);
    assert DigitsText(fs) + [] == DigitsText(fs);
    NoLeadingZero(g, fs, []);
    n := Integer(g, 10, fs);
    assert [] + u == u;
  }

  lemma {:induction false} CanonNotEmpty(u: seq<byte>)
    requires Canon(u) != []
    ensures u != []
  {
    CanonShort([]);
  }

  /** An integer is read from a text that is converted whole. */
  lemma {:induction false} IntegerIsWhole(s: Input, w: seq<byte>)
    requires Radix(w).None? && NumberOf(s, w).Ok? && NumberOf(s, w).value.0.Int64?
    ensures var len := NumberOf(s, w).value.1;
            len <= |w| && NumText(w[..len], 10).Ok? && var c := NumText(w[..len], 10).value; StrToLL(c, 10).1 == |c| > 0
  {
    hide Span, NumText, StrToLL, Radix, FloatLen;
  }

  // ---------- floats

  /** What strtod reads of digits, signs, points and the letter e (section 7.22.1.3 of the C standard):
      digits with or without a point among them, and an exponent. */
  datatype DecimalText = DecimalText(sign: Sign, whole: seq<byte>, frac: Option<seq<byte>>, exp: Option<(Sign, seq<byte>)>)

  function PointText(f: Option<seq<byte>>): seq<byte> { if f.Some? then [POINT] + f.value else [] }

  function PowerText(e: Option<(Sign, seq<byte>)>): seq<byte> {
    if e.Some? then [101] + (SignText(e.value.0) + e.value.1) else []
  }

  function TextOf(x: DecimalText): seq<byte> { SignText(x.sign) + (x.whole + (PointText(x.frac) + PowerText(x.exp))) }

  ghost predicate DecimalTextOk(x: DecimalText) {
    && AllDigitsOf(x.whole, 10) && (x.frac.Some? ==> AllDigitsOf(x.frac.value, 10))
    && (x.whole != [] || (x.frac.Some? && x.frac.value != []))
    && (x.exp.Some? ==> x.exp.value.1 != [] && AllDigitsOf(x.exp.value.1, 10))
  }

  ghost predicate IsDecimalText(c: seq<byte>) { exists x: DecimalText :: DecimalTextOk(x) && TextOf(x) == c }

  predicate IsFloatChar(c: int) { IsDigit(c) || IsSign(c) || c == POINT || c == 101 }

  /** strtod reads no other text of such characters. */
  ghost predicate ReadsDecimals(strtod: seq<byte> -> Option<Double>) {
    forall c: seq<byte> :: strtod(c).Some? && (forall k :: 0 <= k < |c| ==> IsFloatChar(c[k])) ==> IsDecimalText(c)
  }

  // ---------- the parts of a text, from the parts of what is left of it

  /** Where a text has to be cut. */
  lemma {:induction false} CanonCut(t: seq<byte>, a: seq<byte>, b: seq<byte>) returns (k: nat)
    requires Canon(t) == a + b
    ensures k <= |t| && Canon(t[..k]) == a && Canon(t[k..]) == b
    decreases |t|
  {
    hide Canon, ToLower;
    CanonShort([]);
    if t == [] {
      k := 0;
      assert |a + b| == 0;
    } else if b == [] {
      k := |t|;
      assert t[..k] == t && t[k..] == [] && a + b == a;
    } else {
      var n := |t| - 1;
      CanonLast(t);
      if t[n] == UNDERSCORE {
        k := CanonCut(t[..n], a, b);
        assert t[..n][..k] == t[..k] && t[k..][..|t[k..]| - 1] == t[..n][k..];
        CanonLast(t[k..]);
      } else {
        var m := |b| - 1;
        assert (a + b)[..|a| + m] == a + b[..m] && (a + b)[|a| + m] == b[m];
        assert (Canon(t[..n]) + [ToLower(t[n])])[..|a| + m] == Canon(t[..n]);
        k := CanonCut(t[..n], a, b[..m]);
        assert t[..n][..k] == t[..k] && t[k..][..|t[k..]| - 1] == t[..n][k..];
        CanonLast(t[k..]);
        assert b[..m] + [b[m]] == b;
      }
    }
  }

  /** In front of what is no digit stands no underscore, nor behind the digits before it. */
  lemma {:induction false} CleanCut(u: seq<byte>, k: nat, b: seq<byte>)
    requires UnderscoresOk(u, 10) && k <= |u| && Canon(u[k..]) == b && (b == [] || !IsDigit(b[0]))
    ensures if b == [] then k == |u| else k < |u| && ToLower(u[k]) == b[0] && !IsDigit(u[k]) && u[k] != UNDERSCORE
    ensures UnderscoresOk(u[..k], 10)
  {
    hide Canon, UnderscoresOk, ToLower, IsDigit;
    CanonShort([]);
    if k < |u| {
      Boundary(u, k);
      assert u[k..][0] == u[k];
      CanonFirst(u[k..]);
    } else {
      assert u[k..] == [];
    }
    UnderscoresPrefix(u, k);
  }

  lemma {:induction false} LowerDigit(c: byte)
    ensures IsDigit(ToLower(c)) <==> IsDigit(c)
    ensures IsDigit(c) ==> c != UNDERSCORE
  {}

  lemma {:induction false} UnderscoreThenDigit(u: seq<byte>, k: nat)
    requires UnderscoresOk(u, 10) && k < |u| && u[k] == UNDERSCORE
    ensures Canon(u[k..]) != [] && IsDigit(Canon(u[k..])[0])
  {
    hide Canon;
    assert IsDigit(u[k + 1]);
    UnderscoreFirst(u[k..]);
    assert u[k..][1..] == u[k + 1..] && u[k + 1..][0] == u[k + 1];
    CanonFirst(u[k + 1..]);
    LowerDigit(u[k + 1]);
  }

  lemma {:induction false} Boundary(u: seq<byte>, k: nat)
    requires UnderscoresOk(u, 10) && k < |u| && (Canon(u[k..]) == [] || !IsDigit(Canon(u[k..])[0]))
    ensures u[k] != UNDERSCORE && !IsDigit(u[k])
  {
    hide Canon, UnderscoresOk, IsDigit, ToLower;
    if u[k] == UNDERSCORE {
      UnderscoreThenDigit(u, k);
    } else {
      assert u[k..][0] == u[k];
      CanonFirst(u[k..]);
      LowerDigit(u[k]);
    }
  }

  lemma {:induction false} UnderscoreFirst(t: seq<byte>)
    requires t != [] && t[0] == UNDERSCORE
    ensures Canon(t) == Canon(t[1..])
  {
    hide Canon;
    assert t == [UNDERSCORE] + t[1..];
    CanonJoin([UNDERSCORE], t[1..]);
    assert Canon([UNDERSCORE]) == [] by {
      CanonShort([]);
      CanonLast([UNDERSCORE]);
      assert [UNDERSCORE][..0] == [];
    }
    assert [] + Canon(t[1..]) == Canon(t[1..]);
  }

  /** Digits, cut off in front of what is no digit. */
  lemma {:induction false} DigitsOff(u: seq<byte>, d: seq<byte>, b: seq<byte>) returns (fs: seq<Figure>, v: seq<byte>)
    requires UnderscoresOk(u, 10) && Canon(u) == d + b && d != [] && AllDigitsOf(d, 10) && (b == [] || !IsDigit(b[0]))
    ensures FiguresOk(fs, 10) && u == FiguresText(fs) + v && Canon(v) == b && DigitsText(fs) == d
    ensures b == [] ==> v == []
    ensures b != [] ==> v != [] && ToLower(v[0]) == b[0] && UnderscoresOk(v[1..], 10) && Canon(v[1..]) == b[1..]
  {
    hide Canon, UnderscoresOk, FiguresOk, FiguresText, DigitsText, AllDigitsOf, IsRun, ToLower;
    var k := CanonCut(u, d, b);
    CleanCut(u, k, b);
    v := u[k..];
    CanonNotEmpty(u[..k]);
    DigitsAreRun(u[..k], 10);
    fs := FiguresFrom(u[..k], 10);
    CanonFigures(fs);
    assert u == u[..k] + u[k..];
    if b != [] {
      AfterMark(u, k);
    }
  }

  /** Behind the point or the e. */
  lemma {:induction false} AfterMark(u: seq<byte>, k: nat)
    requires UnderscoresOk(u, 10) && k < |u| && !IsDigit(u[k]) && Canon(u[k..]) != [] && ToLower(u[k]) == Canon(u[k..])[0]
    requires u[k] != UNDERSCORE
    ensures u[k..][0] == u[k] && UnderscoresOk(u[k..][1..], 10) && Canon(u[k..][1..]) == Canon(u[k..])[1..]
  {
    hide Canon, UnderscoresOk, ToLower;
    assert u[k..][1..] == u[k + 1..];
    UnderscoresSuffix(u, k + 1);
    assert u[k..] == [u[k]] + u[k + 1..];
    CanonJoin([u[k]], u[k + 1..]);
    CanonOne(u[k]);
  }

  ghost predicate ExponentOk(x: Option<Exponent>) { x.Some? ==> FiguresOk(x.value.figures, 10) }

  /** The text v of which the mark in front and then b are left. */
  ghost predicate Marked(v: seq<byte>, b: seq<byte>) {
    if b == [] then v == []
    else v != [] && ToLower(v[0]) == b[0] && UnderscoresOk(v[1..], 10) && Canon(v[1..]) == b[1..]
  }

  lemma {:induction false} PowerOf(v: seq<byte>, e: Option<(Sign, seq<byte>)>) returns (x: Option<Exponent>)
    requires e.Some? ==> e.value.1 != [] && AllDigitsOf(e.value.1, 10)
    requires Marked(v, PowerText(e))
    ensures ExponentOk(x) && ExponentText(x) == v && (x.Some? <==> e.Some?)
  {
    x := None;
    if e.Some? {
      hide Canon, UnderscoresOk, FiguresOk, FiguresText, AllDigitsOf, IsRun, IsSign, DigitsText;
      var (h, d) := e.value;
      assert PowerText(e)[1..] == SignText(h) + d;
      var g, u := SignOf(v[1..]);
      DigitFirst(d);
      SameSign(g, Canon(u), h, d);
      CanonNotEmpty(u);
      DigitsAreRun(u, 10);
      var fs := FiguresFrom(u, 10);
      x := Some(Exponent(IsUpper(v[0]), g, fs));
      assert v == [v[0]] + v[1..];
    }
  }

  lemma {:induction false} DigitFirst(d: seq<byte>)
    requires d != [] && AllDigitsOf(d, 10)
    ensures !IsSign(d[0]) && IsDigit(d[0])
  {
    assert IsDigitOf(d[0], 10);
  }

  /** The fraction and the exponent. */
  lemma {:induction false} RestOf(v: seq<byte>, f: Option<seq<byte>>, e: Option<(Sign, seq<byte>)>)
    returns (fs: seq<Figure>, x: Option<Exponent>)
    requires f.Some? ==> f.value != [] && AllDigitsOf(f.value, 10)
    requires e.Some? ==> e.value.1 != [] && AllDigitsOf(e.value.1, 10)
    requires Marked(v, PointText(f) + PowerText(e))
    ensures (fs != [] ==> FiguresOk(fs, 10)) && ExponentOk(x) && FracText(fs) + ExponentText(x) == v
    ensures (fs != [] <==> f.Some?) && (x.Some? <==> e.Some?)
  {
    hide Canon, UnderscoresOk, FiguresOk, FiguresText, AllDigitsOf, DigitsText, ExponentText, PowerText;
    PowerStarts(e);
    if f.None? {
      fs := [];
      assert PointText(f) + PowerText(e) == PowerText(e);
      x := PowerOf(v, e);
      assert FracText(fs) + ExponentText(x) == v;
    } else {
      var b := PointText(f) + PowerText(e);
      assert b[1..] == f.value + PowerText(e) && b[0] == POINT;
      var rest;
      fs, rest := DigitsOff(v[1..], f.value, PowerText(e));
      x := PowerOf(rest, e);
      FiguresNotEmpty(fs, 10);
      PointIs(v[0]);
      assert v == [v[0]] + v[1..];
    }
  }

  lemma {:induction false} PointIs(c: byte)
    requires ToLower(c) == POINT
    ensures c == POINT
  {}

  lemma {:induction false} PowerStarts(e: Option<(Sign, seq<byte>)>)
    ensures PowerText(e) != [] ==> PowerText(e)[0] == 101 && !IsDigit(PowerText(e)[0])
    ensures e.Some? <==> PowerText(e) != []
  {}

  lemma {:induction false} AroundPoint(x: DecimalText)
    requires x.frac.Some?
    ensures var c := TextOf(x);
            var i := |SignText(x.sign)| + |x.whole|;
            && i < |c| && c[i] == POINT && (x.whole == [] && i > 0 ==> IsSign(c[i - 1]))
            && (x.frac.value == [] ==> i + 1 == |c| || c[i + 1] == 101)
  {
    hide PowerText;
    var c := TextOf(x);
    var i := |SignText(x.sign)| + |x.whole|;
    PowerStarts(x.exp);
    assert c[i] == PointText(x.frac)[0];
    if x.frac.value == [] && i + 1 < |c| {
      assert c[i + 1] == PowerText(x.exp)[0];
    }
  }

  /** Points stand between digits. */
  lemma {:induction false} DigitsAround(x: DecimalText)
    requires DecimalTextOk(x) && PointsOk(TextOf(x))
    ensures x.whole != [] && (x.frac.Some? ==> x.frac.value != [])
  {
    hide AllDigitsOf, TextOf;
    if x.frac.Some? {
      AroundPoint(x);
    }
  }

  lemma {:induction false} HasMark(x: DecimalText)
    requires DecimalTextOk(x) && exists k :: 0 <= k < |TextOf(x)| && (TextOf(x)[k] == POINT || TextOf(x)[k] == 101)
    ensures x.frac.Some? || x.exp.Some?
  {
    if x.frac.None? && x.exp.None? {
      var c := TextOf(x);
      var i := |SignText(x.sign)|;
      assert c == SignText(x.sign) + x.whole;
      forall k | 0 <= k < |c| ensures c[k] != POINT && c[k] != 101 {
        if k >= i {
          assert c[k] == x.whole[k - i] && IsDigitOf(x.whole[k - i], 10);
        }
      }
    }
  }

  lemma {:induction false} FloatFrom(t: seq<byte>, c: seq<byte>) returns (x: Float)
    requires NumText(t, 10) == Ok(c) && IsDecimalText(c) && |t| <= LONGEST
    requires exists k :: 0 <= k < |c| && (c[k] == POINT || c[k] == 101)
    ensures x.Number? && FloatOk(x) && FloatText(x) == t && PlainFloat(x) == c
  {
    hide Canon, UnderscoresOk, PointsOk, LeadingOk, FiguresOk, FiguresText, AllDigitsOf, DigitsText, ExponentText, FracText,
         PlainFloat, PointText, PowerText, NumText, IsSign, DecimalTextOk, DecimalOk;
    NumTextIs(t, 10);
    var d: DecimalText :| DecimalTextOk(d) && TextOf(d) == c;
    DecimalParts(d);
    DigitsAround(d);
    HasMark(d);
    var rest := PointText(d.frac) + PowerText(d.exp);
    RestNoDigit(d);
    var g, u := SignOf(t);
    DigitFirst(d.whole);
    SameSign(g, Canon(u), d.sign, d.whole + rest);
    var w, v := DigitsOff(u, d.whole, rest);
    NoLeadingZero(g, w, rest);
    var f, e := RestOf(v, d.frac, d.exp);
    x := Number(g, w, f, e);
    FloatIsWritten(x, t);
    FloatIs(x);
  }

  lemma {:induction false} FloatIsWritten(x: Float, t: seq<byte>)
    requires x.Number? && DecimalOk(x.whole) && (x.frac != [] ==> FiguresOk(x.frac, 10)) && ExponentOk(x.exp)
    requires (x.frac != [] || x.exp.Some?) && |t| <= LONGEST
    requires t == SignText(x.sign) + (FiguresText(x.whole) + (FracText(x.frac) + ExponentText(x.exp)))
    ensures FloatOk(x) && FloatForm(x) && FloatText(x) == t
  {
    hide FiguresText, DecimalOk, FiguresOk, FracText, ExponentText;
  }

  lemma {:induction false} DecimalParts(x: DecimalText)
    requires DecimalTextOk(x)
    ensures AllDigitsOf(x.whole, 10) && (x.frac.Some? ==> AllDigitsOf(x.frac.value, 10))
    ensures x.exp.Some? ==> x.exp.value.1 != [] && AllDigitsOf(x.exp.value.1, 10)
  {}

  lemma {:induction false} RestNoDigit(x: DecimalText)
    ensures var rest := PointText(x.frac) + PowerText(x.exp);
            rest == [] || !IsDigit(rest[0])
  {}

  lemma {:induction false} CanonChars(t: seq<byte>)
    requires forall k :: 0 <= k < |t| ==> t[k] in NUMBER_SET
    ensures forall k :: 0 <= k < |Canon(t)| ==> IsFloatChar(Canon(t)[k])
    decreases |t|
  {
    hide Canon, IsFloatChar, ToLower, NUMBER_SET;
    if t != [] {
      CanonLast(t);
      CanonChars(t[..|t| - 1]);
      LowerFloatChar(t[|t| - 1]);
    } else {
      CanonShort([]);
    }
  }

  lemma {:induction false} LowerFloatChar(c: byte)
    requires c in NUMBER_SET
    ensures c == UNDERSCORE || IsFloatChar(ToLower(c))
  {}

  /** A sign alone is no number. */
  lemma {:induction false} NoDecimal(c: seq<byte>)
    requires c == [] || (|c| == 1 && IsSign(c[0]))
    ensures !IsDecimalText(c)
  {
    forall x: DecimalText | DecimalTextOk(x) ensures TextOf(x) != c {
      TextHasMore(x);
    }
  }

  lemma {:induction false} TextHasMore(x: DecimalText)
    requires DecimalTextOk(x)
    ensures var c := TextOf(x); c != [] && (|c| == 1 ==> !IsSign(c[0]))
  {
    hide PowerText, AllDigitsOf;
    var c := TextOf(x);
    if x.whole != [] {
      DigitFirst(x.whole);
      assert c[|SignText(x.sign)|] == x.whole[0];
    } else {
      assert |PointText(x.frac)| >= 2;
    }
  }

  lemma {:induction false} WordFrom(w: seq<byte>) returns (x: Float)
    requires var i := if w != [] && IsSign(w[0]) then 1 else 0; StartsWith(w, i, NAN) || StartsWith(w, i, INF)
    ensures x.Word? && FloatOk(x) && FloatLen(w) <= |w| && FloatText(x) == w[..FloatLen(w)]
  {
    var i := if w != [] && IsSign(w[0]) then 1 else 0;
    var g := if i == 0 then Unsigned else if w[0] == 43 then Plus else Minus;
    x := Word(g, StartsWith(w, i, INF));
    assert w[..i + 3] == w[..i] + w[i..i + 3];
    assert w[..i] == SignText(g);
  }

  /** A float that is no word. */
  lemma {:induction false} FloatRunFrom(s: Input, w: seq<byte>) returns (x: Float)
    requires ReadsDecimals(s.strtod) && FloatOf(s, w).Ok? && |w| <= LONGEST
    requires var i := if w != [] && IsSign(w[0]) then 1 else 0; !StartsWith(w, i, NAN) && !StartsWith(w, i, INF)
    requires var c := NumText(w[..FloatLen(w)], 10);
             c.Ok? ==> IsDecimalText(c.value) ==> exists k :: 0 <= k < |c.value| && (c.value[k] == POINT || c.value[k] == 101)
    ensures FloatOk(x) && FloatText(x) == w[..FloatLen(w)] && s.strtod(PlainFloat(x)).Some?
    ensures FloatOf(s, w) == Ok((Fp64(s.strtod(PlainFloat(x)).value), FloatLen(w)))
  {
    hide Span, NumText, StartsWith, NUMBER_SET, IsDecimalText, FloatText, PlainFloat, FloatOk;
    var t := w[..FloatLen(w)];
    RunInSet(w);
    NumTextIs(t, 10);
    CanonChars(t);
    x := FloatFrom(t, Canon(t));
  }

  lemma {:induction false} RunInSet(w: seq<byte>)
    requires var i := if w != [] && IsSign(w[0]) then 1 else 0; !StartsWith(w, i, NAN) && !StartsWith(w, i, INF)
    ensures forall k :: 0 <= k < FloatLen(w) ==> w[k] in NUMBER_SET
  {
    hide Span, StartsWith;
    var i := if w != [] && IsSign(w[0]) then 1 else 0;
    SpanChars(w, i, NUMBER_SET);
  }

  /** What the number at the start of w is: an integer or a float, as it can be written. */
  ghost predicate IsNumber(s: Input, w: seq<byte>, n: Option<Integer>, x: Option<Float>) {
    && NumberOf(s, w).Ok?
    && var (v, len) := NumberOf(s, w).value;
       && len <= |w|
       && match n
          case Some(i) => v.Int64? && IntegerOk(i) && IntegerText(i) == w[..len]
          case None =>
            && v.Fp64? && x.Some? && FloatOk(x.value) && FloatText(x.value) == w[..len]
            && s.strtod(PlainFloat(x.value)) == Some(v.d)
  }

  /** Where a word may stand. */
  function SignLen(w: seq<byte>): nat { if w != [] && IsSign(w[0]) then 1 else 0 }

  lemma {:induction false} FloatBranch(s: Input, w: seq<byte>)
    requires Radix(w).None? && NumberOf(s, w).Ok? && NumberOf(s, w).value.0.Fp64?
    ensures NumberOf(s, w) == FloatOf(s, w)
    ensures var i := SignLen(w);
            !(i < |w| && (w[i] == 105 || w[i] == 110)) ==>
              var c := NumText(w[..Span(w, 0, NUMBER_SET)], 10);
              c.Ok? && exists k :: 0 <= k < |c.value| && (c.value[k] == POINT || c.value[k] == 101)
  {
    hide Span, NumText, StrToLL, Radix, FloatOf;
  }

  lemma {:induction false} NoWordHere(w: seq<byte>)
    ensures var i := SignLen(w);
            !(i < |w| && (w[i] == 105 || w[i] == 110)) ==> !StartsWith(w, i, NAN) && !StartsWith(w, i, INF)
  {
    var i := SignLen(w);
    if StartsWith(w, i, NAN) {
      SliceAt(w, i, NAN, 0);
    }
    if StartsWith(w, i, INF) {
      SliceAt(w, i, INF, 0);
    }
  }

  lemma {:induction false} SignInSpan(w: seq<byte>)
    ensures Span(w, SignLen(w), NUMBER_SET) == Span(w, 0, NUMBER_SET)
  {}

  /** An i or an n that starts no word. */
  lemma {:induction false} NoWordNoNumber(w: seq<byte>)
    requires var i := SignLen(w);
             i < |w| && (w[i] == 105 || w[i] == 110) && !StartsWith(w, i, NAN) && !StartsWith(w, i, INF)
    ensures var c := NumText(w[..FloatLen(w)], 10); c.Ok? ==> !IsDecimalText(c.value)
  {
    hide IsDecimalText, NumText, StartsWith;
    var i := SignLen(w);
    assert FloatLen(w) == i;
    var t := w[..i];
    NumTextIs(t, 10);
    SignLeft(t);
    NoDecimal(Canon(t));
  }

  lemma {:induction false} SignLeft(t: seq<byte>)
    requires t == [] || (|t| == 1 && IsSign(t[0]))
    ensures Canon(t) == t
  {
    CanonShort(t);
    if t != [] {
      LowerNoSign(t[0]);
    }
  }

  lemma {:induction false} FloatNumber(s: Input, w: seq<byte>) returns (x: Float)
    requires ReadsDecimals(s.strtod) && |w| <= LONGEST && Radix(w).None? && NumberOf(s, w).Ok? && NumberOf(s, w).value.0.Fp64?
    ensures IsNumber(s, w, None, Some(x))
  {
    hide Span, NumText, Radix, StartsWith, NumberOf, IsDecimalText, FloatText, PlainFloat, FloatOk, ReadsDecimals, FloatLen;
    var i := SignLen(w);
    FloatBranch(s, w);
    if StartsWith(w, i, NAN) || StartsWith(w, i, INF) {
      x := WordFrom(w);
      WordPlain(x);
    } else {
      NoWordHere(w);
      SignInSpan(w);
      RunLen(w);
      if i < |w| && (w[i] == 105 || w[i] == 110) {
        NoWordNoNumber(w);
      }
      x := FloatRunFrom(s, w);
    }
  }

  lemma {:induction false} RunLen(w: seq<byte>)
    requires !StartsWith(w, SignLen(w), NAN) && !StartsWith(w, SignLen(w), INF)
    ensures FloatLen(w) == Span(w, SignLen(w), NUMBER_SET)
  {}

  lemma {:induction false} NumberFrom(s: Input, w: seq<byte>) returns (n: Option<Integer>, x: Option<Float>)
    requires ReadsDecimals(s.strtod) && |w| <= LONGEST && NumberOf(s, w).Ok?
    ensures IsNumber(s, w, n, x)
  {
    hide Radix, NumberOf, IntegerText, IntegerOk, FloatText, FloatOk, PlainFloat, ReadsDecimals;
    NumberKinds(s, w);
    n, x := None, None;
    if Radix(w).Some? {
      var i := PrefixedOf(s, w);
      n := Some(i);
    } else if NumberOf(s, w).value.0.Int64? {
      var i := DecimalOf(s, w);
      n := Some(i);
    } else {
      var y := FloatNumber(s, w);
      x := Some(y);
    }
  }

  lemma {:induction false} NumberKinds(s: Input, w: seq<byte>)
    requires NumberOf(s, w).Ok?
    ensures var (v, len) := NumberOf(s, w).value;
            len <= |w| && (v.Int64? || v.Fp64?) && (Radix(w).Some? ==> v.Int64?)
  {
    hide Span, NumText, StrToLL, FloatLen;
  }
}
