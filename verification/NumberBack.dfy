/** Numbers that have been written out are read back. */
module ReadingNumbers {
  import opened Basics
  import opened Datum
  import opened Numbers
  import opened Layouts
  import opened Scanning
  import opened StringTexts
  import opened NumberTexts

  // ---------- what process_numstr leaves of a text

  /** The text without underscores, in lower case. */
  function Canon(t: seq<byte>): seq<byte> { Lowered(Squeezed(t)) }

  lemma {:induction false} CanonJoin(a: seq<byte>, b: seq<byte>)
    ensures Canon(a + b) == Canon(a) + Canon(b)
  {
    SqueezedKeeps(a, b);
    hide Squeezed;
    assert Lowered(Squeezed(a) + Squeezed(b)) == Lowered(Squeezed(a)) + Lowered(Squeezed(b));
  }

  lemma {:induction false} CanonShort(t: seq<byte>)
    requires UNDERSCORE !in t
    ensures Canon(t) == Lowered(t)
  {
    SqueezedPlain(t);
  }

  lemma {:induction false} CanonFigure(f: Figure)
    ensures Canon(FigureText(f)) == [HexLetter(f.v, false)]
  {
    var c := HexLetter(f.v, f.cap);
    CanonShort([c]);
    assert Squeezed([UNDERSCORE]) == [] by {
      assert [UNDERSCORE][..0] == [];
    }
    if f.under {
      SqueezedKeeps([UNDERSCORE], [c]);
    } else {
      assert [] + [c] == [c];
    }
  }

  lemma {:induction false} CanonFigures(fs: seq<Figure>)
    ensures Canon(FiguresText(fs)) == DigitsText(fs)
  {
    if fs != [] {
      hide Canon, FigureText, DigitsText, HexLetter;
      var init, last := fs[..|fs| - 1], fs[|fs| - 1];
      CanonJoin(FiguresText(init), FigureText(last));
      CanonFigures(init);
      CanonFigure(last);
      LastDigit(fs);
    } else {
      CanonShort([]);
    }
  }

  lemma {:induction false} LastDigit(fs: seq<Figure>)
    requires fs != []
    ensures DigitsText(fs) == DigitsText(fs[..|fs| - 1]) + [HexLetter(fs[|fs| - 1].v, false)]
  {
    hide HexLetter;
  }

  // ---------- underscores

  lemma {:induction false} UnderscoresJoin(a: seq<byte>, b: seq<byte>, base: nat)
    requires UnderscoresOk(a, base) && UnderscoresOk(b, base)
    ensures UnderscoresOk(a + b, base)
  {
    var t := a + b;
    forall i | 0 <= i < |t| && t[i] == UNDERSCORE
      ensures 0 < i && i + 1 < |t| && DigitIn(t[i - 1], base) && DigitIn(t[i + 1], base)
    {
      if i < |a| {
        assert a[i] == UNDERSCORE && t[i - 1] == a[i - 1] && t[i + 1] == a[i + 1];
      } else {
        var j := i - |a|;
        assert b[j] == UNDERSCORE && t[i - 1] == b[j - 1] && t[i + 1] == b[j + 1];
      }
    }
  }

  /** A digit of its base, as it may be written. */
  predicate IsFigure(c: int, base: nat) { DigitValue(c) < base }

  lemma {:induction false} LetterIs(v: Digit, cap: bool, base: nat)
    requires v < base
    ensures IsFigure(HexLetter(v, cap), base) && DigitValue(HexLetter(v, cap)) == v && HexLetter(v, cap) != UNDERSCORE
    ensures base == 16 || base <= 10 ==> DigitIn(HexLetter(v, cap), base)
    ensures IsHex(HexLetter(v, cap)) && (base <= 10 ==> IsDigit(HexLetter(v, cap)))
  {}

  /** Figures start and end with a digit, and every underscore stands between two. */
  lemma {:induction false} FiguresShape(fs: seq<Figure>, base: nat)
    requires FiguresOk(fs, base) && (base == 16 || base <= 10)
    ensures var t := FiguresText(fs);
            && t[0] == HexLetter(fs[0].v, fs[0].cap) && IsFigure(t[0], base)
            && IsFigure(t[|t| - 1], base) && UnderscoresOk(t, base)
            && forall k :: 0 <= k < |t| ==> IsFigure(t[k], base) || t[k] == UNDERSCORE
    decreases |fs|
  {
    var init, last := fs[..|fs| - 1], fs[|fs| - 1];
    assert last in fs;
    LetterIs(last.v, last.cap, base);
    var t, u := FiguresText(init), FigureText(last);
    if init == [] {
      assert FiguresText(fs) == u;
    } else {
      assert forall f :: f in init ==> f in fs;
      FiguresShape(init, base);
      LastFigure(t, u, last, base);
    }
  }

  lemma {:induction false} LastFigure(t: seq<byte>, u: seq<byte>, last: Figure, base: nat)
    requires t != [] && u == FigureText(last) && last.v < base && (base == 16 || base <= 10)
    requires IsFigure(t[|t| - 1], base) && UnderscoresOk(t, base)
    requires forall k :: 0 <= k < |t| ==> IsFigure(t[k], base) || t[k] == UNDERSCORE
    ensures var r := t + u;
            && IsFigure(r[|r| - 1], base) && UnderscoresOk(r, base)
            && forall k :: 0 <= k < |r| ==> IsFigure(r[k], base) || r[k] == UNDERSCORE
  {
    LetterIs(last.v, last.cap, base);
    var r := t + u;
    FigureInBase(t[|t| - 1], base);
    forall i | 0 <= i < |r| && r[i] == UNDERSCORE
      ensures 0 < i && i + 1 < |r| && DigitIn(r[i - 1], base) && DigitIn(r[i + 1], base)
    {
      if i < |t| {
        assert t[i] == UNDERSCORE && r[i - 1] == t[i - 1] && r[i + 1] == t[i + 1];
      } else {
        assert i == |t| && r[i - 1] == t[|t| - 1];
      }
    }
  }

  lemma {:induction false} FigureInBase(c: int, base: nat)
    requires IsFigure(c, base) && (base == 16 || base <= 10)
    ensures DigitIn(c, base)
  {}

  // ---------- the value

  lemma {:induction false} DigitsAre(fs: seq<Figure>, base: nat)
    requires (forall f :: f in fs ==> f.v < base) && base <= 16
    ensures forall k :: 0 <= k < |fs| ==> DigitValue(DigitsText(fs)[k]) == fs[k].v < base
  {
    forall k | 0 <= k < |fs| ensures DigitValue(DigitsText(fs)[k]) == fs[k].v < base {
      assert fs[k] in fs;
      LetterIs(fs[k].v, false, base);
    }
  }

  lemma {:induction false} RunOfDigits(t: seq<byte>, i: nat, j: nat, base: nat)
    requires i <= j <= |t| && (forall k :: i <= k < j ==> DigitValue(t[k]) < base)
    requires j < |t| ==> DigitValue(t[j]) >= base
    ensures DigitRun(t, i, base) == j
    decreases j - i
  {
    if i < j {
      RunOfDigits(t, i + 1, j, base);
    }
  }

  lemma {:induction false} ValueOfDigits(t: seq<byte>, i: nat, fs: seq<Figure>, base: nat)
    requires i + |fs| <= |t| && forall k :: 0 <= k < |fs| ==> DigitValue(t[i + k]) == fs[k].v
    ensures ValueOf(t, i, i + |fs|, base) == FiguresValue(fs, base)
    decreases |fs|
  {
    if fs != [] {
      var init := fs[..|fs| - 1];
      assert forall k :: 0 <= k < |init| ==> init[k] == fs[k];
      ValueOfDigits(t, i, init, base);
      assert t[i + |fs| - 1] == t[i + (|fs| - 1)];
    }
  }

  /** The parts of a number, byte by byte. */
  lemma {:induction false} DigitsBehind(s: Sign, fs: seq<Figure>, rest: seq<byte>, base: nat)
    requires FiguresOk(fs, base) && base <= 16
    ensures var t := SignText(s) + (DigitsText(fs) + rest);
            var i := |SignText(s)|;
            && |t| == i + |fs| + |rest| && (forall k :: i <= k < i + |fs| ==> DigitValue(t[k]) == fs[k - i].v < base)
            && (i == 1 ==> t[0] == SignText(s)[0]) && (rest != [] ==> t[i + |fs|] == rest[0])
  {
    var d := DigitsText(fs);
    DigitsAre(fs, base);
    hide DigitsText;
    var t := SignText(s) + (d + rest);
    forall k | |SignText(s)| <= k < |SignText(s)| + |fs| ensures t[k] == d[k - |SignText(s)|] {}
  }

  lemma {:induction false} StrToLLIs(t: seq<byte>, i: nat, e: nat, m: nat, base: nat)
    requires i < e <= |t| && DigitRun(t, i, base) == e && ValueOf(t, i, e, base) == m
    requires i == if IsSign(t[0]) then 1 else 0
    ensures var v: int := if i == 1 && t[0] == 45 then -(m as int) else m;
            StrToLL(t, base) == (if INT64_MIN <= v <= INT64_MAX then Some(v) else None, e)
  {
    hide ValueOf, DigitRun;
  }

  /** strtoll on a sign, digits, and something that is no digit of the base. */
  lemma {:induction false} Converted(s: Sign, fs: seq<Figure>, rest: seq<byte>, base: nat)
    requires FiguresOk(fs, base) && base <= 16 && (rest != [] ==> DigitValue(rest[0]) >= base)
    ensures var t := SignText(s) + (DigitsText(fs) + rest);
            var v: int := if s.Minus? then -(FiguresValue(fs, base) as int) else FiguresValue(fs, base);
            StrToLL(t, base) == (if INT64_MIN <= v <= INT64_MAX then Some(v) else None, |SignText(s)| + |fs|)
  {
    hide FiguresValue, ValueOf, DigitRun, DigitsText, StrToLL;
    var t := SignText(s) + (DigitsText(fs) + rest);
    var i := |SignText(s)|;
    DigitsBehind(s, fs, rest, base);
    RunOfDigits(t, i, i + |fs|, base);
    ValueOfDigits(t, i, fs, base);
    NoSign(t[i], base);
    StrToLLIs(t, i, i + |fs|, FiguresValue(fs, base), base);
  }

  lemma {:induction false} NoSign(c: int, base: nat)
    requires DigitValue(c) < base <= 16
    ensures !IsSign(c)
  {}

  // ---------- process_numstr

  lemma {:induction false} SameWhenLowered(t: seq<byte>)
    ensures PointsOk(Lowered(t)) <==> PointsOk(t)
    ensures LeadingOk(Lowered(t)) <==> LeadingOk(t)
  {
    var u := Lowered(t);
    assert forall i :: 0 <= i < |t| ==> (u[i] == POINT <==> t[i] == POINT) && (IsDigit(u[i]) <==> IsDigit(t[i]));
  }

  lemma {:induction false} NumTextIs(t: seq<byte>, base: nat)
    ensures NumText(t, base) ==
            if !UnderscoresOk(t, base) || !PointsOk(Canon(t)) || (base == 10 && !LeadingOk(Canon(t))) then Err(Lexical)
            else Ok(Canon(t))
  {
    hide UnderscoresOk, PointsOk, LeadingOk, Lowered, Squeezed;
    SameWhenLowered(Squeezed(t));
  }

  lemma {:induction false} SpanIs(w: seq<byte>, k: nat, m: nat, chars: set<int>)
    requires k <= m <= |w| && (forall j :: k <= j < m ==> w[j] in chars) && (m < |w| ==> w[m] !in chars)
    ensures Span(w, k, chars) == m
    decreases m - k
  {
    if k < m {
      SpanIs(w, k + 1, m, chars);
    }
  }

  function SetOf(base: nat): set<int> {
    if base == 16 then HEX_SET else if base == 8 then OCT_SET else if base == 2 then BIN_SET else NUMBER_SET
  }

  lemma {:induction false} FigureInSet(c: int, base: nat)
    requires base in {2, 8, 10, 16} && (IsFigure(c, base) || c == UNDERSCORE)
    ensures c in SetOf(base)
  {}

  lemma {:induction false} StopNotInSet(c: int, base: nat)
    requires IsStop(c)
    ensures c !in SetOf(base)
  {}

  lemma {:induction false} NumberInSet(c: int)
    requires IsSign(c) || c == POINT || c == 69 || c == 101
    ensures c in NUMBER_SET
  {}

  // ---------- integers with a prefix

  /** t starts w, and what follows it ends a value. */
  ghost predicate Heads(w: seq<byte>, t: seq<byte>) {
    |t| <= |w| && w[..|t|] == t && (|t| < |w| ==> IsStop(w[|t|]))
  }

  lemma {:induction false} HeadAt(w: seq<byte>, t: seq<byte>)
    requires Heads(w, t)
    ensures forall k :: 0 <= k < |t| ==> w[k] == t[k]
  {
    assert forall k :: 0 <= k < |t| ==> w[..|t|][k] == w[k];
  }

  lemma {:induction false} PrefixHeads(w: seq<byte>, base: nat, f: seq<byte>)
    requires base in {2, 8, 16} && Heads(w, PrefixText(base) + f)
    ensures 2 + |f| <= |w| && Radix(w) == Some((base, SetOf(base))) && w[2..2 + |f|] == f
    ensures 2 + |f| < |w| ==> IsStop(w[2 + |f|])
  {
    var t := PrefixText(base) + f;
    assert w[..|t|][..2] == PrefixText(base) && w[..|t|][2..] == f;
    assert w[0] == w[..|t|][..2][0] && w[1] == w[..|t|][..2][1];
  }

  lemma {:induction false} FiguresSpan(w: seq<byte>, i: nat, fs: seq<Figure>, base: nat)
    requires FiguresOk(fs, base) && base in {2, 8, 16}
    requires var f := FiguresText(fs);
             i + |f| <= |w| && w[i..i + |f|] == f && (i + |f| < |w| ==> IsStop(w[i + |f|]))
    ensures Span(w, i, SetOf(base)) == i + |FiguresText(fs)|
  {
    var f := FiguresText(fs);
    FiguresShape(fs, base);
    hide FiguresText, SetOf, IsFigure, FiguresOk;
    forall j | i <= j < i + |f| ensures w[j] in SetOf(base) {
      assert w[j] == w[i..i + |f|][j - i] == f[j - i];
      FigureInSet(w[j], base);
    }
    if i + |f| < |w| {
      StopNotInSet(w[i + |f|], base);
    }
    SpanIs(w, i, i + |f|, SetOf(base));
  }

  lemma {:induction false} FiguresNumText(fs: seq<Figure>, base: nat)
    requires FiguresOk(fs, base) && base in {2, 8, 16}
    ensures NumText(FiguresText(fs), base) == Ok(DigitsText(fs))
  {
    hide FiguresText, DigitsText, Canon, UnderscoresOk;
    FiguresShape(fs, base);
    CanonFigures(fs);
    NumTextIs(FiguresText(fs), base);
    NoPoints(fs, base);
  }

  lemma {:induction false} NoPoints(fs: seq<Figure>, base: nat)
    requires FiguresOk(fs, base) && base <= 16
    ensures PointsOk(DigitsText(fs))
  {
    DigitsAre(fs, base);
  }

  lemma {:induction false} PrefixedRead(s: Input, w: seq<byte>, n: Integer)
    requires IntegerOk(n) && n.base != 10 && Heads(w, IntegerText(n))
    ensures NumberOf(s, w) ==
            var v := IntegerMeaning(n); if v.Ok? then Ok((v.value, |IntegerText(n)|)) else Err(Lexical)
  {
    hide FiguresText, FiguresValue, DigitsText, Radix, Span, NumText, StrToLL, FloatOf;
    var f, d := FiguresText(n.figures), DigitsText(n.figures);
    assert IntegerText(n) == PrefixText(n.base) + f;
    PrefixHeads(w, n.base, f);
    FiguresSpan(w, 2, n.figures, n.base);
    FiguresNumText(n.figures, n.base);
    Converted(Unsigned, n.figures, [], n.base);
    assert [] + (d + []) == d;
    assert |IntegerText(n)| == 2 + |f|;
  }

  // ---------- decimal integers and floats

  /** A sign and decimal figures start a text of the characters of numbers. */
  lemma {:induction false} DecimalStarts(w: seq<byte>, s: Sign, fs: seq<Figure>, rest: seq<byte>)
    requires DecimalOk(fs) && Heads(w, SignText(s) + (FiguresText(fs) + rest))
    requires rest != [] ==> rest[0] == POINT || rest[0] == 69 || rest[0] == 101
    ensures Radix(w) == None
    ensures var i := |SignText(s)|;
            i < |w| && IsDigit(w[i]) && (IsSign(w[0]) <==> i == 1)
  {
    var f := FiguresText(fs);
    var t := SignText(s) + (f + rest);
    FiguresShape(fs, 10);
    HeadAt(w, t);
    var i := |SignText(s)|;
    assert t[i] == f[0];
    if i == 1 {
      assert t[0] == SignText(s)[0];
    }
    if i == 0 && w[0] == 48 && |w| > 1 {
      LetterIs(fs[0].v, fs[0].cap, 10);
      assert |fs| == 1;
      OneFigure(fs);
      if rest != [] {
        assert t[1] == rest[0];
      } else {
        assert |t| == 1;
      }
    }
  }

  lemma {:induction false} OneFigure(fs: seq<Figure>)
    requires |fs| == 1 && !fs[0].under
    ensures FiguresText(fs) == [HexLetter(fs[0].v, fs[0].cap)]
  {
    assert fs[..0] == [] && FiguresText([]) == [];
  }

  /** Only characters of numbers. */
  ghost predicate InNumbers(t: seq<byte>) { forall k :: 0 <= k < |t| ==> t[k] in NUMBER_SET }

  lemma {:induction false} InNumbersJoin(a: seq<byte>, b: seq<byte>)
    requires InNumbers(a) && InNumbers(b)
    ensures InNumbers(a + b)
  {}

  lemma {:induction false} FiguresInNumbers(fs: seq<Figure>)
    requires FiguresOk(fs, 10)
    ensures InNumbers(FiguresText(fs)) && UnderscoresOk(FiguresText(fs), 10)
  {
    FiguresShape(fs, 10);
    forall k | 0 <= k < |FiguresText(fs)| ensures FiguresText(fs)[k] in NUMBER_SET {
      FigureInSet(FiguresText(fs)[k], 10);
    }
  }

  lemma {:induction false} OneInNumbers(c: byte)
    requires IsSign(c) || c == POINT || c == 69 || c == 101
    ensures InNumbers([c]) && UnderscoresOk([c], 10)
  {
    NumberInSet(c);
  }

  lemma {:induction false} SignInNumbers(s: Sign)
    ensures InNumbers(SignText(s)) && UnderscoresOk(SignText(s), 10)
    ensures Canon(SignText(s)) == SignText(s)
  {
    CanonShort(SignText(s));
    if s != Unsigned {
      NumberInSet(SignText(s)[0]);
    }
  }

  lemma {:induction false} NumberSpan(w: seq<byte>, i: nat, t: seq<byte>)
    requires Heads(w, t) && InNumbers(t) && i <= |t|
    ensures Span(w, i, NUMBER_SET) == |t|
  {
    HeadAt(w, t);
    if |t| < |w| {
      StopNotInSet(w[|t|], 10);
    }
    SpanIs(w, i, |t|, NUMBER_SET);
  }

  /** An integer whose text has been squeezed to c and converted. */
  lemma {:induction false} DecimalIs(s: Input, w: seq<byte>, t: seq<byte>, c: seq<byte>, v: Option<int>)
    requires |t| <= |w| && w[..|t|] == t && Radix(w).None? && Span(w, 0, NUMBER_SET) == |t| && c != []
    requires var i := if w != [] && IsSign(w[0]) then 1 else 0; i < |w| ==> w[i] != 105 && w[i] != 110
    requires NumText(t, 10) == Ok(c) && StrToLL(c, 10) == (v, |c|)
    ensures NumberOf(s, w) == if v.Some? then Ok((Int64(v.value), |t|)) else Err(Lexical)
  {
    hide Radix, Span, NumText, StrToLL, FloatOf, IsSign;
  }

  /** What is left of a decimal integer, and what it is converted to. */
  lemma {:induction false} DecimalConverted(n: Integer)
    requires IntegerOk(n) && n.base == 10
    ensures var c := SignText(n.sign) + DigitsText(n.figures);
            var v := IntegerMeaning(n);
            && NumText(IntegerText(n), 10) == Ok(c) && c != []
            && StrToLL(c, 10) == (if v.Ok? then Some(v.value.i) else None, |c|)
            && (v.Ok? ==> v.value.Int64?) && (v.Err? ==> v.error == Lexical)
            && InNumbers(IntegerText(n)) && IntegerText(n) == SignText(n.sign) + FiguresText(n.figures)
  {
    hide FiguresText, FiguresValue, DigitsText, NumText, StrToLL, Canon, UnderscoresOk, InNumbers, PointsOk, LeadingOk,
         FiguresOk, SignText;
    var g, f, d := SignText(n.sign), FiguresText(n.figures), DigitsText(n.figures);
    var t := IntegerText(n);
    FiguresThere(n.figures);
    assert [] + f == f && t == g + f;
    SignInNumbers(n.sign);
    FiguresInNumbers(n.figures);
    InNumbersJoin(g, f);
    UnderscoresJoin(g, f, 10);
    CanonJoin(g, f);
    CanonFigures(n.figures);
    NumTextIs(t, 10);
    PlainPoints(n.sign, n.figures, [], None);
    NothingBehind();
    assert d + [] == d;
    Converted(n.sign, n.figures, [], 10);
  }

  lemma {:induction false} FiguresThere(fs: seq<Figure>)
    requires DecimalOk(fs)
    ensures fs != []
  {}

  lemma {:induction false} NothingBehind()
    ensures PlainFrac([]) + PlainExponent(None) == []
  {}

  lemma {:induction false} DecimalRead(s: Input, w: seq<byte>, n: Integer)
    requires IntegerOk(n) && n.base == 10 && Heads(w, IntegerText(n))
    ensures NumberOf(s, w) ==
            var v := IntegerMeaning(n); if v.Ok? then Ok((v.value, |IntegerText(n)|)) else Err(Lexical)
  {
    hide FiguresText, DigitsText, Radix, Span, NumText, StrToLL, Heads, InNumbers, IntegerMeaning, NumberOf, IntegerText, SignText,
         FiguresOk, IsSign;
    var f := FiguresText(n.figures);
    DecimalConverted(n);
    assert f + [] == f;
    DecimalStarts(w, n.sign, n.figures, []);
    NumberSpan(w, 0, IntegerText(n));
    WholeHead(w, IntegerText(n));
    var v := IntegerMeaning(n);
    DecimalIs(s, w, IntegerText(n), SignText(n.sign) + DigitsText(n.figures), if v.Ok? then Some(v.value.i) else None);
  }

  lemma {:induction false} WholeHead(w: seq<byte>, t: seq<byte>)
    requires Heads(w, t)
    ensures |t| <= |w| && w[..|t|] == t
  {}

  /** Points and leading zeros of what is converted. */
  lemma {:induction false} PlainPoints(s: Sign, whole: seq<Figure>, frac: seq<Figure>, exp: Option<Exponent>)
    requires DecimalOk(whole) && (frac != [] ==> FiguresOk(frac, 10)) && (exp.Some? ==> FiguresOk(exp.value.figures, 10))
    ensures var c := SignText(s) + (DigitsText(whole) + (PlainFrac(frac) + PlainExponent(exp)));
            PointsOk(c) && LeadingOk(c)
  {
    hide DigitsText, PlainFrac, PlainExponent, PointsOk, LeadingOk, SignText, DigitValue, IsSign, FiguresValue;
    var rest := PlainFrac(frac) + PlainExponent(exp);
    DigitsBehind(s, whole, rest, 10);
    RestPoints(frac, exp);
    var c := SignText(s) + (DigitsText(whole) + rest);
    RestBehind(s, DigitsText(whole), rest);
    WholePoints(c, |SignText(s)|, whole, rest);
    LeadingPlain(c, |SignText(s)|, whole, rest);
  }

  lemma {:induction false} RestBehind(s: Sign, d: seq<byte>, rest: seq<byte>)
    ensures var c := SignText(s) + (d + rest);
            var n := |SignText(s)| + |d|;
            && |c| == n + |rest| && (forall k :: n <= k < |c| ==> c[k] == rest[k - n])
            && (s != Unsigned ==> IsSign(c[0]))
  {}

  lemma {:induction false} WholePoints(c: seq<byte>, i: nat, whole: seq<Figure>, rest: seq<byte>)
    requires whole != [] && |c| == i + |whole| + |rest| && i <= 1 && (i == 1 ==> IsSign(c[0]))
    requires forall k :: i <= k < i + |whole| ==> DigitValue(c[k]) == whole[k - i].v < 10
    requires forall k :: i + |whole| <= k < |c| ==> c[k] == rest[k - i - |whole|]
    requires forall k :: 0 <= k < |rest| && rest[k] == POINT ==> k == 0 && |rest| > 1 && IsDigit(rest[1])
    ensures PointsOk(c)
  {
    var n := i + |whole|;
    assert forall k :: i <= k < n ==> IsDigit(c[k]);
    forall k | 0 <= k < |c| && c[k] == POINT ensures 0 < k && k + 1 < |c| && IsDigit(c[k - 1]) && IsDigit(c[k + 1]) {
      assert k >= n && rest[k - n] == POINT && k == n;
      assert c[n + 1] == rest[1];
    }
  }

  lemma {:induction false} DigitsChars(fs: seq<Figure>)
    ensures fs != [] && FiguresOk(fs, 10) ==> forall k :: 0 <= k < |fs| ==> IsDigit(DigitsText(fs)[k])
  {
    if fs != [] && FiguresOk(fs, 10) {
      DigitsAre(fs, 10);
    }
  }

  /** A point stands only before the fraction. */
  lemma {:induction false} RestPoints(frac: seq<Figure>, exp: Option<Exponent>)
    requires (frac != [] ==> FiguresOk(frac, 10)) && (exp.Some? ==> FiguresOk(exp.value.figures, 10))
    ensures var rest := PlainFrac(frac) + PlainExponent(exp);
            && (forall k :: 0 <= k < |rest| && rest[k] == POINT ==> k == 0 && |rest| > 1 && IsDigit(rest[1]))
            && (rest != [] ==> rest[0] == POINT || rest[0] == 101)
            && (rest != [] <==> frac != [] || exp.Some?)
  {
    DigitsChars(frac);
    if exp.Some? {
      DigitsChars(exp.value.figures);
    }
    hide DigitsText;
    var a, b := PlainFrac(frac), PlainExponent(exp);
    var rest := a + b;
    assert forall k :: |a| <= k < |rest| ==> rest[k] == b[k - |a|] != POINT;
    forall k | 0 <= k < |a| && rest[k] == POINT ensures k == 0 && |rest| > 1 && IsDigit(rest[1]) {
      assert a[k] == POINT && rest[1] == a[1];
    }
  }

  lemma {:induction false} LeadingPlain(c: seq<byte>, i: nat, whole: seq<Figure>, rest: seq<byte>)
    requires DecimalOk(whole) && |c| == i + |whole| + |rest| && i <= 1 && (i == 1 ==> IsSign(c[0]))
    requires forall k :: i <= k < i + |whole| ==> DigitValue(c[k]) == whole[k - i].v < 10
    requires rest != [] ==> c[i + |whole|] == rest[0] && !IsDigit(rest[0])
    ensures LeadingOk(c)
  {
    assert DigitValue(c[i]) == whole[0].v;
  }

  // ---------- floats

  lemma {:induction false} WordStarts(w: seq<byte>, x: Float)
    requires x.Word? && Heads(w, FloatText(x))
    ensures var i := |SignText(x.sign)|;
            && i + 3 == |FloatText(x)| <= |w| && (w[i] == 105 || w[i] == 110) && (IsSign(w[0]) <==> i == 1)
            && Radix(w) == None && w[i..i + 3] == WordText(x.inf)
  {
    var t, u := FloatText(x), WordText(x.inf);
    var i := |SignText(x.sign)|;
    HeadAt(w, t);
    assert forall k :: 0 <= k < 3 ==> t[i + k] == u[k];
    if i == 1 {
      assert t[0] == SignText(x.sign)[0];
    }
  }

  /** A sign, or a letter of a word. */
  predicate IsWordChar(c: int) { IsSign(c) || c == 97 || c == 102 || c == 105 || c == 110 }

  lemma {:induction false} WordChars(x: Float)
    requires x.Word?
    ensures FloatText(x) == PlainFloat(x) && forall k :: 0 <= k < |FloatText(x)| ==> IsWordChar(FloatText(x)[k])
  {}

  /** Such characters mean nothing to process_numstr. */
  lemma {:induction false} WordCharsPass(t: seq<byte>)
    requires forall k :: 0 <= k < |t| ==> IsWordChar(t[k])
    ensures UNDERSCORE !in t && UnderscoresOk(t, 10) && PointsOk(t) && LeadingOk(t)
  {}

  lemma {:induction false} WordCharsLower(t: seq<byte>)
    requires forall k :: 0 <= k < |t| ==> IsWordChar(t[k])
    ensures Lowered(t) == t
  {}

  lemma {:induction false} WordPlain(x: Float)
    requires x.Word?
    ensures NumText(FloatText(x), 10) == Ok(PlainFloat(x))
  {
    hide FloatText, PlainFloat, Canon, NumText, UnderscoresOk, PointsOk, LeadingOk, Lowered, IsWordChar;
    var t := FloatText(x);
    WordChars(x);
    WordCharsPass(t);
    WordCharsLower(t);
    CanonShort(t);
    NumTextIs(t, 10);
  }

  lemma {:induction false} WordRead(s: Input, w: seq<byte>, x: Float)
    requires x.Word? && Heads(w, FloatText(x))
    ensures NumberOf(s, w) ==
            var v := s.strtod(PlainFloat(x)); if v.Some? then Ok((Fp64(v.value), |FloatText(x)|)) else Err(Lexical)
  {
    hide NumText, Span, Radix, FloatText, PlainFloat, Heads;
    WordStarts(w, x);
    WordPlain(x);
    WholeHead(w, FloatText(x));
    WordLen(w, |SignText(x.sign)|, x.inf);
  }

  lemma {:induction false} WordLen(w: seq<byte>, i: nat, inf: bool)
    requires i + 3 <= |w| && w[i..i + 3] == WordText(inf) && (IsSign(w[0]) <==> i == 1) && i <= 1
    ensures FloatLen(w) == i + 3
  {
    hide Span;
  }

  lemma {:induction false} ExponentIs(e: Option<Exponent>)
    requires e.Some? ==> FiguresOk(e.value.figures, 10)
    ensures InNumbers(ExponentText(e)) && UnderscoresOk(ExponentText(e), 10) && Canon(ExponentText(e)) == PlainExponent(e)
  {
    hide Canon, InNumbers, UnderscoresOk, FiguresText, DigitsText;
    match e {
      case None => NothingIs();
      case Some(x) =>
        var c: byte := if x.cap then 69 else 101;
        var f := FiguresText(x.figures);
        OneInNumbers(c);
        SignInNumbers(x.sign);
        FiguresInNumbers(x.figures);
        InNumbersJoin(SignText(x.sign), f);
        InNumbersJoin([c], SignText(x.sign) + f);
        UnderscoresJoin(SignText(x.sign), f, 10);
        UnderscoresJoin([c], SignText(x.sign) + f, 10);
        CanonFigures(x.figures);
        CanonJoin(SignText(x.sign), f);
        CanonJoin([c], SignText(x.sign) + f);
        CanonLetter(c);
    }
  }

  lemma {:induction false} CanonLetter(c: byte)
    requires c == 69 || c == 101
    ensures Canon([c]) == [101]
  {
    CanonShort([c]);
  }

  lemma {:induction false} NothingIs()
    ensures InNumbers([]) && UnderscoresOk([], 10) && Canon([]) == []
  {}

  lemma {:induction false} FracIs(fs: seq<Figure>)
    requires fs != [] ==> FiguresOk(fs, 10)
    ensures InNumbers(FracText(fs)) && UnderscoresOk(FracText(fs), 10) && Canon(FracText(fs)) == PlainFrac(fs)
  {
    hide Canon, InNumbers, UnderscoresOk, FiguresText, DigitsText;
    NothingIs();
    if fs != [] {
      OneInNumbers(POINT);
      FiguresInNumbers(fs);
      InNumbersJoin([POINT], FiguresText(fs));
      UnderscoresJoin([POINT], FiguresText(fs), 10);
      CanonFigures(fs);
      CanonJoin([POINT], FiguresText(fs));
      CanonPoint();
    }
  }

  lemma {:induction false} CanonPoint()
    ensures Canon([POINT]) == [POINT]
  {
    CanonShort([POINT]);
  }

  lemma {:induction false} FloatIs(x: Float)
    requires x.Number? && FloatForm(x)
    ensures InNumbers(FloatText(x)) && UnderscoresOk(FloatText(x), 10) && Canon(FloatText(x)) == PlainFloat(x)
    ensures PointsOk(PlainFloat(x)) && LeadingOk(PlainFloat(x))
  {
    hide Canon, InNumbers, UnderscoresOk, FiguresText, DigitsText, FracText, PlainFrac, ExponentText, PlainExponent, PointsOk, LeadingOk;
    var g, f, e := SignText(x.sign), FiguresText(x.whole), FracText(x.frac) + ExponentText(x.exp);
    SignInNumbers(x.sign);
    FiguresInNumbers(x.whole);
    FracIs(x.frac);
    ExponentIs(x.exp);
    InNumbersJoin(FracText(x.frac), ExponentText(x.exp));
    InNumbersJoin(f, e);
    InNumbersJoin(g, f + e);
    UnderscoresJoin(FracText(x.frac), ExponentText(x.exp), 10);
    UnderscoresJoin(f, e, 10);
    UnderscoresJoin(g, f + e, 10);
    CanonJoin(FracText(x.frac), ExponentText(x.exp));
    CanonJoin(f, e);
    CanonJoin(g, f + e);
    CanonFigures(x.whole);
    PlainPoints(x.sign, x.whole, x.frac, x.exp);
  }

  lemma {:induction false} RestStarts(x: Float)
    requires x.Number? && FloatForm(x)
    ensures var rest := FracText(x.frac) + ExponentText(x.exp);
            rest != [] && (rest[0] == POINT || rest[0] == 69 || rest[0] == 101)
  {}

  lemma {:induction false} FloatRead(s: Input, w: seq<byte>, x: Float)
    requires x.Number? && FloatOk(x) && Heads(w, FloatText(x))
    ensures NumberOf(s, w) ==
            var v := s.strtod(PlainFloat(x)); if v.Some? then Ok((Fp64(v.value), |FloatText(x)|)) else Err(Lexical)
  {
    hide FiguresText, FiguresValue, DigitsText, Radix, Span, NumText, StrToLL, Canon, Heads, UnderscoresOk, InNumbers,
         PointsOk, LeadingOk, FracText, ExponentText, PlainFrac, PlainExponent, FloatForm, FloatLen;
    FloatParts(x);
    var t, c := FloatText(x), PlainFloat(x);
    RestStarts(x);
    DecimalStarts(w, x.sign, x.whole, FracText(x.frac) + ExponentText(x.exp));
    FloatIs(x);
    WholeHead(w, t);
    NumberSpan(w, 0, t);
    NumTextIs(t, 10);
    RestPoints(x.frac, x.exp);
    Converted(x.sign, x.whole, PlainFrac(x.frac) + PlainExponent(x.exp), 10);
    DigitsBehind(x.sign, x.whole, PlainFrac(x.frac) + PlainExponent(x.exp), 10);
    FloatLenIs(w, t, x.sign);
  }

  lemma {:induction false} FloatParts(x: Float)
    requires x.Number? && FloatForm(x)
    ensures DecimalOk(x.whole) && (x.frac != [] ==> FiguresOk(x.frac, 10)) && (x.exp.Some? ==> FiguresOk(x.exp.value.figures, 10))
    ensures x.frac != [] || x.exp.Some?
  {}

  lemma {:induction false} FloatLenIs(w: seq<byte>, t: seq<byte>, s: Sign)
    requires Heads(w, t) && InNumbers(t) && |SignText(s)| < |t|
    requires var i := |SignText(s)|; i < |w| && IsDigit(w[i]) && (IsSign(w[0]) <==> i == 1)
    ensures FloatLen(w) == |t|
  {
    hide Span;
    var i := |SignText(s)|;
    NumberSpan(w, i, t);
    if StartsWith(w, i, NAN) {
      SliceAt(w, i, NAN, 0);
    }
    if StartsWith(w, i, INF) {
      SliceAt(w, i, INF, 0);
    }
  }

  // ---------- in a text

  lemma {:induction false} WindowHeads(src: seq<byte>, p: nat, t: seq<byte>)
    requires Stands(src, p, t) && EndsHere(src, p + |t|) && |t| <= NUMBER_WINDOW
    ensures p <= |src| && Heads(Window(src, p, NUMBER_WINDOW), t)
  {
    var w := Window(src, p, NUMBER_WINDOW);
    assert |t| <= |w| && w[..|t|] == src[p..p + |t|];
    assert |t| < |w| ==> w[|t|] == src[p + |t|];
  }

  /** An integer is read as the number that it spells, if it fits 64 bits. */
  lemma {:induction false} IntegerScanned(s: Input, p: nat, n: Integer)
    requires IntegerOk(n) && Stands(s.src, p, IntegerText(n)) && EndsHere(s.src, p + |IntegerText(n)|)
    ensures p <= |s.src|
    ensures ScanNumber(s, p) ==
            var v := IntegerMeaning(n); if v.Ok? then Ok((v.value, |IntegerText(n)|)) else Err(Lexical)
  {
    hide NumberOf, Heads, Window, IntegerText, IntegerMeaning;
    IntegerShort(n);
    WindowHeads(s.src, p, IntegerText(n));
    if n.base == 10 {
      DecimalRead(s, Window(s.src, p, NUMBER_WINDOW), n);
    } else {
      PrefixedRead(s, Window(s.src, p, NUMBER_WINDOW), n);
    }
  }

  lemma {:induction false} IntegerShort(n: Integer)
    requires IntegerOk(n)
    ensures |IntegerText(n)| <= NUMBER_WINDOW
  {}

  lemma {:induction false} FloatShort(x: Float)
    requires FloatOk(x)
    ensures |FloatText(x)| <= NUMBER_WINDOW
  {}

  /** A float is what strtod makes of its text without underscores. */
  lemma {:induction false} FloatScanned(s: Input, p: nat, x: Float)
    requires FloatOk(x) && Stands(s.src, p, FloatText(x)) && EndsHere(s.src, p + |FloatText(x)|)
    ensures p <= |s.src|
    ensures ScanNumber(s, p) ==
            var v := s.strtod(PlainFloat(x)); if v.Some? then Ok((Fp64(v.value), |FloatText(x)|)) else Err(Lexical)
  {
    hide NumberOf, Heads, Window, FloatText, PlainFloat;
    FloatShort(x);
    WindowHeads(s.src, p, FloatText(x));
    if x.Word? {
      WordRead(s, Window(s.src, p, NUMBER_WINDOW), x);
    } else {
      FloatRead(s, Window(s.src, p, NUMBER_WINDOW), x);
    }
  }

  // ---------- no number looks like a date or a time

  /** No colon, and no dash behind a digit. */
  ghost predicate NoStamp(t: seq<byte>) {
    forall k :: 0 <= k < |t| ==> t[k] != 58 && (t[k] == 45 && k > 0 ==> !IsDigit(t[k - 1]))
  }

  lemma {:induction false} NoStampJoin(a: seq<byte>, b: seq<byte>)
    requires NoStamp(a) && NoStamp(b) && (b != [] && b[0] == 45 && a != [] ==> !IsDigit(a[|a| - 1]))
    ensures NoStamp(a + b)
  {
    var t := a + b;
    forall k | 0 <= k < |t| ensures t[k] != 58 && (t[k] == 45 && k > 0 ==> !IsDigit(t[k - 1])) {
      if k >= |a| {
        assert t[k] == b[k - |a|];
        assert k > |a| ==> t[k - 1] == b[k - |a| - 1];
      }
    }
  }

  lemma {:induction false} FiguresNoStamp(fs: seq<Figure>, base: nat)
    requires FiguresOk(fs, base) && (base == 16 || base <= 10)
    ensures NoStamp(FiguresText(fs)) && FiguresText(fs)[0] != 45
    ensures base <= 10 ==> IsDigit(FiguresText(fs)[0])
  {
    assert fs != [];
    hide FiguresText, IsFigure, UnderscoresOk, FiguresOk;
    FiguresShape(fs, base);
    var t := FiguresText(fs);
    forall k | 0 <= k < |t| ensures t[k] != 58 && t[k] != 45 {
      FigureIsPlain(t[k], base);
    }
    FigureIsPlain(t[0], base);
  }

  lemma {:induction false} FigureIsPlain(c: int, base: nat)
    requires (IsFigure(c, base) || c == UNDERSCORE) && (base == 16 || base <= 10)
    ensures c != 58 && c != 45 && (base <= 10 && IsFigure(c, base) ==> IsDigit(c))
  {}

  /** What a number starts with. */
  predicate StartsNumber(c: int) { IsDigit(c) || IsSign(c) || c == 105 || c == 110 }

  lemma {:induction false} IntegerShape(n: Integer)
    requires IntegerForm(n)
    ensures var t := IntegerText(n); t != [] && NoStamp(t) && (IsDigit(t[0]) || IsSign(t[0]))
  {
    hide FiguresText, NoStamp;
    FiguresNoStamp(n.figures, n.base);
    SignsNoStamp(n.sign, n.base);
    NoStampJoin(PrefixText(n.base), FiguresText(n.figures));
    NoStampJoin(SignText(n.sign), PrefixText(n.base) + FiguresText(n.figures));
  }

  lemma {:induction false} SignsNoStamp(s: Sign, base: nat)
    ensures NoStamp(SignText(s)) && (s != Unsigned ==> IsSign(SignText(s)[0])) && NoStamp(PrefixText(base))
    ensures PrefixText(base) != [] ==> PrefixText(base)[0] == 48
    ensures NoStamp([]) && NoStamp([POINT]) && NoStamp([69]) && NoStamp([101])
  {}

  lemma {:induction false} FloatShape(x: Float)
    requires FloatForm(x)
    ensures var t := FloatText(x);
            t != [] && NoStamp(t) && StartsNumber(t[0]) && (x.Word? && x.sign.Unsigned? ==> t == WordText(x.inf))
            && (!(x.Word? && x.sign.Unsigned?) ==> IsDigit(t[0]) || IsSign(t[0]))
  {
    SignsNoStamp(x.sign, 10);
    if x.Word? {
      assert NoStamp(WordText(x.inf));
      NoStampJoin(SignText(x.sign), WordText(x.inf));
    } else {
      hide FiguresText, NoStamp;
      FiguresNoStamp(x.whole, 10);
      FracShape(x.frac);
      ExponentShape(x.exp);
      NoStampJoin(FracText(x.frac), ExponentText(x.exp));
      NoStampJoin(FiguresText(x.whole), FracText(x.frac) + ExponentText(x.exp));
      NoStampJoin(SignText(x.sign), FiguresText(x.whole) + (FracText(x.frac) + ExponentText(x.exp)));
    }
  }

  lemma {:induction false} FracShape(fs: seq<Figure>)
    requires fs != [] ==> FiguresOk(fs, 10)
    ensures NoStamp(FracText(fs)) && (fs != [] ==> FracText(fs)[0] == POINT)
  {
    hide FiguresText, NoStamp;
    SignsNoStamp(Unsigned, 10);
    if fs != [] {
      FiguresNoStamp(fs, 10);
      NoStampJoin([POINT], FiguresText(fs));
    }
  }

  lemma {:induction false} ExponentShape(e: Option<Exponent>)
    requires e.Some? ==> FiguresOk(e.value.figures, 10)
    ensures NoStamp(ExponentText(e)) && (e.Some? ==> ExponentText(e)[0] == 69 || ExponentText(e)[0] == 101)
  {
    hide FiguresText, NoStamp;
    SignsNoStamp(Unsigned, 10);
    if e.Some? {
      var x := e.value;
      SignsNoStamp(x.sign, 10);
      FiguresNoStamp(x.figures, 10);
      NoStampJoin(SignText(x.sign), FiguresText(x.figures));
      NoStampJoin([if x.cap then 69 else 101], SignText(x.sign) + FiguresText(x.figures));
    }
  }

  lemma {:induction false} NumberIsNoStamp(src: seq<byte>, p: nat, t: seq<byte>)
    requires Stands(src, p, t) && EndsHere(src, p + |t|) && NoStamp(t)
    ensures !LooksLikeStamp(src, p)
  {
    forall k | 0 <= k < |t| ensures src[p + k] == t[k] {
      SliceAt(src, p, t, k);
    }
    var e := p + |t|;
    if |t| > 2 {
      assert src[p + 2] == t[2];
    } else {
      assert e == p || e == p + 1 || e == p + 2;
    }
    if |t| > 4 {
      assert src[p + 3] == t[3] && src[p + 4] == t[4];
    } else {
      assert e == p || e == p + 1 || e == p + 2 || e == p + 3 || e == p + 4;
    }
  }
}
