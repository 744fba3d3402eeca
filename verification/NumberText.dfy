/** Integers and floats written out: every base, sign, case and underscore. */
module NumberTexts {
  import opened Basics
  import opened Datum
  import opened StringTexts

  datatype Sign = Unsigned | Plus | Minus

  function SignText(s: Sign): (t: seq<byte>)
    ensures |t| == if s.Unsigned? then 0 else 1
  {
    match s
    case Unsigned => []
    case Plus => [43]
    case Minus => [45]
  }

  type Digit = v: nat | v < 16

  /** A digit, a capital letter or not, with or without an underscore before it. */
  datatype Figure = Figure(v: Digit, cap: bool, under: bool)

  function FigureText(f: Figure): (t: seq<byte>)
    ensures t != []
  {
    (if f.under then [UNDERSCORE] else []) + [HexLetter(f.v, f.cap)]
  }

  function FiguresText(fs: seq<Figure>): (t: seq<byte>)
    ensures |t| >= |fs|
  {
    if fs == [] then [] else FiguresText(fs[..|fs| - 1]) + FigureText(fs[|fs| - 1])
  }

  /** The number that the digits spell. */
  function FiguresValue(fs: seq<Figure>, base: nat): nat {
    if fs == [] then 0 else FiguresValue(fs[..|fs| - 1], base) * base + fs[|fs| - 1].v
  }

  predicate FiguresOk(fs: seq<Figure>, base: nat) {
    fs != [] && !fs[0].under && forall f :: f in fs ==> f.v < base
  }

  /** Decimal numbers have no leading zero. */
  predicate DecimalOk(fs: seq<Figure>) { FiguresOk(fs, 10) && (|fs| > 1 ==> fs[0].v != 0) }

  // ---------- integers

  const INT64_LOW := -9223372036854775808
  const INT64_HIGH := 9223372036854775807

  datatype Integer = Integer(sign: Sign, base: nat, figures: seq<Figure>)

  function PrefixText(base: nat): seq<byte> {
    match base
    case 16 => [48, 120]   // 0x
    case 8 => [48, 111]    // 0o
    case 2 => [48, 98]     // 0b
    case _ => []
  }

  function IntegerText(n: Integer): seq<byte> {
    SignText(n.sign) + (PrefixText(n.base) + FiguresText(n.figures))
  }

  /** How many bytes of a number are looked at. */
  const LONGEST := 49

  predicate IntegerForm(n: Integer) {
    if n.base == 10 then DecimalOk(n.figures) else n.base in {2, 8, 16} && n.sign.Unsigned? && FiguresOk(n.figures, n.base)
  }

  predicate IntegerOk(n: Integer) { IntegerForm(n) && |IntegerText(n)| <= LONGEST }

  function IntegerValue(n: Integer): int {
    var m := FiguresValue(n.figures, n.base);
    if n.sign.Minus? then -(m as int) else m
  }

  function IntegerMeaning(n: Integer): Result<Scalar> {
    if INT64_LOW <= IntegerValue(n) <= INT64_HIGH then Ok(Int64(IntegerValue(n))) else Err(Lexical)
  }

  // ---------- floats

  datatype Exponent = Exponent(cap: bool, sign: Sign, figures: seq<Figure>)

  /** Without digits behind it there is no decimal point. */
  datatype Float =
    | Word(sign: Sign, inf: bool)
    | Number(sign: Sign, whole: seq<Figure>, frac: seq<Figure>, exp: Option<Exponent>)

  function ExponentText(e: Option<Exponent>): seq<byte> {
    match e
    case None => []
    case Some(x) => [if x.cap then 69 else 101] + (SignText(x.sign) + FiguresText(x.figures))
  }

  function FracText(fs: seq<Figure>): seq<byte> { if fs == [] then [] else [46] + FiguresText(fs) }

  function WordText(inf: bool): seq<byte> { if inf then [105, 110, 102] else [110, 97, 110] }

  function FloatText(x: Float): seq<byte> {
    match x
    case Word(s, inf) => SignText(s) + WordText(inf)
    case Number(s, w, f, e) => SignText(s) + (FiguresText(w) + (FracText(f) + ExponentText(e)))
  }

  predicate FloatForm(x: Float) {
    x.Number? ==>
      && DecimalOk(x.whole) && (x.frac != [] ==> FiguresOk(x.frac, 10))
      && (x.exp.Some? ==> FiguresOk(x.exp.value.figures, 10)) && (x.frac != [] || x.exp.Some?)
  }

  predicate FloatOk(x: Float) { FloatForm(x) && |FloatText(x)| <= LONGEST }

  /** What is converted: no underscores, and letters in lower case. */
  function DigitsText(fs: seq<Figure>): (t: seq<byte>)
    ensures |t| == |fs|
  {
    seq(|fs|, i requires 0 <= i < |fs| => HexLetter(fs[i].v, false))
  }

  function PlainExponent(e: Option<Exponent>): seq<byte> {
    match e
    case None => []
    case Some(x) => [101] + (SignText(x.sign) + DigitsText(x.figures))
  }

  function PlainFrac(fs: seq<Figure>): seq<byte> { if fs == [] then [] else [46] + DigitsText(fs) }

  function PlainFloat(x: Float): seq<byte> {
    match x
    case Word(s, inf) => SignText(s) + WordText(inf)
    case Number(s, w, f, e) => SignText(s) + (DigitsText(w) + (PlainFrac(f) + PlainExponent(e)))
  }
}
