/** Layout makes no difference: blanks, comments, blank lines, newlines of either kind, newlines in
    arrays and inline tables, and a comma behind the last element. */
module LayoutFree {
  import opened Basics
  import opened Datum
  import opened Scanning
  import opened Documents
  import opened Parsing
  import opened Layouts
  import opened Printing
  import opened Meanings
  import opened RoundTrips

  // ---------- a document without layout

  function TidyKey(ks: Key): (r: Key)
    ensures |r| == |ks|
  {
    seq(|ks|, i requires 0 <= i < |ks| => KeyPart([], ks[i].part, []))
  }

  function TidyVal(v: Val): Val
    decreases v, 0
  {
    match v
    case VArr(xs, _, _) => VArr(TidyElems(xs), false, NO_GAP)
    case VTab(ps, _, _) => VTab(TidyPairs(ps), false, NO_GAP)
    case _ => v
  }

  function TidyElems(xs: seq<Elem>): (r: seq<Elem>)
    ensures |r| == |xs|
    decreases xs, 1
  {
    seq(|xs|, i requires 0 <= i < |xs| => assert xs[i].val < xs[i]; Elem(NO_GAP, TidyVal(xs[i].val), NO_GAP))
  }

  function TidyPairs(ps: seq<Binding>): (r: seq<Binding>)
    ensures |r| == |ps|
    decreases ps, 1
  {
    seq(|ps|, i requires 0 <= i < |ps| => Binding([], TidyKey(ps[i].key), [], TidyVal(ps[i].val), NO_GAP))
  }

  function TidyLine(e: Line): Line {
    match e
    case LHeader(_, key) => LHeader([], TidyKey(key))
    case LElement(_, key) => LElement([], TidyKey(key))
    case LKeyVal(key, _, v) => LKeyVal(TidyKey(key), [], TidyVal(v))
  }

  function TidyLines(es: seq<Line>): (r: seq<Line>)
    ensures |r| == |es|
  {
    seq(|es|, i requires 0 <= i < |es| => TidyLine(es[i]))
  }

  function RowsOf(es: seq<Line>): (r: seq<Row>)
    ensures |r| == |es|
  {
    seq(|es|, i requires 0 <= i < |es| => Row(Some(es[i]), LineEnd(NO_TAIL, Lf)))
  }

  /** Only its expressions, each with a line feed behind it. */
  function Tidy(d: Document): Document { Document(RowsOf(TidyLines(AllLines(d))), None, NO_TAIL) }

  // ---------- it is written as well as the document

  lemma {:induction false} TidyKeyOk(ks: Key)
    requires KeyOk(ks)
    ensures KeyOk(TidyKey(ks))
  {
    hide PartOk;
    forall k | k in TidyKey(ks) ensures IsBlank(k.lead) && PartOk(k.part) && IsBlank(k.trail) {
      var i :| 0 <= i < |ks| && TidyKey(ks)[i] == k;
      assert ks[i] in ks;
    }
  }

  lemma {:induction false} TidyValOk(v: Val, strtod: seq<byte> -> Option<Double>)
    requires ValOk(v) && Converts(v, strtod)
    ensures ValOk(TidyVal(v)) && Converts(TidyVal(v), strtod)
    decreases v
  {
    hide KeyOk, TidyKey;
    match v {
      case VArr(xs, _, _) =>
        forall x | x in TidyElems(xs)
          ensures ValOk(x.val) && Converts(x.val, strtod) && GapOk(x.before) && GapOk(x.after)
        {
          var i :| 0 <= i < |xs| && TidyElems(xs)[i] == x;
          assert xs[i] in xs && xs[i].val < xs[i];
          TidyValOk(xs[i].val, strtod);
        }
      case VTab(ps, _, _) =>
        forall p | p in TidyPairs(ps)
          ensures ValOk(p.val) && Converts(p.val, strtod) && EndsOk(p.before) && KeyOk(p.key) && IsBlank(p.lead) && GapOk(p.after)
        {
          var i :| 0 <= i < |ps| && TidyPairs(ps)[i] == p;
          assert ps[i] in ps;
          TidyKeyOk(ps[i].key);
          TidyValOk(ps[i].val, strtod);
        }
      case _ =>
    }
  }

  lemma {:induction false} TidyLineOk(e: Line, strtod: seq<byte> -> Option<Double>)
    requires LineOk(e) && LineConverts(e, strtod)
    ensures LineOk(TidyLine(e)) && LineConverts(TidyLine(e), strtod)
  {
    hide KeyOk, ValOk, Converts, TidyKey, TidyVal;
    TidyKeyOk(e.key);
    if e.LKeyVal? {
      TidyValOk(e.val, strtod);
    }
  }

  // ---------- it means the same

  lemma {:induction false} TidyKeyMeans(ks: Key, n: nat, parts: seq<Text>)
    requires n <= |ks|
    ensures KeyMeaning(TidyKey(ks), n, parts) == KeyMeaning(ks, n, parts)
    decreases |ks| - n
  {
    hide PartMeaning;
    if n < |ks| && n < MAX_PARTS && PartMeaning(ks[n].part).Ok? {
      TidyKeyMeans(ks, n + 1, parts + [PartMeaning(ks[n].part).value]);
    }
  }

  lemma {:induction false} TidyMeans(v: Val, b: int, c: int)
    ensures Eval(TidyVal(v), b, c) == Eval(v, b, c)
    decreases v, 0, 0
  {
    hide Inline, ScalarMeaning;
    match v {
      case VArr(xs, _, _) => TidyElemsMean(xs, 0, [], b + 1, c);
      case VTab(ps, _, _) => TidyPairsMean(ps, 0, EMPTY_TABLE, b, c + 1);
      case _ =>
    }
  }

  lemma {:induction false} TidyElemsMean(xs: seq<Elem>, n: nat, ys: seq<Datum>, b: int, c: int)
    requires n <= |xs|
    ensures EvalElems(TidyElems(xs), n, ys, b, c) == EvalElems(xs, n, ys, b, c)
    decreases xs, 1, |xs| - n
  {
    if n < |xs| {
      assert xs[n].val < xs[n];
      TidyMeans(xs[n].val, b, c);
      hide Eval, TidyVal;
      if Eval(xs[n].val, b, c).Ok? {
        TidyElemsMean(xs, n + 1, ys + [Eval(xs[n].val, b, c).value], b, c);
      }
    }
  }

  lemma {:induction false} TidyPairsMean(ps: seq<Binding>, n: nat, tab: Datum, b: int, c: int)
    requires n <= |ps|
    ensures EvalPairs(TidyPairs(ps), n, tab, b, c) == EvalPairs(ps, n, tab, b, c)
    decreases ps, 1, |ps| - n
  {
    if n < |ps| && ps[n].key != [] {
      TidyMeans(ps[n].val, b, c);
      TidyKeyMeans(ps[n].key, 0, []);
      hide Eval, TidyVal, TidyKey, KeyMeaning, EnterInline, TabAdd;
      var keys := KeyMeaning(ps[n].key, 0, []);
      if keys.Ok? {
        var at := EnterInline(tab, keys.value);
        var v := Eval(ps[n].val, b, c);
        if at.Ok? && v.Ok? {
          var next := TabAdd(at.value.0, at.value.1, keys.value[|keys.value| - 1], v.value);
          if next.Ok? {
            TidyPairsMean(ps, n + 1, next.value, b, c);
          }
        }
      }
    }
  }

  lemma {:induction false} TidyLineMeans(doc: Doc, e: Line, h: nat)
    ensures EvalLine(doc, TidyLine(e), h) == EvalLine(doc, e, h) && HeadersIn(TidyLine(e)) == HeadersIn(e)
  {
    hide Eval, TidyVal, TidyKey, KeyMeaning, OpenTable, OpenElement, Locate, TabAdd;
    TidyKeyMeans(e.key, 0, []);
    if e.LKeyVal? {
      TidyMeans(e.val, -(h as int), 0);
    }
  }

  lemma {:induction false} TidyLinesMean(doc: Doc, es: seq<Line>, h: nat)
    ensures EvalLines(doc, TidyLines(es), h) == EvalLines(doc, es, h)
    decreases |es|
  {
    hide EvalLine, TidyLine;
    if es != [] {
      assert TidyLines(es)[1..] == TidyLines(es[1..]);
      TidyLineMeans(doc, es[0], h);
      var next := EvalLine(doc, es[0], h);
      if next.Ok? {
        TidyLinesMean(next.value, es[1..], h + HeadersIn(es[0]));
      }
    }
  }

  lemma {:induction false} RowsGiveLines(es: seq<Line>)
    ensures LinesOf(RowsOf(es)) == es
    decreases |es|
  {
    if es != [] {
      assert RowsOf(es)[1..] == RowsOf(es[1..]);
      RowsGiveLines(es[1..]);
    }
  }

  lemma {:induction false} LinesConvert(rows: seq<Row>, strtod: seq<byte> -> Option<Double>)
    requires forall r :: r in rows && r.line.Some? ==> LineConverts(r.line.value, strtod)
    ensures forall e :: e in LinesOf(rows) ==> LineConverts(e, strtod)
  {
    hide LineConverts;
    if rows != [] {
      InRest(rows);
      LinesConvert(rows[1..], strtod);
    }
  }

  lemma {:induction false} TidyIsOk(d: Document, strtod: seq<byte> -> Option<Double>)
    requires DocumentOk(d) && DocumentConverts(d, strtod)
    ensures DocumentOk(Tidy(d)) && DocumentConverts(Tidy(d), strtod)
  {
    hide LineOk, LineConverts, TidyLine, TailOk;
    LinesOk(d.rows);
    LinesConvert(d.rows, strtod);
    var es := AllLines(d);
    NoTailOk();
    forall r | r in Tidy(d).rows ensures r.line.Some? && LineOk(r.line.value) && LineConverts(r.line.value, strtod) && TailOk(r.end.tail) {
      var i :| 0 <= i < |es| && RowsOf(TidyLines(es))[i] == r;
      assert es[i] in es;
      TidyLineOk(es[i], strtod);
    }
  }

  lemma {:induction false} NoTailOk()
    ensures TailOk(NO_TAIL)
  {}

  lemma {:induction false} TidyDocumentMeans(d: Document)
    ensures AllLines(Tidy(d)) == TidyLines(AllLines(d)) && EvalDocument(Tidy(d)) == EvalDocument(d)
  {
    hide EvalLines;
    RowsGiveLines(TidyLines(AllLines(d)));
    TidyLinesMean(EMPTY_DOC, AllLines(d), 0);
  }

  /** With or without its layout, a document gives the same tree or the same refusal. */
  lemma {:induction false} SameWithoutLayout(s: Input, d: Document, t: Input)
    requires Written(s, d) && t.src == DocumentText(Tidy(d)) && t.strtod == s.strtod
    ensures var x, y := TomlParse(s), TomlParse(t);
            if x.Ok? then y.Ok? && y.value.0 == x.value.0 else y == x
  {
    hide TomlParse, DocumentOk, DocumentText, DocumentConverts, EvalDocument, Tidy;
    TidyIsOk(d, s.strtod);
    TidyDocumentMeans(d);
    DocumentRoundTrip(s, d);
    DocumentRoundTrip(t, Tidy(d));
  }
}
