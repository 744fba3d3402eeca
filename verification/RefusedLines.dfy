/** Which line is refused behind accepted lines, on text. */
module RefusedLines {
  import opened Basics
  import opened Datum
  import opened Trees
  import opened Scanning
  import opened Documents
  import opened DocumentRuns
  import opened Parsing
  import opened PlainValues
  import opened DocumentLaws
  import opened Refusals
  import opened HeaderHistory
  import opened KeyValueHistory
  import opened Printing
  import opened Meanings
  import opened RoundTrips
  import opened TextLimits
  import opened LineRuns

  /** The text of s is that of before and a line more; docs and xs are the run of before. */
  ghost predicate LineMore(before: Input, b: Document, s: Input, d: Document, e: Line, docs: seq<Doc>, xs: seq<Expr>) {
    && Written(before, b) && Written(s, d) && AllLines(d) == AllLines(b) + [e]
    && LinesRun(AllLines(b), docs, xs) && TomlParse(before).Ok? && docs[|xs|].top == TomlParse(before).value.0
  }

  /** Accepted lines have such a run, and the line behind them decides. */
  lemma {:induction false} RunBehind(before: Input, b: Document, s: Input, d: Document, e: Line)
    returns (docs: seq<Doc>, xs: seq<Expr>)
    requires Written(before, b) && Written(s, d) && AllLines(d) == AllLines(b) + [e] && TomlParse(before).Ok?
    ensures LineMore(before, b, s, d, e, docs, xs)
    ensures e.key != [] && (TomlParse(s).Err? <==> EvalLine(docs[|xs|], e, HeadersOf(AllLines(b))).Err?)
  {
    hide TomlParse, Written, EvalLines, EvalLine, AllLines, LineOk, KeyOk, LinesRun, HeadersOf;
    assert e in AllLines(d);
    WrittenLines(s, d);
    WrittenLines(before, b);
    DocumentRoundTrip(before, b);
    DocumentRoundTrip(s, d);
    EvalLast(EMPTY_DOC, AllLines(b), e);
    docs, xs := LinesAreRun(AllLines(b));
    RunLength(AllLines(b), docs, xs);
  }

  lemma {:induction false} RunLength(es: seq<Line>, docs: seq<Doc>, xs: seq<Expr>)
    requires LinesRun(es, docs, xs)
    ensures |xs| == |es| && |docs| == |es| + 1 && IsRun(docs, xs) && forall x :: x in xs ==> PlainExpr(x) && InlinedExpr(x)
  {
    hide ExprOf, PlainExpr, InlinedExpr, IsRun;
    RunHasDocs(docs, xs);
  }

  lemma {:induction false} RunHasDocs(docs: seq<Doc>, xs: seq<Expr>)
    requires IsRun(docs, xs)
    ensures |docs| == |xs| + 1
  {}

  /** Behind any accepted lines, however they are written: the line [key] is refused exactly when
      its key cannot be read, or when, in the run of those lines, its place is taken, its key runs
      into a value, a table is full, or it would add to an inline table. */
  lemma {:induction false} HeaderLineRefused(before: Input, b: Document, s: Input, d: Document, header: Line)
    returns (docs: seq<Doc>, xs: seq<Expr>)
    requires Written(before, b) && TomlParse(before).Ok?
    requires header.LHeader? && Written(s, d) && AllLines(d) == AllLines(b) + [header]
    ensures LineMore(before, b, s, d, header, docs, xs) && header.key != []
    ensures var keys := KeyMeaning(header.key, 0, []);
            TomlParse(s).Err? <==> keys.Err? || HeaderBarred(docs, xs, |xs|, keys.value)
  {
    hide TomlParse, Written, OpenTable, HeaderBarred, KeyMeaning, AllLines, IsRun, PlainExpr, InlinedExpr, HeadersOf;
    docs, xs := RunBehind(before, b, s, d, header);
    RunLength(AllLines(b), docs, xs);
    var keys := KeyMeaning(header.key, 0, []);
    HeaderLineIs(docs[|xs|], header, HeadersOf(AllLines(b)));
    if keys.Ok? {
      HeaderRefusedExactly(docs, xs, |xs|, keys.value);
    }
  }

  lemma {:induction false} HeaderLineIs(doc: Doc, e: Line, h: nat)
    requires e.LHeader? && e.key != []
    ensures var keys := KeyMeaning(e.key, 0, []);
            EvalLine(doc, e, h).Err? <==> keys.Err? || OpenTable(doc, keys.value).Err?
  {
    hide OpenTable, KeyMeaning;
  }

  /** And the line [[key]]: when its key cannot be read, runs into a value that is no array or an
      array that is a value, wants a new part in a full table, or leads to something that takes no
      more elements. */
  lemma {:induction false} ElementLineRefused(before: Input, b: Document, s: Input, d: Document, header: Line)
    returns (docs: seq<Doc>, xs: seq<Expr>)
    requires Written(before, b) && TomlParse(before).Ok?
    requires header.LElement? && Written(s, d) && AllLines(d) == AllLines(b) + [header]
    ensures LineMore(before, b, s, d, header, docs, xs) && header.key != []
    ensures var keys := KeyMeaning(header.key, 0, []);
            TomlParse(s).Err? <==> keys.Err? || ElementBarred(docs[|xs|].top, keys.value)
  {
    hide TomlParse, Written, OpenElement, ElementBarred, KeyMeaning, AllLines, IsRun, PlainExpr, InlinedExpr, HeadersOf, DocValid;
    docs, xs := RunBehind(before, b, s, d, header);
    RunLength(AllLines(b), docs, xs);
    var keys := KeyMeaning(header.key, 0, []);
    ElementLineIs(docs[|xs|], header, HeadersOf(AllLines(b)));
    if keys.Ok? {
      RunValid(docs, xs, |xs|);
      ElementRefused(docs[|xs|], keys.value);
    }
  }

  lemma {:induction false} ElementLineIs(doc: Doc, e: Line, h: nat)
    requires e.LElement? && e.key != []
    ensures var keys := KeyMeaning(e.key, 0, []);
            EvalLine(doc, e, h).Err? <==> keys.Err? || OpenElement(doc, keys.value).Err?
  {
    hide OpenElement, KeyMeaning;
  }

  /** And the line key = value: when its key or its value cannot be read, or when, in the run of
      those lines, something is in the way of its key. */
  lemma {:induction false} KeyValueLineRefused(before: Input, b: Document, s: Input, d: Document, line: Line)
    returns (docs: seq<Doc>, xs: seq<Expr>)
    requires Written(before, b) && TomlParse(before).Ok?
    requires line.LKeyVal? && Written(s, d) && AllLines(d) == AllLines(b) + [line]
    ensures LineMore(before, b, s, d, line, docs, xs) && line.key != [] && |xs| < |docs|
    ensures var keys := KeyMeaning(line.key, 0, []);
            TomlParse(s).Err? <==>
            || keys.Err? || KeyValueBarred(docs, |xs|, keys.value)
            || Eval(line.val, -(HeadersOf(AllLines(b)) as int), 0).Err?
  {
    hide TomlParse, Written, Apply, KeyValueBarred, KeyMeaning, AllLines, IsRun, PlainExpr, InlinedExpr, HeadersOf, Eval, GoodExpr;
    docs, xs := RunBehind(before, b, s, d, line);
    RunLength(AllLines(b), docs, xs);
    var keys := KeyMeaning(line.key, 0, []);
    var h := HeadersOf(AllLines(b));
    LineIsApplied(docs[|xs|], line, h);
    KeyValueIs(line, h);
    if ExprOf(line, h).Ok? {
      KeyValueRefusedExactly(docs, xs, |xs|, keys.value, Eval(line.val, -(h as int), 0).value);
    }
  }

  lemma {:induction false} KeyValueIs(e: Line, h: nat)
    requires e.LKeyVal? && e.key != []
    ensures var keys, v := KeyMeaning(e.key, 0, []), Eval(e.val, -(h as int), 0);
            if keys.Ok? && v.Ok? then ExprOf(e, h) == Ok(KeyVal(keys.value, v.value)) else ExprOf(e, h).Err?
  {
    hide Eval, KeyMeaning;
  }
}
