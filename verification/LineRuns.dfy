/** Written lines as the expressions of a run: what a document does, step by step. */
module LineRuns {
  import opened Basics
  import opened Datum
  import opened Trees
  import opened Documents
  import opened DocumentRuns
  import opened Parsing
  import opened ParseLaws
  import opened ValueLaws
  import opened PlainValues
  import opened Printing
  import opened Meanings
  import opened TextLimits

  // ---------- values

  lemma {:induction false} ScalarIsGood(v: Val)
    requires !v.VArr? && !v.VTab? && ScalarMeaning(v).Ok?
    ensures var d := Leaf(NO_FLAGS, ScalarMeaning(v).value); WellFormed(d) && Plain(d)
  {}

  /** What a written value means is a tree in good order, without the marks of headers. */
  lemma {:induction false} EvalGood(v: Val, b: int, c: int)
    requires Eval(v, b, c).Ok?
    ensures WellFormed(Eval(v, b, c).value) && Plain(Eval(v, b, c).value)
    decreases v, 0, 0
  {
    hide WellFormed, Plain, Inline, ScalarMeaning;
    match v {
      case VArr(xs, _, _) =>
        NoElems();
        NothingPlain(Unknown);
        ElemsEvalGood(xs, 0, [], b + 1, c);
        var ys := EvalElems(xs, 0, [], b + 1, c).value;
        ClosedArrayGood(ys);
        ClosedPlain(ys);
      case VTab(ps, _, _) =>
        EmptyGood();
        NothingPlain(Unknown);
        PairsEvalGood(ps, 0, EMPTY_TABLE, b, c + 1);
        var t := EvalPairs(ps, 0, EMPTY_TABLE, b, c + 1).value;
        InlineGood(t);
        InlinePlain(t);
      case _ => ScalarIsGood(v);
    }
  }

  lemma {:induction false} ElemsEvalGood(xs: seq<Elem>, n: nat, ys: seq<Datum>, b: int, c: int)
    requires n <= |xs| && ElemsGood(ys) && AllPlain(ys) && EvalElems(xs, n, ys, b, c).Ok?
    ensures var r := EvalElems(xs, n, ys, b, c).value; ElemsGood(r) && AllPlain(r)
    decreases xs, 1, |xs| - n
  {
    hide WellFormed, Plain, ElemsGood, Eval;
    if n < |xs| {
      assert xs[n].val < xs[n];
      EvalGood(xs[n].val, b, c);
      var y := Eval(xs[n].val, b, c).value;
      MoreElems(ys, y);
      ElemsEvalGood(xs, n + 1, ys + [y], b, c);
    }
  }

  lemma {:induction false} PairsEvalGood(ps: seq<Binding>, n: nat, tab: Datum, b: int, c: int)
    requires n <= |ps| && WellFormed(tab) && tab.Table? && Plain(tab) && EvalPairs(ps, n, tab, b, c).Ok?
    ensures var r := EvalPairs(ps, n, tab, b, c).value; WellFormed(r) && Plain(r)
    decreases ps, 1, |ps| - n
  {
    hide WellFormed, Plain, Eval, EnterInline, TabAdd, KeyMeaning, Grows, SameLeaves, StrBytes;
    if n < |ps| {
      var keys := KeyMeaning(ps[n].key, 0, []).value;
      EvalGood(ps[n].val, b, c);
      EnterInlineGood(tab, keys);
      EnterInlinePlain(tab, keys);
      var (d, p) := EnterInline(tab, keys).value;
      var v := Eval(ps[n].val, b, c).value;
      TabAddGood(d, p, keys[|keys| - 1], v);
      TabAddPlain(d, p, keys[|keys| - 1], v);
      PairsEvalGood(ps, n + 1, TabAdd(d, p, keys[|keys| - 1], v).value, b, c);
    }
  }

  lemma {:induction false} EvalInlined(v: Val, b: int, c: int)
    requires Eval(v, b, c).Ok?
    ensures TablesInlined(Eval(v, b, c).value)
  {
    hide Inline, ScalarMeaning, TablesInlined;
    match v {
      case VArr(xs, _, _) => InlinedAll(Array(NO_FLAGS, EvalElems(xs, 0, [], b + 1, c).value));
      case VTab(ps, _, _) => InlinedAll(EvalPairs(ps, 0, EMPTY_TABLE, b, c + 1).value);
      case _ => LeafHasNoTable(Eval(v, b, c).value);
    }
  }

  // ---------- lines

  /** The expression that a line behind h headers stands for. */
  function ExprOf(e: Line, h: nat): (r: Result<Expr>)
    ensures r.Ok? && e.key != [] ==> r.value.keys != []
  {
    var keys :- KeyMeaning(e.key, 0, []);
    match e
    case LHeader(_, _) => Ok(Header(keys))
    case LElement(_, _) => Ok(ElementHeader(keys))
    case LKeyVal(_, _, v) =>
      var x :- Eval(v, -(h as int), 0);
      Ok(KeyVal(keys, x))
  }

  /** What a value that has been read looks like. */
  ghost predicate OfValues(e: Expr) { PlainExpr(e) && InlinedExpr(e) }

  /** A line is accepted exactly when its key and value can be read and its expression can be
      applied, and then it does what that does. */
  lemma {:induction false} LineIsApplied(doc: Doc, e: Line, h: nat)
    requires e.key != []
    ensures var x, r := ExprOf(e, h), EvalLine(doc, e, h);
            if x.Ok? then r == Apply(doc, x.value) && GoodExpr(x.value) && OfValues(x.value) else r.Err?
  {
    hide Locate, TabAdd, OpenTable, OpenElement, Eval, KeyMeaning, WellFormed, Plain, TablesInlined;
    if e.LKeyVal? && Eval(e.val, -(h as int), 0).Ok? {
      EvalGood(e.val, -(h as int), 0);
      EvalInlined(e.val, -(h as int), 0);
    }
  }

  ghost predicate HaveKeys(es: seq<Line>) { forall e :: e in es ==> e.key != [] }

  /** The run that accepted lines make. */
  ghost predicate LinesRun(es: seq<Line>, docs: seq<Doc>, xs: seq<Expr>) {
    && IsRun(docs, xs) && |xs| == |es| && (forall x :: x in xs ==> OfValues(x))
    && forall i :: 0 <= i < |es| ==> ExprOf(es[i], HeadersOf(es[..i])) == Ok(xs[i])
  }

  lemma {:induction false} LinesAreRun(es: seq<Line>) returns (docs: seq<Doc>, xs: seq<Expr>)
    requires HaveKeys(es) && EvalLines(EMPTY_DOC, es, 0).Ok?
    ensures LinesRun(es, docs, xs) && Ok(docs[|es|]) == EvalLines(EMPTY_DOC, es, 0)
    decreases |es|
  {
    hide EvalLine, Apply, ExprOf, GoodExpr, OfValues, HeadersOf;
    if es == [] {
      docs, xs := [EMPTY_DOC], [];
    } else {
      var n := |es| - 1;
      var init, e := es[..n], es[n];
      assert es == init + [e];
      hide EvalLines;
      EvalLast(EMPTY_DOC, init, e);
      docs, xs := LinesAreRun(init);
      LineIsApplied(docs[n], e, HeadersOf(init));
      var next := EvalLine(docs[n], e, HeadersOf(init)).value;
      docs, xs := RunMore(init, docs, xs, e, next);
    }
  }

  lemma {:induction false} RunMore(es: seq<Line>, docs: seq<Doc>, xs: seq<Expr>, e: Line, next: Doc)
    returns (docs': seq<Doc>, xs': seq<Expr>)
    requires LinesRun(es, docs, xs) && ExprOf(e, HeadersOf(es)).Ok?
    requires var x := ExprOf(e, HeadersOf(es)).value;
             GoodExpr(x) && OfValues(x) && Apply(docs[|es|], x) == Ok(next)
    ensures LinesRun(es + [e], docs', xs') && docs'[|es| + 1] == next
  {
    hide Apply, ExprOf, GoodExpr, OfValues, HeadersOf;
    docs', xs' := docs + [next], xs + [ExprOf(e, HeadersOf(es)).value];
    forall i | 0 <= i < |es| + 1 ensures ExprOf((es + [e])[i], HeadersOf((es + [e])[..i])) == Ok(xs'[i]) {
      if i < |es| {
        assert (es + [e])[..i] == es[..i];
      } else {
        assert (es + [e])[..i] == es;
      }
    }
  }
}
