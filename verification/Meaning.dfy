/** What reading a written document gives, refusals included. */
module Meanings {
  import opened Basics
  import opened Datum
  import opened Trees
  import opened Documents
  import opened StringTexts
  import opened NumberTexts
  import opened StampTexts
  import opened Printing
  import opened Parsing

  /** A scalar that has been written. */
  function ScalarMeaning(v: Val): Result<Scalar>
    requires !v.VArr? && !v.VTab?
  {
    match v
    case VStr(x) => var t :- StrMeaning(x); Ok(Str(t))
    case VBool(b) => Ok(Boolean(b))
    case VInt(n) => IntegerMeaning(n)
    case VFloat(_, d) => if d.Some? then Ok(Fp64(d.value)) else Err(Lexical)
    case VStamp(x) => StampMeaning(x)
  }

  /** A value read where b brackets and c braces are counted. What cannot be read is refused,
      in the order of the text. */
  function Eval(v: Val, b: int, c: int): Result<Datum>
    decreases v, 0, 0
  {
    match v
    case VArr(xs, _, _) =>
      if b + 1 > MAX_DEPTH then Err(StackOverflow)
      else
        var ys :- EvalElems(xs, 0, [], b + 1, c);
        Ok(Inline(Array(NO_FLAGS, ys)))
    case VTab(ps, _, _) =>
      if c + 1 > MAX_DEPTH then Err(StackOverflow)
      else
        var t :- EvalPairs(ps, 0, EMPTY_TABLE, b, c + 1);
        Ok(Inline(t))
    case _ =>
      var x :- ScalarMeaning(v);
      Ok(Leaf(NO_FLAGS, x))
  }

  function EvalElems(xs: seq<Elem>, n: nat, ys: seq<Datum>, b: int, c: int): Result<seq<Datum>>
    requires n <= |xs|
    decreases xs, 1, |xs| - n
  {
    if n == |xs| then Ok(ys)
    else
      assert xs[n].val < xs[n];
      var y :- Eval(xs[n].val, b, c);
      if |ys| >= MAX_ITEMS then Err(TooLarge) else EvalElems(xs, n + 1, ys + [y], b, c)
  }

  function EvalPairs(ps: seq<Binding>, n: nat, tab: Datum, b: int, c: int): Result<Datum>
    requires n <= |ps|
    decreases ps, 1, |ps| - n
  {
    if n == |ps| then Ok(tab)
    else if ps[n].key == [] then Err(Syntax)
    else
      var keys :- KeyMeaning(ps[n].key, 0, []);
      var (d, p) :- EnterInline(tab, keys);
      var v :- Eval(ps[n].val, b, c);
      var next :- TabAdd(d, p, keys[|keys| - 1], v);
      EvalPairs(ps, n + 1, next, b, c)
  }

  /** An expression, behind h headers. */
  function EvalLine(doc: Doc, e: Line, h: nat): Result<Doc> {
    if e.key == [] then Err(Syntax)
    else
      var keys :- KeyMeaning(e.key, 0, []);
      match e
      case LHeader(_, _) => OpenTable(doc, keys)
      case LElement(_, _) => OpenElement(doc, keys)
      case LKeyVal(_, _, v) =>
        var (d, p) :- Locate(doc, keys);
        var x :- Eval(v, -(h as int), 0);
        var r :- TabAdd(d, p, keys[|keys| - 1], x);
        Ok(Doc(r, doc.curtab))
  }

  function HeadersIn(e: Line): nat { if e.LHeader? then 1 else 0 }

  function EvalLines(doc: Doc, es: seq<Line>, h: nat): Result<Doc>
    decreases |es|
  {
    if es == [] then Ok(doc)
    else
      var next :- EvalLine(doc, es[0], h);
      EvalLines(next, es[1..], h + HeadersIn(es[0]))
  }

  function HeadersOf(es: seq<Line>): nat {
    if es == [] then 0 else HeadersIn(es[0]) + HeadersOf(es[1..])
  }

  lemma {:induction false} EvalAppend(doc: Doc, es: seq<Line>, fs: seq<Line>, h: nat)
    ensures EvalLines(doc, es + fs, h) ==
            var x := EvalLines(doc, es, h);
            if x.Ok? then EvalLines(x.value, fs, h + HeadersOf(es)) else x
    decreases |es|
  {
    hide EvalLine;
    if es == [] {
      assert es + fs == fs;
    } else {
      assert (es + fs)[0] == es[0] && (es + fs)[1..] == es[1..] + fs;
      var x := EvalLine(doc, es[0], h);
      if x.Ok? {
        EvalAppend(x.value, es[1..], fs, h + HeadersIn(es[0]));
      }
    }
  }

  /** The tree of a document. */
  function EvalDocument(d: Document): Result<Datum> {
    var doc :- EvalLines(EMPTY_DOC, AllLines(d), 0);
    Ok(doc.top)
  }
}
