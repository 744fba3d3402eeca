/** Where the code departs from the standard, on text: how deep arrays may nest, and which inline
    tables can still be extended. */
module TextLimits {
  import opened Basics
  import opened Datum
  import opened Scanning
  import opened Trees
  import opened Documents
  import opened InlineTables
  import opened Parsing
  import opened Printing
  import opened Meanings
  import opened RoundTrips

  // ---------- arrays

  /** n arrays, one inside the other, written in any way. */
  predicate Nested(v: Val, n: nat)
    decreases n
  {
    v.VArr? && n >= 1 && if n == 1 then v.elems == [] else |v.elems| == 1 && Nested(v.elems[0].val, n - 1)
  }

  lemma {:induction false} EvalNested(v: Val, n: nat, b: int, c: int)
    requires Nested(v, n) && b <= MAX_DEPTH
    ensures if b + n <= MAX_DEPTH then Eval(v, b, c).Ok? else Eval(v, b, c) == Err(StackOverflow)
    decreases n
  {
    hide Inline;
    if n > 1 && b < MAX_DEPTH {
      var x := v.elems[0].val;
      EvalNested(x, n - 1, b + 1, c);
      var y := Eval(x, b + 1, c);
      if y.Ok? {
        assert EvalElems(v.elems, 1, [] + [y.value], b + 1, c).Ok?;
      }
    }
  }

  /** Whether a key/value is accepted depends on its key and on whether its value can be read. */
  lemma {:induction false} SameKeyAccepted(doc: Doc, e: Line, f: Line, h: nat)
    requires e.LKeyVal? && f.LKeyVal? && e.key == f.key && EvalLine(doc, e, h).Ok?
    ensures var x := Eval(f.val, -(h as int), 0);
            var r := EvalLine(doc, f, h);
            if x.Ok? then r.Ok? else r == Err(x.error)
  {
    hide Locate, Eval, Put, KeyMeaning;
  }

  lemma {:induction false} EvalOne(doc: Doc, e: Line, h: nat)
    ensures EvalLines(doc, [e], h) == EvalLine(doc, e, h)
  {
    hide EvalLine;
    assert [e][1..] == [];
    var x := EvalLine(doc, e, h);
    assert x.Ok? ==> EvalLines(x.value, [], h + HeadersIn(e)) == Ok(x.value);
  }

  lemma {:induction false} EvalLast(doc: Doc, es: seq<Line>, e: Line)
    ensures EvalLines(doc, es + [e], 0) ==
            var x := EvalLines(doc, es, 0);
            if x.Ok? then EvalLine(x.value, e, HeadersOf(es)) else x
  {
    hide EvalLine, EvalLines;
    EvalAppend(doc, es, [e], 0);
    var x := EvalLines(doc, es, 0);
    if x.Ok? {
      EvalOne(x.value, e, HeadersOf(es));
    }
  }

  /** The limit on the depth of arrays is not a constant: behind any lines that are accepted,
      with h headers among them, a key that can be given some value can be given arrays nested n
      deep exactly when n <= 30 + h. */
  lemma {:induction false} ArrayDepth(s0: Input, d0: Document, s: Input, d: Document, es: seq<Line>, e: Line, f: Line, n: nat)
    requires Written(s0, d0) && AllLines(d0) == es + [e] && TomlParse(s0).Ok?
    requires Written(s, d) && AllLines(d) == es + [f]
    requires e.LKeyVal? && f.LKeyVal? && e.key == f.key && Nested(f.val, n)
    ensures if n <= MAX_DEPTH + HeadersOf(es) then TomlParse(s).Ok? else TomlParse(s) == Err(StackOverflow)
  {
    hide TomlParse, Written, EvalLines, Eval, EvalLine, HeadersOf, Nested, AllLines;
    var h := HeadersOf(es);
    DocumentRoundTrip(s0, d0);
    DocumentRoundTrip(s, d);
    EvalLast(EMPTY_DOC, es, e);
    EvalLast(EMPTY_DOC, es, f);
    SameKeyAccepted(EvalLines(EMPTY_DOC, es, 0).value, e, f, h);
    EvalNested(f.val, n, -(h as int), 0);
  }

  /** A key of one part, in any spelling. */
  predicate Names(key: Key, k: Text) { key != [] && KeyMeaning(key, 0, []) == Ok([k]) }

  /** The line [t], and arrays nested 31 deep behind it or without it. */
  lemma {:induction false} ArrayDepthInstance(s: Input, d: Document, s0: Input, d0: Document, header: Line, line: Line)
    requires header.LHeader? && Names(header.key, [116]) && line.LKeyVal? && Names(line.key, [97]) && Nested(line.val, 31)
    requires Written(s, d) && AllLines(d) == [header, line] && Written(s0, d0) && AllLines(d0) == [line]
    ensures TomlParse(s).Ok? && TomlParse(s0) == Err(StackOverflow)
  {
    hide TomlParse, Written, EvalLines, Eval, Nested, AllLines, Names;
    DocumentRoundTrip(s, d);
    DocumentRoundTrip(s0, d0);
    EvalNested(line.val, 31, -1, 0);
    EvalNested(line.val, 31, 0, 0);
    HeaderLine(header, [116], line, [97]);
    FirstLine(line, [97], []);
    assert [line] + [] == [line];
  }

  lemma {:induction false} FirstKey(k: Text)
    ensures Locate(EMPTY_DOC, [k]) == Ok((EMPTY_TABLE, []))
    ensures forall v: Datum :: TabAdd(EMPTY_TABLE, [], k, v) == Ok(Sole(k, v))
  {
    assert [k][..0] == [];
    assert EMPTY_TABLE.entries == [] && forall v: Datum :: [] + [Entry(k, v)] == [Entry(k, v)];
  }

  /** A [header] on the first line and a key/value on the second. */
  lemma {:induction false} HeaderLine(header: Line, t: Text, e: Line, k: Text)
    requires header.LHeader? && Names(header.key, t) && e.LKeyVal? && Names(e.key, k)
    ensures EvalLines(EMPTY_DOC, [header, e], 0).Ok? <==> Eval(e.val, -1, 0).Ok?
  {
    hide Eval, Locate, TabAdd, OpenTable, EvalLines;
    HeaderOpens(t, k);
    EvalLast(EMPTY_DOC, [header], e);
    EvalOne(EMPTY_DOC, header, 0);
    assert [header] + [e] == [header, e] && [header][1..] == [];
    assert HeadersOf([header]) == 1;
  }

  lemma {:induction false} HeaderOpens(t: Text, k: Text)
    ensures OpenTable(EMPTY_DOC, [t]).Ok?
    ensures var at := Locate(OpenTable(EMPTY_DOC, [t]).value, [k]);
            at.Ok? && forall v: Datum :: TabAdd(at.value.0, at.value.1, k, v).Ok?
  {
    assert [t][..0] == [] && [k][..0] == [] && [] + [K(t)] == [K(t)];
    var tab := Table(Flags(false, true, true), []);
    FirstKey(t);
    assert [K(t)] + [] == [K(t)];
    PutBelow(t, tab, [], tab);
  }

  // ---------- inline tables

  /** An inline table is marked, and all that is in it. */
  lemma {:induction false} InlineMarks(t: Datum)
    requires t.Table?
    ensures var r := Inline(t);
            r.Table? && r.flag.inlined && forall e :: e in r.entries ==> e.val.flag.inlined
  {
    var es := InlineEntries(t.entries);
    forall i | 0 <= i < |es| ensures es[i].val.flag.inlined {
      assert es[i] == Entry(t.entries[i].key, Inline(t.entries[i].val));
    }
  }

  lemma {:induction false} EvaluatedTable(v: Val, b: int, c: int)
    requires v.VTab? && Eval(v, b, c).Ok?
    ensures var t := Eval(v, b, c).value;
            t.Table? && t.flag.inlined && forall e :: e in t.entries ==> e.val.flag.inlined
  {
    hide Inline;
    PairsMakeTable(v.pairs, 0, EMPTY_TABLE, b, c + 1);
    var t := EvalPairs(v.pairs, 0, EMPTY_TABLE, b, c + 1);
    if t.Ok? {
      InlineMarks(t.value);
    }
  }

  lemma {:induction false} PairsMakeTable(ps: seq<Binding>, n: nat, tab: Datum, b: int, c: int)
    requires n <= |ps| && tab.Table?
    ensures var r := EvalPairs(ps, n, tab, b, c); r.Ok? ==> r.value.Table?
    decreases |ps| - n
  {
    hide EnterInline, Eval, TabAdd, KeyMeaning;
    if n < |ps| && ps[n].key != [] && KeyMeaning(ps[n].key, 0, []).Ok? {
      var keys := KeyMeaning(ps[n].key, 0, []).value;
      var at := EnterInline(tab, keys);
      var v := Eval(ps[n].val, b, c);
      if at.Ok? && v.Ok? {
        EnteredTable(tab, keys, v.value);
        var next := TabAdd(at.value.0, at.value.1, keys[|keys| - 1], v.value);
        if next.Ok? {
          PairsMakeTable(ps, n + 1, next.value, b, c);
        }
      }
    }
  }

  lemma {:induction false} EnteredTable(tab: Datum, keys: seq<Text>, v: Datum)
    requires tab.Table? && keys != [] && EnterInline(tab, keys).Ok?
    ensures var (d, p) := EnterInline(tab, keys).value;
            d.Table? && var r := TabAdd(d, p, keys[|keys| - 1], v); r.Ok? ==> r.value.Table?
  {
    hide Walk;
    WalkKeepsTable(tab, [], keys[..|keys| - 1], InlineKey, 0);
    var (d, p) := EnterInline(tab, keys).value;
    var r := TabAdd(d, p, keys[|keys| - 1], v);
  }

  lemma {:induction false} WalkKeepsTable(d: Datum, p: Path, keys: seq<Text>, w: Walker, i: nat)
    requires d.Table?
    ensures Walk(d, p, keys, w, i).Ok? ==> Walk(d, p, keys, w, i).value.0.Table?
    decreases |keys|
  {
    hide WalkStep;
    if keys != [] && WalkStep(d, p, keys[0], w, i).Ok? {
      StepKeepsTable(d, p, keys[0], w, i);
      var (d', p') := WalkStep(d, p, keys[0], w, i).value;
      WalkKeepsTable(d', p', keys[1..], w, i + 1);
    }
  }

  lemma {:induction false} StepKeepsTable(d: Datum, p: Path, k: Text, w: Walker, i: nat)
    requires d.Table?
    ensures WalkStep(d, p, k, w, i).Ok? ==> WalkStep(d, p, k, w, i).value.0.Table?
  {}

  /** A first key/value, and what it does for the lines behind it. */
  lemma {:induction false} FirstLine(e: Line, k: Text, es: seq<Line>)
    requires e.LKeyVal? && Names(e.key, k)
    ensures EvalLines(EMPTY_DOC, [e] + es, 0) ==
            var x := Eval(e.val, 0, 0);
            if x.Ok? then EvalLines(Doc(Sole(k, x.value), []), es, 0) else Err(x.error)
  {
    hide Eval, Locate, TabAdd;
    FirstKey(k);
    var fs := [e] + es;
    assert fs[0] == e && fs[1..] == es;
    hide EvalLines;
    assert EvalLine(EMPTY_DOC, e, 0) ==
           var x := Eval(e.val, 0, 0);
           if x.Ok? then Ok(Doc(Sole(k, x.value), [])) else Err(x.error);
  }

  /** A key with an inline table, and a [[header]] that reaches one part further: accepted exactly
      when the inline table has room and does not have that part, and then it has it. */
  lemma {:induction false} InlineTableExtended(s: Input, d: Document, line: Line, a: Text, header: Line, b: Text, t: Datum)
    requires line.LKeyVal? && Names(line.key, a) && line.val.VTab? && Eval(line.val, 0, 0) == Ok(t)
    requires header.LElement? && KeyMeaning(header.key, 0, []) == Ok([a, b])
    requires Written(s, d) && AllLines(d) == [line, header]
    ensures var r := TomlParse(s);
            && t.Table? && t.flag.inlined
            && (r.Ok? <==> |t.entries| < MAX_ITEMS && forall e :: e in t.entries ==> e.key != b)
            && (r.Ok? ==> r.value.0 == Sole(a, Extended(t, b)))
  {
    hide TomlParse, Written, EvalLines, Eval, OpenElement, AllLines, Names, KeyMeaning;
    DocumentRoundTrip(s, d);
    EvaluatedTable(line.val, 0, 0);
    FirstLine(line, a, [header]);
    assert [line] + [header] == [line, header];
    EvalOne(Doc(Sole(a, t), []), header, 0);
    assert [a, b][..0] == [];
    ElementInInline(t, a, b);
    assert (Find(t.entries, b) < 0) <==> forall e :: e in t.entries ==> e.key != b;
  }
}
