/** toml_parse on every byte string: what a success guarantees, and what a failure can be. */
module TomlLaws {
  import opened Basics
  import opened Datum
  import opened Scanning
  import opened Unescaping
  import opened Trees
  import opened Documents
  import opened DocumentLaws
  import opened DocumentRuns
  import opened Parsing
  import opened ParseLaws
  import opened ValueLaws
  import opened PlainValues
  import opened TomlMerge

  /** One expression read: it has been applied to the document, its strings fit in the pool
      handed out for it, and each [header] has left the bracket counter one lower. */
  ghost predicate ExprGood(s: Input, st: State, doc: Doc, r: Result<(Doc, State, Expr)>) {
    match r
    case Err(e) => IsLegit(e)
    case Ok((next, st', e)) =>
      && GoodExpr(e) && Apply(doc, e) == Ok(next)
      && Ready(s, st', 0) && st'.brace == st.brace
      && st'.bracket == st.bracket - (if e.Header? then 1 else 0)
      && (if e.KeyVal? then StrBytes(e.val) else 0) + st.top <= st'.top
  }

  /** The token after a key, scanned again in the same mode. */
  lemma AfterKeyAgain(s: Input, st1: State, keys: seq<Text>, st2: State)
    requires Level(s, st1) && KeyGood(s, st1, Ok((keys, st2)))
    ensures var r := ScanTok(s, st2, true);
            if r.Err? then IsLegit(r.error)
            else
              var (t, st3) := r.value;
              && Level(s, st3) && st3.top == st2.top
              && (t.typ != Fin && t.typ != Lit ==> Ready(s, st3, 0))
              && st3.bracket == st1.bracket + 2 * BracketOf(t.typ)
              && st3.brace == st1.brace + 2 * BraceOf(t.typ)
  {
    hide ScanNext, Unescape, TokText;
    ScanTokGood(s, st2, true);
  }

  lemma OpenTableLegit(doc: Doc, keys: seq<Text>)
    requires DocValid(doc) && keys != []
    ensures OpenTable(doc, keys).Err? ==> IsLegit(OpenTable(doc, keys).error)
  {
    hide Walk, Put, Grows, SameLeaves, StrBytes, SetExplicit, AddEntry;
    assert IsTableAt(doc.top, []);
    WalkLegit(doc.top, [], keys[..|keys| - 1], TableHeader, 0);
    var r := Walk(doc.top, [], keys[..|keys| - 1], TableHeader, 0);
    if r.Ok? {
      StdexprOnTables(r.value.0, r.value.1, keys[|keys| - 1]);
    }
  }

  /** FLAG_STDEXPR sits on tables only. */
  lemma StdexprOnTables(d: Datum, p: Path, k: Text)
    requires WellFormed(d) && IsTableAt(d, p)
    ensures var es := At(d, p).value.entries;
            var j := Find(es, k);
            j >= 0 && es[j].val.flag.stdexpr ==> es[j].val.Table?
  {
    AtWellFormed(d, p);
    var es := At(d, p).value.entries;
    var j := Find(es, k);
    if j >= 0 {
      assert WellFormed(es[j].val);
    }
  }

  lemma OpenElementLegit(doc: Doc, keys: seq<Text>)
    requires DocValid(doc) && keys != []
    ensures OpenElement(doc, keys).Err? ==> IsLegit(OpenElement(doc, keys).error)
  {
    hide Walk, Put, Grows, SameLeaves, StrBytes, AddElem, WellFormed;
    assert IsTableAt(doc.top, []);
    WalkLegit(doc.top, [], keys[..|keys| - 1], ArrayHeader, 0);
    var r := Walk(doc.top, [], keys[..|keys| - 1], ArrayHeader, 0);
    if r.Ok? {
      var (d, p) := r.value;
      var k := keys[|keys| - 1];
      if Find(At(d, p).value.entries, k) >= 0 {
        StepInto(d, p, k);
      } else if TabAdd(d, p, k, Array(NO_FLAGS, [])).Ok? {
        hide TabAdd;
        AddEmpty(d, p, k, Array(NO_FLAGS, []));
      }
    }
  }

  lemma LocateLegit(doc: Doc, keys: seq<Text>)
    requires DocValid(doc) && keys != []
    ensures var r := Locate(doc, keys);
            if r.Ok? then Prepared(doc.top, r.value.0, r.value.1) else IsLegit(r.error)
  {
    hide Walk, Grows, SameLeaves, StrBytes, WellFormed;
    WalkLegit(doc.top, doc.curtab, keys[..|keys| - 1], KeyValue, 0);
  }

  lemma StdTableGood(s: Input, before: State, doc: Doc, t: Token, st: State)
    requires Ready(s, before, 0) && Scanned(s, before, true, t, st) && t.typ == LBrack && DocValid(doc)
    ensures ExprGood(s, before, doc, StdTable(s, st, doc))
  {
    hide ScanTok, ScanNext, ParseKey, OpenTable, Unescape, TokText, DocValid;
    ScanTokGood(s, st, true);
    if ScanTok(s, st, true).Ok? {
      var (t1, st1) := ScanTok(s, st, true).value;
      ParseKeyGood(s, st, t1, st1);
      if ParseKey(s, st1, t1).Ok? {
        var (keys, st2) := ParseKey(s, st1, t1).value;
        AfterKeyAgain(s, st1, keys, st2);
        OpenTableLegit(doc, keys);
      }
    }
  }

  lemma ElementTableGood(s: Input, before: State, doc: Doc, t: Token, st: State)
    requires Ready(s, before, 0) && Scanned(s, before, true, t, st) && t.typ == LLBrack && DocValid(doc)
    ensures ExprGood(s, before, doc, ElementTable(s, st, doc))
  {
    hide ScanTok, ScanNext, ParseKey, OpenElement, Unescape, TokText, DocValid;
    ScanTokGood(s, st, true);
    if ScanTok(s, st, true).Ok? {
      var (t1, st1) := ScanTok(s, st, true).value;
      ParseKeyGood(s, st, t1, st1);
      if ParseKey(s, st1, t1).Ok? {
        var (keys, st2) := ParseKey(s, st1, t1).value;
        AfterKeyAgain(s, st1, keys, st2);
        OpenElementLegit(doc, keys);
      }
    }
  }

  lemma KeyValueExprGood(s: Input, before: State, doc: Doc, t: Token, st: State)
    requires Ready(s, before, 0) && Scanned(s, before, true, t, st) && DocValid(doc)
    ensures ExprGood(s, before, doc, KeyValueExpr(s, st, doc, t))
  {
    hide ScanTok, ParseKey, ParseVal, Locate, TabAdd, Unescape, TokText, DocValid, WellFormed, StrBytes;
    ParseKeyGood(s, before, t, st);
    if ParseKey(s, st, t).Ok? {
      var (keys, st1) := ParseKey(s, st, t).value;
      AfterKeyAgain(s, st, keys, st1);
      if ScanTok(s, st1, true).Ok? && ScanTok(s, st1, true).value.0.typ == Equal {
        LocateLegit(doc, keys);
        if Locate(doc, keys).Ok? {
          AssignedGood(s, before, doc, t, st, keys, st1);
        }
      }
    }
  }

  lemma AssignedGood(s: Input, before: State, doc: Doc, t: Token, st: State, keys: seq<Text>, st1: State)
    requires Inside(s, st) && st.bracket == before.bracket && st.brace == before.brace && DocValid(doc)
    requires keys != [] && ParseKey(s, st, t) == Ok((keys, st1)) && before.top <= st1.top && Inside(s, st1)
    requires ScanTok(s, st1, true).Ok? && ScanTok(s, st1, true).value.0.typ == Equal
    requires var st2 := ScanTok(s, st1, true).value.1;
             Ready(s, st2, 0) && st2.bracket == st.bracket && st2.brace == st.brace && st2.top == st1.top
    requires Locate(doc, keys).Ok? && Prepared(doc.top, Locate(doc, keys).value.0, Locate(doc, keys).value.1)
    ensures ExprGood(s, before, doc, KeyValueExpr(s, st, doc, t))
  {
    hide ScanTok, ParseKey, ParseVal, Locate, TabAdd, Unescape, TokText, WellFormed, StrBytes, Grows,
         SameLeaves, Closed;
    var st2 := ScanTok(s, st1, true).value.1;
    ScanTokGood(s, st2, false);
    if ScanTok(s, st2, false).Ok? {
      var (vt, st3) := ScanTok(s, st2, false).value;
      ParseValGood(s, st2, vt, st3);
      if ParseVal(s, st3, vt).Ok? {
        var v := ParseVal(s, st3, vt).value.0;
        var (d, p) := Locate(doc, keys).value;
        RootGrows(doc.top, d);
        TabAddGood(d, p, keys[|keys| - 1], v);
      }
    }
  }

  lemma ParseExprGood(s: Input, before: State, doc: Doc, t: Token, st: State)
    requires Ready(s, before, 0) && Scanned(s, before, true, t, st) && DocValid(doc)
    ensures ExprGood(s, before, doc, ParseExpr(s, st, doc, t))
  {
    hide ScanTok, StdTable, ElementTable, KeyValueExpr, Unescape, TokText, DocValid, Apply;
    if t.typ == LBrack {
      StdTableGood(s, before, doc, t, st);
    } else if t.typ == LLBrack {
      ElementTableGood(s, before, doc, t, st);
    } else {
      KeyValueExprGood(s, before, doc, t, st);
    }
  }

  // ---------- the whole document

  /** es, applied in order, takes doc to last. */
  ghost predicate Leads(doc: Doc, es: seq<Expr>, last: Doc)
    decreases |es|
  {
    if es == [] then doc == last
    else GoodExpr(es[0]) && Apply(doc, es[0]).Ok? && Leads(Apply(doc, es[0]).value, es[1..], last)
  }

  /** How many [headers] there are. */
  function Headers(es: seq<Expr>): nat {
    if es == [] then 0 else (if es[0].Header? then 1 else 0) + Headers(es[1..])
  }

  ghost predicate DocGood(s: Input, st: State, doc: Doc, r: Result<(Doc, State, seq<Expr>)>) {
    match r
    case Err(e) => IsLegit(e)
    case Ok((last, st', es)) =>
      && Leads(doc, es, last) && DocValid(last) && Ready(s, st', 0)
      && st'.bracket == st.bracket - Headers(es) && st'.brace == st.brace
      && StrBytes(last.top) + st.top <= StrBytes(doc.top) + st'.top
  }

  lemma ExprKeeps(s: Input, st: State, doc: Doc, r: Result<(Doc, State, Expr)>)
    requires DocValid(doc) && ExprGood(s, st, doc, r) && r.Ok?
    ensures var (next, st', e) := r.value;
            DocValid(next) && StrBytes(next.top) + st.top <= StrBytes(doc.top) + st'.top
  {
    hide Apply, DocValid, ClosedKept, LeavesPlus, SameLeaves, StrBytes, Closed, Grows;
    ApplyValid(doc, r.value.2);
  }

  lemma {:induction false} ParseDocGood(s: Input, st: State, doc: Doc)
    requires Ready(s, st, 0) && DocValid(doc)
    ensures DocGood(s, st, doc, ParseDoc(s, st, doc))
    decreases |s.src| - st.cur, 1
  {
    hide ScanTok, ParseExpr, Unescape, TokText, DocValid, Apply, StrBytes, GoodExpr;
    ScanTokGood(s, st, true);
    if ScanTok(s, st, true).Ok? {
      var (t, st1) := ScanTok(s, st, true).value;
      if t.typ == Fin {
      } else if t.typ == Endl {
        ParseDocGood(s, st1, doc);
      } else {
        ParseExprGood(s, st, doc, t, st1);
        var r := ParseExpr(s, st1, doc, t);
        if r.Ok? {
          ExprKeeps(s, st, doc, r);
          RestGood(s, st, doc, t, st1);
        }
      }
    }
  }

  lemma {:induction false} RestGood(s: Input, st: State, doc: Doc, t: Token, st1: State)
    requires Ready(s, st, 0) && Inside(s, st1) && st.cur <= st1.cur
    requires ScanTok(s, st, true) == Ok((t, st1)) && t.typ != Fin && t.typ != Endl
    requires ParseExpr(s, st1, doc, t).Ok? && ExprGood(s, st, doc, ParseExpr(s, st1, doc, t))
    requires var (next, st2, e) := ParseExpr(s, st1, doc, t).value;
             DocValid(next) && StrBytes(next.top) + st.top <= StrBytes(doc.top) + st2.top
    ensures DocGood(s, st, doc, ParseDoc(s, st, doc))
    decreases |s.src| - st.cur, 0
  {
    hide ScanTok, ParseExpr, Unescape, TokText, DocValid, Apply, StrBytes, GoodExpr;
    var (next, st2, e) := ParseExpr(s, st1, doc, t).value;
    ScanTokGood(s, st2, true);
    if ScanTok(s, st2, true).Ok? {
      var (end, st3) := ScanTok(s, st2, true).value;
      if end.typ == Fin || end.typ == Endl {
        ParseDocGood(s, st3, next);
        var rest := ParseDoc(s, st3, next);
        if rest.Ok? {
          var es := rest.value.2;
          assert ([e] + es)[1..] == es;
        }
      }
    }
  }

  /** The documents on the way from doc through es. */
  ghost function Stages(doc: Doc, es: seq<Expr>, last: Doc): (docs: seq<Doc>)
    requires Leads(doc, es, last)
    ensures |docs| == |es| + 1 && docs[0] == doc && docs[|es|] == last
    ensures forall i :: 0 <= i < |es| ==> GoodExpr(es[i]) && Apply(docs[i], es[i]) == Ok(docs[i + 1])
    decreases |es|
  {
    hide Apply, GoodExpr;
    if es == [] then [doc]
    else
      var rest := Stages(Apply(doc, es[0]).value, es[1..], last);
      StagesNext(doc, es, rest);
      [doc] + rest
  }

  lemma StagesNext(doc: Doc, es: seq<Expr>, rest: seq<Doc>)
    requires es != [] && GoodExpr(es[0]) && |rest| == |es| && Apply(doc, es[0]) == Ok(rest[0])
    requires forall i :: 0 <= i < |es| - 1 ==> GoodExpr(es[1..][i]) && Apply(rest[i], es[1..][i]) == Ok(rest[i + 1])
    ensures var docs := [doc] + rest;
            forall i :: 0 <= i < |es| ==> GoodExpr(es[i]) && Apply(docs[i], es[i]) == Ok(docs[i + 1])
  {
    hide Apply;
    var docs := [doc] + rest;
    forall i | 0 <= i < |es| ensures GoodExpr(es[i]) && Apply(docs[i], es[i]) == Ok(docs[i + 1]) {
      if i > 0 {
        assert es[i] == es[1..][i - 1] && docs[i] == rest[i - 1];
      }
    }
  }

  /** A refused document is refused for its own sake: never because the pool of len + 10
      bytes has run out, and never in a branch that the code takes to be impossible. */
  lemma RefusedForItsOwnSake(s: Input)
    ensures TomlParse(s).Err? ==> IsLegit(TomlParse(s).error)
  {
    hide ParseDoc, Leads, DocValid;
    EmptyDocValid();
    ParseDocGood(s, START, EMPTY_DOC);
  }

  /** An accepted document gives a tree and pool that can be merged, and the tree is what a
      run of its expressions builds. */
  lemma AcceptedIsRun(s: Input) returns (docs: seq<Doc>, es: seq<Expr>)
    requires TomlParse(s).Ok?
    ensures var (t, top) := TomlParse(s).value;
            && IsRun(docs, es) && docs[|es|].top == t && (forall e :: e in es ==> PlainExpr(e))
            && Finished(t, top) && top <= |s.src| && ValueBytes(es, |es|) <= top
  {
    hide ParseDoc, Apply, WellFormed, Closed, StrBytes, ValueBytes, PlainExpr;
    EmptyDocValid();
    ParseDocGood(s, START, EMPTY_DOC);
    ExprsPlain(s, START, EMPTY_DOC);
    EmptyHasNoBytes();
    es := ParseDoc(s, START, EMPTY_DOC).value.2;
    docs := Stages(EMPTY_DOC, es, ParseDoc(s, START, EMPTY_DOC).value.0);
    RunBytes(docs, es, |es|);
  }

  /** toml_parse fails, or toml_merge of two of its results never wants for pool, whatever
      has been parsed. */
  lemma MergeOfParses(s1: Input, s2: Input)
    requires TomlParse(s1).Ok? && TomlParse(s2).Ok?
    ensures var (t1, top1) := TomlParse(s1).value;
            var (t2, top2) := TomlParse(s2).value;
            var r := MergeResults(t1, top1, t2, top2);
            if r.Ok? then Finished(r.value.0, r.value.1) else r.error == TooLarge
  {
    hide TomlParse, MergeResults, StrBytes, WellFormed;
    var docs1, es1 := AcceptedIsRun(s1);
    var docs2, es2 := AcceptedIsRun(s2);
    var (t1, top1) := TomlParse(s1).value;
    var (t2, top2) := TomlParse(s2).value;
    MergeOfFinished(t1, top1, t2, top2);
  }
}
