/** How deep arrays may nest, and what becomes of an empty bare key. */
module Nesting {
  import opened Basics
  import opened Datum
  import opened Scanning
  import opened Documents
  import opened DocumentLaws
  import opened DocumentRuns
  import opened Unescaping
  import opened Parsing
  import opened ParseLaws
  import opened TomlLaws

  /** n closing brackets behind n opening ones, of which the first opens have been read. */
  ghost predicate Brackets(src: seq<byte>, i: nat, opens: nat, n: nat) {
    && opens <= n && i + (n - opens) + n <= |src|
    && (forall k :: i <= k < i + (n - opens) ==> src[k] == OPEN)
    && (forall k :: i + (n - opens) <= k < i + (n - opens) + n ==> src[k] == CLOSE)
  }

  lemma ScanBracket(s: Input, st: State)
    requires st.cur < |s.src| && (s.src[st.cur] == OPEN || s.src[st.cur] == CLOSE)
    ensures ScanTok(s, st, false) ==
            if s.src[st.cur] == CLOSE
            then Ok((Plain(RBrack, st.cur, 1), State(st.cur + 1, st.bracket - 1, st.brace, st.top)))
            else if st.bracket + 1 > LEVEL_MAX then Err(StackOverflow)
            else Ok((Plain(LBrack, st.cur, 1), State(st.cur + 1, st.bracket + 1, st.brace, st.top)))
  {
    hide ScanString, ScanLitString, ScanValue;
    assert TokenStart(s.src, st.cur) == Ok(st.cur);
  }

  /** n brackets deep, the first bracket read: accepted exactly when the counter stays within
      its limit, and then the counter is back where it was before that bracket. */
  lemma {:induction false} NestedArrays(s: Input, st: State, n: nat)
    requires n >= 1 && Brackets(s.src, st.cur, 1, n) && st.bracket <= LEVEL_MAX
    ensures var r := ArrayRest(s, st, [], false);
            if st.bracket + n - 1 <= LEVEL_MAX
            then r.Ok? && r.value.1 == State(st.cur + 2 * n - 1, st.bracket - 1, st.brace, st.top)
            else r == Err(StackOverflow)
    decreases n
  {
    hide ScanTok, Inline;
    ScanBracket(s, st);
    if n > 1 && st.bracket < LEVEL_MAX {
      var st1 := State(st.cur + 1, st.bracket + 1, st.brace, st.top);
      InnerBrackets(s.src, st.cur, n);
      NestedArrays(s, st1, n - 1);
      var r := ArrayRest(s, st1, [], false);
      assert ParseVal(s, st1, Plain(LBrack, st.cur, 1)) == r;
      if r.Ok? {
        var (v, st2) := r.value;
        ScanBracket(s, st2);
        CloseArray(s, st2, v);
      }
    }
  }

  lemma InnerBrackets(src: seq<byte>, i: nat, n: nat)
    requires n > 1 && Brackets(src, i, 1, n)
    ensures src[i] == OPEN && src[i + 2 * n - 2] == CLOSE && Brackets(src, i + 1, 1, n - 1)
  {}

  lemma CloseArray(s: Input, st: State, v: Datum)
    requires st.cur < |s.src| && s.src[st.cur] == CLOSE
    ensures var r := ArrayRest(s, st, [] + [v], true);
            r.Ok? && r.value.1 == State(st.cur + 1, st.bracket - 1, st.brace, st.top)
  {
    hide ScanTok, Inline;
    ScanBracket(s, st);
  }

  /** A value read at st. */
  function ReadValue(s: Input, st: State): Result<(Datum, State)>
    requires Inside(s, st)
  {
    var (t, st') :- ScanTok(s, st, false);
    ParseVal(s, st', t)
  }

  lemma ValueDepth(s: Input, st: State, n: nat)
    requires n >= 1 && Brackets(s.src, st.cur, 0, n) && st.bracket <= LEVEL_MAX
    ensures ReadValue(s, st).Ok? <==> st.bracket + n <= LEVEL_MAX
  {
    hide ScanTok, ArrayRest;
    ScanBracket(s, st);
    if st.bracket + 1 <= LEVEL_MAX {
      var st1 := State(st.cur + 1, st.bracket + 1, st.brace, st.top);
      assert Brackets(s.src, st1.cur, 1, n);
      NestedArrays(s, st1, n);
      assert ParseVal(s, st1, Plain(LBrack, st.cur, 1)) == ArrayRest(s, st1, [], false);
    }
  }

  // ---------- the counters between expressions

  /** The loop of toml_parse at its head. */
  datatype Head = Head(st: State, doc: Doc, headers: nat)

  /** One turn of the loop: a blank line, or an expression and the end of its line. */
  ghost predicate Turn(s: Input, a: Head, b: Head) {
    && Inside(s, a.st) && ScanTok(s, a.st, true).Ok?
    && var (t, st1) := ScanTok(s, a.st, true).value;
       if t.typ == Endl then b == Head(st1, a.doc, a.headers)
       else
         && t.typ != Fin && ParseExpr(s, st1, a.doc, t).Ok?
         && var (next, st2, e) := ParseExpr(s, st1, a.doc, t).value;
            && ScanTok(s, st2, true).Ok?
            && ScanTok(s, st2, true).value.0.typ in {Fin, Endl}
            && b == Head(ScanTok(s, st2, true).value.1, next, a.headers + if e.Header? then 1 else 0)
  }

  ghost predicate IsTrace(s: Input, hs: seq<Head>) {
    hs != [] && hs[0] == Head(START, EMPTY_DOC, 0) && forall i :: 0 <= i < |hs| - 1 ==> Turn(s, hs[i], hs[i + 1])
  }

  ghost predicate HeadGood(s: Input, h: Head) {
    Ready(s, h.st, 0) && DocValid(h.doc) && h.st.bracket + h.headers == 0 && h.st.brace == 0
  }

  lemma TurnGood(s: Input, a: Head, b: Head)
    requires HeadGood(s, a) && Turn(s, a, b)
    ensures HeadGood(s, b)
  {
    hide ScanTok, ParseExpr, Unescape, TokText, DocValid, Apply;
    ScanTokGood(s, a.st, true);
    var (t, st1) := ScanTok(s, a.st, true).value;
    if t.typ != Endl {
      ParseExprGood(s, a.st, a.doc, t, st1);
      ExprKeeps(s, a.st, a.doc, ParseExpr(s, st1, a.doc, t));
      ScanTokGood(s, ParseExpr(s, st1, a.doc, t).value.1, true);
    }
  }

  /** Between expressions no brace is open, and the bracket counter is the number of [headers]
      so far, negated: reading a key peeks at the bracket that closes the header, and the
      rewind does not take that count back. */
  lemma {:induction false} CountersBetweenExpressions(s: Input, hs: seq<Head>, n: nat)
    requires IsTrace(s, hs) && n < |hs|
    ensures HeadGood(s, hs[n])
  {
    hide Turn, HeadGood;
    if n == 0 {
      StartGood(s);
    } else {
      CountersBetweenExpressions(s, hs, n - 1);
      TurnGood(s, hs[n - 1], hs[n]);
    }
  }

  lemma StartGood(s: Input)
    ensures HeadGood(s, Head(START, EMPTY_DOC, 0))
  {
    EmptyDocValid();
  }

  /** The depth limit of arrays is therefore not fixed: in a key/value that follows h headers,
      arrays nested n deep are accepted exactly when n <= 30 + h. */
  lemma ArrayDepthLimit(s: Input, hs: seq<Head>, t: Token, st: State, keys: seq<Text>, st1: State,
                        eq: Token, st2: State, n: nat)
    requires hs != [] && IsTrace(s, hs) && Inside(s, Last(hs).st)
    requires ScanTok(s, Last(hs).st, true) == Ok((t, st)) && Inside(s, st)
    requires ParseKey(s, st, t) == Ok((keys, st1)) && Inside(s, st1)
    requires ScanTok(s, st1, true) == Ok((eq, st2)) && eq.typ == Equal
    requires n >= 1 && Brackets(s.src, st2.cur, 0, n)
    ensures ReadValue(s, st2).Ok? <==> n <= LEVEL_MAX + Last(hs).headers
  {
    hide ScanTok, ParseKey, ReadValue, Unescape, TokText, IsTrace, DocValid;
    CountersBetweenExpressions(s, hs, |hs| - 1);
    ScanTokGood(s, Last(hs).st, true);
    ParseKeyGood(s, Last(hs).st, t, st);
    AfterKeyAgain(s, st, keys, st1);
    ValueDepth(s, st2, n);
  }

  function Last(hs: seq<Head>): Head
    requires hs != []
  {
    hs[|hs| - 1]
  }

  // ---------- empty bare keys

  /** Where a bare key of no characters was scanned, scanning again finds it again, and never
      an equals sign, a dot or a closing bracket. */
  lemma EmptyKeyAgain(s: Input, i: nat, j: nat, t: Token)
    requires i <= |s.src| && ScanNext(s, i, true) == Ok((t, j)) && t.typ == Lit && t.len == 0
    ensures j <= |s.src| && j == t.start
    ensures ScanNext(s, j, true) == Ok((t, j))
    ensures ScanNext(s, j, false).Ok? ==> ScanNext(s, j, false).value.0.typ == Value
  {
    hide ScanString, ScanLitString, ScanValue;
    TokenStartIdempotent(s.src, i);
    hide TokenStart;
  }

  lemma {:induction false} TokenStartIdempotent(src: seq<byte>, i: nat)
    requires i <= |src| && TokenStart(src, i).Ok?
    ensures TokenStart(src, TokenStart(src, i).value) == TokenStart(src, i)
    decreases |src| - i
  {
    var c := GetChar(src, i);
    if c == SPACE || c == TAB {
      TokenStartIdempotent(src, i + 1);
    } else if c == 35 {
      TokenStartIdempotent(src, CommentEnd(src, i + 1).value);
    }
  }

  lemma ScannedNext(s: Input, before: State, t: Token, st: State)
    requires Inside(s, before) && ScanTok(s, before, true) == Ok((t, st)) && t.typ == Lit
    ensures ScanNext(s, before.cur, true) == Ok((t, st.cur)) && st == before.(cur := st.cur)
  {
    hide TokenStart, ScanAt;
    var r := ScanNext(s, before.cur, true);
    assert r.Ok? && r.value.0 == t;
    assert CountLevel(before.(cur := r.value.1), Lit) == Ok(before.(cur := r.value.1));
  }

  lemma NextScanned(s: Input, before: State, t: Token, keymode: bool)
    requires Inside(s, before) && ScanNext(s, before.cur, keymode) == Ok((t, before.cur)) && t.typ == Lit
    ensures ScanTok(s, before, keymode) == Ok((t, before))
  {
    hide TokenStart, ScanAt;
    assert before.(cur := before.cur) == before;
  }

  /** An empty bare key takes no input, so a loop that met it twice would not end: every
      expression and every inline table that starts a key with one is refused. */
  lemma EmptyKeyRefused(s: Input, before: State, t: Token, st: State, doc: Doc, tab: Datum)
    requires Ready(s, before, 0) && Scanned(s, before, true, t, st) && t.typ == Lit && t.len == 0
    ensures KeyValueExpr(s, st, doc, t) == Err(Syntax)
    ensures TableRest(s, before, tab, false).Err?
  {
    hide ScanNext, ScanTok, ParseKey, TableRest, KeyValueExpr, TokText;
    ScannedNext(s, before, t, st);
    EmptyKeyAgain(s, before.cur, st.cur, t);
    NormGood(s, before, true, t, st);
    var st1 := EmptyKeyParsed(s, before, t, st);
    EmptyKeyInExpr(s, st, doc, t, st1);
    ScanTokValue(s, st1);
    EmptyKeyInTable(s, before, t, st, tab, st1);
  }

  lemma EmptyKeyParsed(s: Input, before: State, t: Token, st: State) returns (st1: State)
    requires Level(s, st) && t.typ == Lit && t.len == 0 && st.top + 1 <= st.cur + 1
    requires ScanNext(s, st.cur, true) == Ok((t, st.cur))
    ensures st1 == st.(top := st.top + 1) && ParseKey(s, st, t) == Ok(([TokText(s, t)], st1))
    ensures ScanTok(s, st1, true) == Ok((t, st1))
  {
    hide ScanNext, ScanTok, TokText;
    st1 := st.(top := st.top + 1);
    assert Norm(s, st, t) == Ok((TokText(s, t), st1));
    NextScanned(s, st1, t, true);
    assert Restored(st1, st1) == st1;
    assert KeyRest(s, st1, [TokText(s, t)]) == Ok(([TokText(s, t)], st1));
  }

  lemma EmptyKeyInExpr(s: Input, st: State, doc: Doc, t: Token, st1: State)
    requires Inside(s, st) && Inside(s, st1) && ParseKey(s, st, t) == Ok(([TokText(s, t)], st1)) && t.typ == Lit
    requires ScanTok(s, st1, true) == Ok((t, st1))
    ensures KeyValueExpr(s, st, doc, t) == Err(Syntax)
  {
    hide ScanTok, ParseKey;
  }

  lemma ScanTokValue(s: Input, st: State)
    requires Inside(s, st)
    requires ScanNext(s, st.cur, false).Ok? ==> ScanNext(s, st.cur, false).value.0.typ == Value
    ensures ScanTok(s, st, false).Ok? ==> ScanTok(s, st, false).value.0.typ == Value
  {
    hide TokenStart, ScanAt;
  }

  lemma EmptyKeyInTable(s: Input, before: State, t: Token, st: State, tab: Datum, st1: State)
    requires Inside(s, before) && Inside(s, st) && ScanTok(s, before, true) == Ok((t, st)) && t.typ == Lit
    requires ParseKey(s, st, t) == Ok(([TokText(s, t)], st1)) && Inside(s, st1)
    requires ScanTok(s, st1, false).Ok? ==> ScanTok(s, st1, false).value.0.typ == Value
    ensures TableRest(s, before, tab, false).Err?
  {
    hide ScanTok, ParseKey, EnterInline;
  }
}
