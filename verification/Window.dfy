/** What the 49-byte window of numbers does: nothing to a number that fits, and a refusal of
    every document with one that does not. */
module NumberWindows {
  import opened Basics
  import opened Datum
  import opened Numbers
  import opened Scanning
  import opened Documents
  import opened Parsing
  import opened Turns
  import opened ParseLaws
  import opened Layouts
  import opened NumberTexts
  import opened ReadingStrings
  import opened ReadingNumbers
  import opened Printing
  import opened Meanings
  import opened ReadingBack
  import opened RoundTrips
  import opened TextLimits

  /** The length of the run of number characters that starts the text f, with its sign or
      prefix, or of nan and inf. */
  function NumberRun(f: seq<byte>): (n: nat)
    ensures n <= |f|
  {
    var i := if f != [] && IsSign(f[0]) then 1 else 0;
    if Radix(f).Some? then Span(f, 2, Radix(f).value.1)
    else if i < |f| && (f[i] == 105 || f[i] == 110) then FloatLen(f)
    else Span(f, 0, NUMBER_SET)
  }

  /** A sign belongs to the characters of numbers. */
  lemma {:induction false} SignInRun(f: seq<byte>)
    ensures var i := if f != [] && IsSign(f[0]) then 1 else 0;
            Span(f, i, NUMBER_SET) == Span(f, 0, NUMBER_SET)
  {}

  /** A number that is read takes its whole run. */
  lemma {:induction false} NumberTakesRun(s: Input, f: seq<byte>)
    ensures NumberOf(s, f).Ok? ==> NumberOf(s, f).value.1 == NumberRun(f)
  {
    hide Span, NumText, StrToLL, Radix;
    SignInRun(f);
    if NumberOf(s, f).Ok? && NumberOf(s, f) == FloatOf(s, f) && Radix(f).None? {
      NotAWord(f);
    }
  }

  /** Without an i or an n no word stands where the number starts. */
  lemma {:induction false} NotAWord(f: seq<byte>)
    ensures var i := if f != [] && IsSign(f[0]) then 1 else 0;
            !(i < |f| && (f[i] == 105 || f[i] == 110)) ==> FloatLen(f) == Span(f, i, NUMBER_SET)
  {
    var i := if f != [] && IsSign(f[0]) then 1 else 0;
    if StartsWith(f, i, NAN) {
      SliceAt(f, i, NAN, 0);
    }
    if StartsWith(f, i, INF) {
      SliceAt(f, i, INF, 0);
    }
  }

  // ---------- the window against the whole text

  lemma {:induction false} SpanPrefix(f: seq<byte>, n: nat, i: nat, chars: set<int>)
    requires i <= n <= |f|
    ensures Span(f[..n], i, chars) == if Span(f, i, chars) <= n then Span(f, i, chars) else n
    decreases n - i
  {
    if i < n && f[i] in chars {
      SpanPrefix(f, n, i + 1, chars);
    }
  }

  lemma {:induction false} PrefixWord(f: seq<byte>, n: nat, i: nat, u: seq<byte>)
    requires i + |u| <= n <= |f|
    ensures StartsWith(f[..n], i, u) <==> StartsWith(f, i, u)
  {
    assert f[..n][i..i + |u|] == f[i..i + |u|];
  }

  /** A number whose run fits is read as if there were no window. */
  lemma {:induction false} FittingNumber(s: Input, f: seq<byte>, n: nat)
    requires 4 <= n <= |f| && NumberRun(f) <= n
    ensures NumberOf(s, f[..n]) == NumberOf(s, f)
  {
    if Radix(f).Some? {
      FittingRadix(s, f, n);
    } else {
      FittingDecimal(s, f, n);
    }
  }

  lemma {:induction false} FittingRadix(s: Input, f: seq<byte>, n: nat)
    requires 4 <= n <= |f| && NumberRun(f) <= n && Radix(f).Some?
    ensures NumberOf(s, f[..n]) == NumberOf(s, f)
  {
    hide Span, NumText, StrToLL, FloatOf;
    var len := NumberRun(f);
    SpanPrefix(f, n, 2, Radix(f).value.1);
    assert f[..n][2..len] == f[2..len];
  }

  lemma {:induction false} FittingDecimal(s: Input, f: seq<byte>, n: nat)
    requires 4 <= n <= |f| && NumberRun(f) <= n && Radix(f).None?
    ensures NumberOf(s, f[..n]) == NumberOf(s, f)
  {
    hide Span, NumText, StrToLL, FloatOf, FloatLen;
    FittingFloat(s, f, n);
    var w := f[..n];
    assert Radix(w).None? && w[0] == f[0] && w[1] == f[1];
    var i := if IsSign(f[0]) then 1 else 0;
    if f[i] != 105 && f[i] != 110 {
      assert NumberRun(f) == Span(f, 0, NUMBER_SET);
      Shorter(f, n, Span(f, 0, NUMBER_SET));
    }
    hide NumberRun, Radix;
  }

  lemma {:induction false} FittingFloat(s: Input, f: seq<byte>, n: nat)
    requires 4 <= n <= |f| && NumberRun(f) <= n && Radix(f).None?
    ensures FloatOf(s, f[..n]) == FloatOf(s, f)
    ensures Span(f, 0, NUMBER_SET) <= n ==> Span(f[..n], 0, NUMBER_SET) == Span(f, 0, NUMBER_SET)
  {
    hide Span, NumText, Radix;
    var i := if f != [] && IsSign(f[0]) then 1 else 0;
    SpanPrefix(f, n, i, NUMBER_SET);
    SpanPrefix(f, n, 0, NUMBER_SET);
    SignInRun(f);
    PrefixWord(f, n, i, NAN);
    PrefixWord(f, n, i, INF);
    NotAWord(f);
    hide StartsWith, NumberRun;
    assert FloatLen(f) <= n && FloatLen(f[..n]) == FloatLen(f);
    Shorter(f, n, FloatLen(f));
  }

  /** A number that fits the window is read from its whole run. */
  lemma {:induction false} WholeRun(s: Input, p: nat)
    requires p <= |s.src| && NumberRun(s.src[p..]) <= NUMBER_WINDOW
    ensures ScanNumber(s, p) == NumberOf(s, s.src[p..])
  {
    hide NumberOf, NumberRun;
    var f := s.src[p..];
    if |f| >= NUMBER_WINDOW {
      assert Window(s.src, p, NUMBER_WINDOW) == f[..NUMBER_WINDOW];
      FittingNumber(s, f, NUMBER_WINDOW);
    } else {
      assert Window(s.src, p, NUMBER_WINDOW) == f;
    }
  }

  predicate IsNumberChar(c: int) { c in NUMBER_SET || c in HEX_SET }

  /** A number that does not fit is cut at the end of the window, in the middle of its run. */
  lemma {:induction false} CutRun(s: Input, p: nat)
    requires p <= |s.src| && NumberRun(s.src[p..]) > NUMBER_WINDOW
    ensures p + NUMBER_WINDOW < |s.src| && IsNumberChar(s.src[p + NUMBER_WINDOW])
    ensures ScanNumber(s, p).Ok? ==> ScanNumber(s, p).value.1 == NUMBER_WINDOW
  {
    hide NumberOf, Span;
    var f := s.src[p..];
    var w := f[..NUMBER_WINDOW];
    assert Window(s.src, p, NUMBER_WINDOW) == w;
    LongRun(f);
    NumberTakesRun(s, w);
    assert f[NUMBER_WINDOW] == s.src[p + NUMBER_WINDOW];
  }

  lemma {:induction false} LongRun(f: seq<byte>)
    requires NumberRun(f) > NUMBER_WINDOW
    ensures NumberRun(f[..NUMBER_WINDOW]) == NUMBER_WINDOW && IsNumberChar(f[NUMBER_WINDOW])
  {
    hide Span;
    var w := f[..NUMBER_WINDOW];
    if Radix(f).Some? {
      var chars := Radix(f).value.1;
      SpanPrefix(f, NUMBER_WINDOW, 2, chars);
      SpanChars(f, 2, chars);
      assert chars <= HEX_SET;
    } else {
      SpanPrefix(f, NUMBER_WINDOW, 0, NUMBER_SET);
      SpanChars(f, 0, NUMBER_SET);
      ShortWord(f);
    }
  }

  /** Where a word is announced the run is short. */
  lemma {:induction false} ShortWord(f: seq<byte>)
    ensures var i := if f != [] && IsSign(f[0]) then 1 else 0;
            i < |f| && (f[i] == 105 || f[i] == 110) ==> FloatLen(f) <= 4
  {}

  /** The window makes no difference exactly to numbers that fit it. */
  lemma {:induction false} WindowExactly(s: Input, p: nat)
    requires p <= |s.src| && NumberOf(s, s.src[p..]).Ok?
    ensures ScanNumber(s, p) == NumberOf(s, s.src[p..]) <==> NumberRun(s.src[p..]) <= NUMBER_WINDOW
  {
    hide NumberOf, NumberRun, ScanNumber;
    NumberTakesRun(s, s.src[p..]);
    if NumberRun(s.src[p..]) <= NUMBER_WINDOW {
      WholeRun(s, p);
    } else {
      CutRun(s, p);
    }
  }

  // ---------- a number that is cut is refused with its document

  /** The next value is a number too long for the window. */
  ghost predicate LongNumber(s: Input, st: State) {
    && st.cur <= |s.src| && TokenStart(s.src, st.cur).Ok?
    && var p := TokenStart(s.src, st.cur).value;
       && p < |s.src| && (IsDigit(s.src[p]) || s.src[p] in {43, 45, 95}) && !LooksLikeStamp(s.src, p)
       && NumberRun(s.src[p..]) > NUMBER_WINDOW
  }

  /** If the next value can be read at all, a number character stands behind it. */
  ghost predicate CutShort(s: Input, st: State)
    requires Inside(s, st)
  {
    var r := ScanTok(s, st, false);
    r.Ok? ==> r.value.0.typ == Value && r.value.1.cur < |s.src| && IsNumberChar(s.src[r.value.1.cur])
  }

  lemma {:induction false} LongNumberCut(s: Input, st: State)
    requires LongNumber(s, st)
    ensures CutShort(s, st)
  {
    hide TokenStart, ScanAt, LooksLikeStamp, NumberRun, IsNumberChar;
    var p := TokenStart(s.src, st.cur).value;
    CutRun(s, p);
    NumberDispatch(s, p);
  }

  lemma {:induction false} NumberDispatch(s: Input, p: nat)
    requires p < |s.src| && (IsDigit(s.src[p]) || s.src[p] in {43, 45, 95}) && !LooksLikeStamp(s.src, p)
    ensures var r := ScanAt(s, p, false);
            r.Ok? ==> r.value.0.typ == Value && ScanNumber(s, p).Ok? && r.value.1 == p + ScanNumber(s, p).value.1
  {
    hide ScanNumber, ScanBool, ScanStamp, ScanString, ScanLitString, LooksLikeStamp;
    assert ScanAt(s, p, false) == ScanValue(s, p);
  }

  lemma {:induction false} NumberCharRange(c: int)
    requires IsNumberChar(c)
    ensures 32 < c < 127 && c !in {34, 35, 39, 44, 61, 91, 93, 123, 125}
  {}

  /** Where a number character stands, no separator and no end is scanned. */
  lemma {:induction false} NumberCharNext(s: Input, st: State, keymode: bool)
    requires st.cur < |s.src| && IsNumberChar(s.src[st.cur])
    ensures var r := ScanTok(s, st, keymode);
            r.Ok? ==> r.value.0.typ in {Dot, Lit, Value}
  {
    hide ScanNext, ScanAt, IsNumberChar;
    NumberCharRange(s.src[st.cur]);
    ScanHere(s, st.cur, keymode);
    NumberCharAt(s, st.cur, keymode);
  }

  lemma {:induction false} NumberCharAt(s: Input, i: nat, keymode: bool)
    requires i < |s.src| && IsNumberChar(s.src[i])
    ensures var r := ScanAt(s, i, keymode);
            r.Ok? ==> r.value.0.typ in {Dot, Lit, Value}
  {
    hide ScanValue, ScanString, ScanLitString, IsNumberChar;
    NumberCharRange(s.src[i]);
  }

  /** An element that is cut short is refused with its array. */
  lemma {:induction false} CutElement(s: Input, st: State, xs: seq<Datum>)
    requires Inside(s, st) && CutShort(s, st)
    ensures ArrayRest(s, st, xs, false).Err?
  {
    hide ScanTok, ParseVal, ArrayRest, IsNumberChar;
    ArrayTurn(s, st, xs, false);
    if ScanTok(s, st, false).Ok? {
      var (t, st1) := ScanTok(s, st, false).value;
      ValueIsLeaf(s, st1, t);
      if |xs| < ARRAY_MAX {
        ArrayTurn(s, st1, xs + [Leaf(NO_FLAGS, t.scalar)], true);
        NumberCharNext(s, st1, false);
      }
    }
  }

  lemma {:induction false} ValueIsLeaf(s: Input, st: State, t: Token)
    requires Inside(s, st) && t.typ == Value
    ensures ParseVal(s, st, t) == Ok((Leaf(NO_FLAGS, t.scalar), st))
  {}

  /** In an inline table, behind a key and its equals sign. */
  lemma {:induction false} CutPairValue(s: Input, st: State, tab: Datum, t: Token, st1: State,
                                        keys: seq<Text>, st2: State, st3: State)
    requires Inside(s, st) && Inside(s, st1) && Inside(s, st2) && Inside(s, st3)
    requires ScanTok(s, st, true) == Ok((t, st1)) && t.typ !in {RBrace, Comma, Endl}
    requires ParseKey(s, st1, t) == Ok((keys, st2))
    requires ScanTok(s, st2, false).Ok? && ScanTok(s, st2, false).value.1 == st3 && CutShort(s, st3)
    ensures TableRest(s, st, tab, false).Err?
  {
    hide ScanTok, ParseVal, ParseKey, TableRest, IsNumberChar, EnterInline, TabAdd;
    TableTurn(s, st, tab, false);
    if Pair(s, st1, tab, t).Ok? {
      var (v, st4) := ScanTok(s, st3, false).value;
      ValueIsLeaf(s, st4, v);
      TableTurn(s, st4, Pair(s, st1, tab, t).value.0, true);
      NumberCharNext(s, st4, true);
    }
  }

  /** In a key/value expression, behind the key and its equals sign. */
  lemma {:induction false} CutKeyValue(s: Input, st: State, doc: Doc, t: Token, st1: State,
                                       keys: seq<Text>, st2: State, st3: State)
    requires Inside(s, st) && Inside(s, st1) && Inside(s, st2) && Inside(s, st3)
    requires ScanTok(s, st, true) == Ok((t, st1)) && t.typ !in {Fin, Endl, LBrack, LLBrack}
    requires ParseKey(s, st1, t) == Ok((keys, st2))
    requires ScanTok(s, st2, true).Ok? && ScanTok(s, st2, true).value.1 == st3 && CutShort(s, st3)
    ensures ParseDoc(s, st, doc).Err?
  {
    hide ScanTok, ParseVal, ParseKey, ParseDoc, IsNumberChar, Locate, TabAdd;
    DocTurn(s, st, doc);
    var r := ParseExpr(s, st1, doc, t);
    if r.Ok? {
      var (v, st4) := ScanTok(s, st3, false).value;
      ValueIsLeaf(s, st4, v);
      assert r.value.1 == st4;
      NumberCharNext(s, st4, true);
    }
  }

  /** Behind any lines, a key, an equals sign and a blank, and then the text u. */
  ghost predicate Leads(s: Input, rows: seq<Row>, key: Key, gap: seq<byte>, u: seq<byte>) {
    && RowsOk(rows) && RowsConvert(rows, s.strtod) && KeyOk(key) && IsBlank(gap)
    && s.src == RowsText(rows) + (KeyText(key, 0) + ([EQUALS] + (gap + u)))
  }

  /** The key and its equals sign have been read. */
  lemma {:induction false} KeyAndEquals(s: Input, st: State, key: Key, u: seq<byte>)
    returns (tok: Token, st1: State, st2: State, st3: State)
    requires Ready(s, st, 0) && KeyOk(key) && KeyMeaning(key, 0, []).Ok?
    requires Stands(s.src, st.cur, KeyText(key, 0) + ([EQUALS] + u))
    ensures ScanTok(s, st, true) == Ok((tok, st1)) && IsKeyTok(tok.typ) && Inside(s, st1)
    ensures ParseKey(s, st1, tok) == Ok((KeyMeaning(key, 0, []).value, st2)) && Inside(s, st2)
    ensures var x := ScanTok(s, st2, true); x.Ok? && x.value.0.typ == Equal && x.value.1 == st3 && Inside(s, st3)
    ensures st3.cur == st.cur + |KeyText(key, 0)| + 1 && Stands(s.src, st3.cur, u)
  {
    hide ScanTok, ParseKey, KeyText, Norm, PoolMax, KeyMeaning, Stands, TokenStart, KeyOk;
    var e := st.cur + |KeyText(key, 0)|;
    StandsThree(s.src, st.cur, KeyText(key, 0), [EQUALS], u);
    StandsOne(s.src, e, EQUALS);
    KeyBack(s, st, key);
    tok, st1 := ScanTok(s, st, true).value.0, ScanTok(s, st, true).value.1;
    st2 := ParseKey(s, st1, tok).value.1;
    EqualsTok(s, st2, e, true);
    st3 := st2.(cur := e + 1);
  }

  /** If the key cannot be read the document is refused for that. */
  lemma {:induction false} KeyRefused(s: Input, st: State, doc: Doc, key: Key, u: seq<byte>)
    requires Ready(s, st, 0) && KeyOk(key) && KeyMeaning(key, 0, []).Err?
    requires Stands(s.src, st.cur, KeyText(key, 0) + ([EQUALS] + u))
    ensures Outcome(ParseDoc(s, st, doc)).Err?
  {
    hide ScanTok, ParseKey, KeyText, KeyMeaning, Stands, ParseDoc, ParseExpr, KeyOk;
    var e := st.cur + |KeyText(key, 0)|;
    StandsThree(s.src, st.cur, KeyText(key, 0), [EQUALS], u);
    StandsOne(s.src, e, EQUALS);
    KeyBack(s, st, key);
    DocTurn(s, st, doc);
    var (t, st1) := ScanTok(s, st, true).value;
    KeyIsNoHeader(s, st1, doc, t);
  }

  /** Behind a key that can be read, what is cut short refuses the document. */
  lemma {:induction false} CutBehindKey(s: Input, st: State, doc: Doc, key: Key, gap: seq<byte>, u: seq<byte>)
    requires Ready(s, st, 0) && KeyOk(key) && IsBlank(gap)
    requires Stands(s.src, st.cur, KeyText(key, 0) + ([EQUALS] + (gap + u)))
    requires forall x: State :: Inside(s, x) && Stands(s.src, x.cur, u) && x.cur == st.cur + |KeyText(key, 0)| + 1 + |gap| ==> CutShort(s, x)
    ensures Outcome(ParseDoc(s, st, doc)).Err?
  {
    hide ParseDoc, KeyText, CutShort, KeyMeaning, Stands, KeyOk, IsBlank, ScanTok, ParseKey, IsKeyTok;
    if KeyMeaning(key, 0, []).Err? {
      KeyRefused(s, st, doc, key, gap + u);
    } else {
      var t, st1, st2, st3 := KeyAndEquals(s, st, key, gap + u);
      KeyTokIs(t);
      StandsTwo(s.src, st3.cur, gap, u);
      var st4 := st3.(cur := st3.cur + |gap|);
      StandsLength(s.src, st4.cur, u);
      assert CutShort(s, st4);
      SameCut(s, st3, gap);
      CutKeyValue(s, st, doc, t, st1, KeyMeaning(key, 0, []).value, st2, st3);
    }
  }

  lemma {:induction false} KeyTokIs(t: Token)
    requires IsKeyTok(t.typ)
    ensures t.typ !in {Fin, Endl, LBrack, LLBrack}
  {}

  /** On text: a document in which a key is assigned a value that is cut short is refused. */
  lemma {:induction false} CutRefused(s: Input, rows: seq<Row>, key: Key, gap: seq<byte>, u: seq<byte>)
    requires Leads(s, rows, key, gap, u)
    requires forall st: State :: Inside(s, st) && st.cur + |u| == |s.src| && Stands(s.src, st.cur, u) ==> CutShort(s, st)
    ensures TomlParse(s).Err?
  {
    hide ParseDoc, KeyText, CutShort, RowsText, EvalLines, LinesOf, HeadersOf, Stands, RowsOk, RowsConvert, KeyOk, IsBlank, AtLine;
    var rest := KeyText(key, 0) + ([EQUALS] + (gap + u));
    BehindRows(s, rows, rest);
    var x := EvalLines(EMPTY_DOC, LinesOf(rows), 0);
    if x.Ok? {
      var st: State :| AtLine(s, st, HeadersOf(LinesOf(rows))) && st.cur == |RowsText(rows)|
                       && Outcome(ParseDoc(s, START, EMPTY_DOC)) == Outcome(ParseDoc(s, st, x.value));
      LineIsReady(s, st, HeadersOf(LinesOf(rows)));
      CutBehindKey(s, st, x.value, key, gap, u);
    }
  }

  lemma {:induction false} LineIsReady(s: Input, st: State, h: nat)
    requires AtLine(s, st, h)
    ensures Ready(s, st, 0)
  {}

  /** A blank before it makes no difference. */
  lemma {:induction false} SameCut(s: Input, st: State, w: seq<byte>)
    requires Inside(s, st) && IsBlank(w) && Stands(s.src, st.cur, w) && st.cur + |w| <= |s.src|
    requires CutShort(s, st.(cur := st.cur + |w|))
    ensures CutShort(s, st)
  {
    hide ScanTok, IsBlank, Stands, IsNumberChar;
    BlankTok(s, st, w, false);
  }

  /** Behind any lines, with any key, whatever strtod would make of it and whatever follows. */
  lemma {:induction false} LongNumberRefused(s: Input, rows: seq<Row>, key: Key, gap: seq<byte>, u: seq<byte>)
    requires Leads(s, rows, key, gap, u) && u != [] && (IsDigit(u[0]) || u[0] in {43, 45, 95})
    requires !LooksLikeStamp(u, 0) && NumberRun(u) > NUMBER_WINDOW
    ensures TomlParse(s).Err?
  {
    hide TomlParse, Leads, NumberRun, LooksLikeStamp, CutShort, ScanTok, Stands;
    forall st: State | Inside(s, st) && st.cur + |u| == |s.src| && Stands(s.src, st.cur, u) ensures CutShort(s, st) {
      TextHere(s.src, st.cur, u);
      StampBehind(s.src, st.cur, u);
      ValueStarts(s.src, st.cur);
      LongNumberCut(s, st);
    }
    CutRefused(s, rows, key, gap, u);
  }

  lemma {:induction false} TextHere(src: seq<byte>, i: nat, u: seq<byte>)
    requires Stands(src, i, u) && i + |u| == |src|
    ensures src[i..] == u && forall j :: 0 <= j < |u| ==> src[i + j] == u[j]
  {
    forall j | 0 <= j < |u| ensures src[i + j] == u[j] {
      StandsAt(src, i, u, j);
    }
  }

  lemma {:induction false} StampBehind(src: seq<byte>, i: nat, u: seq<byte>)
    requires i + |u| == |src| && forall j :: 0 <= j < |u| ==> src[i + j] == u[j]
    ensures LooksLikeStamp(src, i) == LooksLikeStamp(u, 0)
  {}

  lemma {:induction false} ValueStarts(src: seq<byte>, i: nat)
    requires i < |src| && (IsDigit(src[i]) || src[i] in {43, 45, 95})
    ensures TokenStart(src, i) == Ok(i)
  {}

  // ---------- numbers as they are written

  /** A number in the grammar of the format, however long. */
  predicate NumberForm(v: Val) { (v.VInt? && IntegerForm(v.number)) || (v.VFloat? && FloatForm(v.float)) }

  lemma {:induction false} SpanBeyond(w: seq<byte>, i: nat, e: nat, chars: set<int>)
    requires i <= e <= |w| && forall k :: i <= k < e ==> w[k] in chars
    ensures Span(w, i, chars) >= e
    decreases e - i
  {
    if i < e {
      SpanBeyond(w, i + 1, e, chars);
    }
  }

  /** What the run consists of that starts with a number. */
  lemma {:induction false} RunBeyond(f: seq<byte>, t: seq<byte>)
    requires |t| > 2 && t <= f && InNumbers(t)
    requires var i := if IsSign(t[0]) then 1 else 0; t[i] != 105 && t[i] != 110
    ensures NumberRun(f) >= |t|
  {
    hide Span;
    assert forall k :: 0 <= k < |t| ==> f[k] == t[k];
    assert f[1] in NUMBER_SET;
    SpanBeyond(f, 0, |t|, NUMBER_SET);
  }

  lemma {:induction false} PrefixedBeyond(f: seq<byte>, n: Integer)
    requires IntegerForm(n) && n.base != 10 && IntegerText(n) <= f
    ensures NumberRun(f) >= |IntegerText(n)|
  {
    var t, u := IntegerText(n), FiguresText(n.figures);
    FiguresShape(n.figures, n.base);
    hide Span, FiguresText, IsFigure, FiguresOk, SetOf, NumberRun;
    assert t == PrefixText(n.base) + u;
    assert forall k :: 0 <= k < |t| ==> f[k] == t[k];
    forall k | 2 <= k < |t| ensures f[k] in SetOf(n.base) {
      assert f[k] == u[k - 2];
      FigureInSet(f[k], n.base);
    }
    SpanBeyond(f, 2, |t|, SetOf(n.base));
    RadixIs(f, n.base);
  }

  lemma {:induction false} RadixIs(f: seq<byte>, base: nat)
    requires base in {2, 8, 16} && |f| >= 2 && f[0] == PrefixText(base)[0] && f[1] == PrefixText(base)[1]
    ensures Radix(f) == Some((base, SetOf(base))) && NumberRun(f) == Span(f, 2, SetOf(base))
  {
    hide Span, SetOf;
    SetsAre(base);
    hide FloatLen;
  }

  lemma {:induction false} SetsAre(base: nat)
    ensures base == 16 ==> SetOf(base) == HEX_SET
    ensures base == 8 ==> SetOf(base) == OCT_SET
    ensures base == 2 ==> SetOf(base) == BIN_SET
  {}

  lemma {:induction false} DecimalBeyond(f: seq<byte>, n: Integer)
    requires IntegerForm(n) && n.base == 10 && IntegerText(n) <= f && |IntegerText(n)| > 2
    ensures NumberRun(f) >= |IntegerText(n)|
  {
    var u := FiguresText(n.figures);
    FiguresShape(n.figures, 10);
    hide FiguresText, InNumbers, FiguresOk, NumberRun;
    assert IntegerText(n) == SignText(n.sign) + u;
    SignInNumbers(n.sign);
    FiguresInNumbers(n.figures);
    InNumbersJoin(SignText(n.sign), u);
    RunBeyond(f, IntegerText(n));
  }

  lemma {:induction false} FloatBeyond(f: seq<byte>, x: Float)
    requires FloatForm(x) && x.Number? && FloatText(x) <= f && |FloatText(x)| > 2
    ensures NumberRun(f) >= |FloatText(x)|
  {
    hide FiguresText, FloatText, FloatForm, InNumbers, NumberRun, UnderscoresOk, Canon, PlainFloat, PointsOk, LeadingOk;
    FloatIs(x);
    DigitBehindSign(x);
    RunBeyond(f, FloatText(x));
  }

  lemma {:induction false} DigitBehindSign(x: Float)
    requires FloatForm(x) && x.Number?
    ensures var t := FloatText(x);
            var i := if t != [] && IsSign(t[0]) then 1 else 0;
            t != [] && i < |t| && t[i] != 105 && t[i] != 110
  {
    var u := FiguresText(x.whole);
    FiguresShape(x.whole, 10);
    hide FiguresText, FiguresOk, FracText, ExponentText, UnderscoresOk;
    var t := FloatText(x);
    assert t[|SignText(x.sign)|] == u[0];
    if x.sign != Unsigned {
      assert t[0] == SignText(x.sign)[0];
    }
  }

  lemma {:induction false} WrittenBeyond(f: seq<byte>, v: Val)
    requires NumberForm(v) && Print(v) <= f && |Print(v)| > LONGEST
    ensures NumberRun(f) > NUMBER_WINDOW && !LooksLikeStamp(f, 0) && (IsDigit(f[0]) || f[0] in {43, 45, 95})
  {
    hide NumberRun, IntegerText, FloatText, IntegerForm, FloatForm, LooksLikeStamp;
    var t := Print(v);
    if v.VInt? {
      IntegerShape(v.number);
      if v.number.base == 10 {
        DecimalBeyond(f, v.number);
      } else {
        PrefixedBeyond(f, v.number);
      }
    } else {
      FloatShape(v.float);
      WordIsShort(v.float);
      FloatBeyond(f, v.float);
    }
    assert f[0] == t[0];
    LongIsNoStamp(f, t);
  }

  lemma {:induction false} WordIsShort(x: Float)
    ensures x.Word? ==> |FloatText(x)| <= 4
  {}

  lemma {:induction false} LongIsNoStamp(f: seq<byte>, t: seq<byte>)
    requires |t| >= 5 && t <= f && NoStamp(t)
    ensures !LooksLikeStamp(f, 0)
  {
    assert forall k :: 0 <= k < 5 ==> f[k] == t[k];
  }

  /** Behind any lines, with any key: a number of more than 49 characters refuses the document,
      however it is written and whatever follows. */
  lemma {:induction false} LongWrittenRefused(s: Input, rows: seq<Row>, key: Key, gap: seq<byte>, v: Val, rest: seq<byte>)
    requires NumberForm(v) && |Print(v)| > LONGEST && Leads(s, rows, key, gap, Print(v) + rest)
    ensures TomlParse(s).Err?
  {
    hide TomlParse, Leads, NumberRun, LooksLikeStamp, Print, NumberForm;
    WrittenBeyond(Print(v) + rest, v);
    LongNumberRefused(s, rows, key, gap, Print(v) + rest);
  }

  /** A key/value that ends the text, behind lines that are accepted and with a key that can be
      given a value. */
  ghost predicate LastKeyValue(s: Input, rows: seq<Row>, key: Key, gap: seq<byte>, v: Val, tail: Tail) {
    && TailOk(tail) && Leads(s, rows, key, gap, Print(v) + TailText(tail)) && Converts(v, s.strtod)
    && EvalLines(EMPTY_DOC, LinesOf(rows) + [LKeyVal(key, gap, VBool(true))], 0).Ok?
  }

  lemma {:induction false} LastIsRead(s: Input, rows: seq<Row>, key: Key, gap: seq<byte>, v: Val, tail: Tail)
    requires LastKeyValue(s, rows, key, gap, v, tail) && ValOk(v)
    ensures TomlParse(s).Ok? <==> Eval(v, -(HeadersOf(LinesOf(rows)) as int), 0).Ok?
  {
    hide TomlParse, Print, ValOk, Converts, Eval, EvalLines, EvalLine, LinesOf, HeadersOf, TailOk, TailText, KeyText, KeyOk,
         RowsText, IsBlank;
    var es, e, f := LinesOf(rows), LKeyVal(key, gap, VBool(true)), LKeyVal(key, gap, v);
    var d := Document(rows, Some(f), tail);
    assert LineText(f) + TailText(tail) == KeyText(key, 0) + ([EQUALS] + (gap + (Print(v) + TailText(tail))));
    DocumentRoundTrip(s, d);
    EvalLast(EMPTY_DOC, es, e);
    EvalLast(EMPTY_DOC, es, f);
    SameKeyAccepted(EvalLines(EMPTY_DOC, es, 0).value, e, f, HeadersOf(es));
  }

  /** A number that has a value is accepted exactly when it has no more than 49 characters. */
  lemma {:induction false} NumberExactly(s: Input, rows: seq<Row>, key: Key, gap: seq<byte>, v: Val, tail: Tail)
    requires LastKeyValue(s, rows, key, gap, v, tail) && NumberForm(v) && ScalarMeaning(v).Ok?
    ensures TomlParse(s).Ok? <==> |Print(v)| <= LONGEST
  {
    hide TomlParse, NumberForm, LastKeyValue, ScalarMeaning, HeadersOf, LinesOf, Leads, IntegerText, FloatText, IntegerForm, FloatForm;
    if |Print(v)| > LONGEST {
      LastLeads(s, rows, key, gap, v, tail);
      LongWrittenRefused(s, rows, key, gap, v, TailText(tail));
    } else {
      NumberIsOk(v);
      LastIsRead(s, rows, key, gap, v, tail);
    }
  }

  lemma {:induction false} LastLeads(s: Input, rows: seq<Row>, key: Key, gap: seq<byte>, v: Val, tail: Tail)
    requires LastKeyValue(s, rows, key, gap, v, tail)
    ensures Leads(s, rows, key, gap, Print(v) + TailText(tail))
  {}

  lemma {:induction false} NumberIsOk(v: Val)
    requires NumberForm(v)
    ensures ValOk(v) <==> |Print(v)| <= LONGEST
    ensures !v.VArr? && !v.VTab?
  {
    hide IntegerForm, FloatForm;
    if v.VFloat? {
      WordIsShort(v.float);
    }
  }
}
