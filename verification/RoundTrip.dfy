/** toml_parse on documents that have been written out in any way: it reads back exactly what was
    meant, and refuses exactly what cannot be applied. */
module RoundTrips {
  import opened Basics
  import opened Datum
  import opened Scanning
  import opened Documents
  import opened Parsing
  import opened ParseLaws
  import opened Turns
  import opened Nesting
  import opened Layouts
  import opened StringTexts
  import opened ReadingStrings
  import opened Printing
  import opened Meanings
  import opened ReadingBack

  /** Between lines, h headers behind: no brace is open, and each header has lowered the
      bracket counter by one. */
  ghost predicate AtLine(s: Input, st: State, h: nat) {
    Ready(s, st, 0) && st.bracket + h == 0 && st.brace == 0
  }

  /** The end of an expression: what may follow a value, and no bracket. */
  ghost predicate LineEndsAt(src: seq<byte>, e: nat) { EndsHere(src, e) && (e < |src| ==> src[e] != CLOSE) }

  /** The expression has been read up to position at, and applied or refused. */
  ghost predicate LineRead(s: Input, doc: Doc, e: Line, h: nat, at: nat, r: Result<(Doc, State, Expr)>) {
    match EvalLine(doc, e, h)
    case Err(error) => r == Err(error)
    case Ok(next) =>
      r.Ok? && r.value.0 == next && AtLine(s, r.value.1, h + HeadersIn(e)) && r.value.1.cur == at
  }

  /** What the first token of an expression leads to. */
  ghost predicate LineGood(s: Input, st: State, doc: Doc, e: Line, h: nat)
    requires Inside(s, st)
  {
    var x := ScanTok(s, st, true);
    && x.Ok? && x.value.0.typ != Fin && x.value.0.typ != Endl
    && LineRead(s, doc, e, h, st.cur + |LineText(e)|, ParseExpr(s, x.value.1, doc, x.value.0))
  }

  // ---------- headers

  lemma {:induction false} KeyStarts(src: seq<byte>, i: nat, ks: Key)
    requires KeyOk(ks) && Stands(src, i, KeyText(ks, 0))
    ensures i < |src| && src[i] != OPEN
  {
    hide Stands, PartText, PartOk, DottedText, IsBareChar;
    assert ks[0] in ks;
    var w, t := ks[0].lead, PartText(ks[0].part);
    KeyTextIs(ks, 0);
    StandsTwo(src, i, w + t, KeyTail(ks, 0));
    StandsTwo(src, i, w, t);
    if w != [] {
      StandsFirst(src, i, w);
      InRest(w);
    } else {
      PartNotEmpty(ks[0].part);
      StandsFirst(src, i, t);
      PartStarts(ks[0].part);
    }
  }

  lemma {:induction false} PartStarts(p: Part)
    requires PartOk(p)
    ensures PartText(p) != [] && PartText(p)[0] != OPEN
  {
    match p {
      case Bare(t) =>
        InRest(t);
        hide IsBareChar;
        BareChars(t[0]);
      case Quoted(x) =>
        hide StrOk;
    }
  }

  /** The bracket that closes a header, behind its key. */
  lemma {:induction false} CloseTok(s: Input, st: State, e: nat)
    requires Inside(s, st) && e < |s.src| && s.src[e] == CLOSE && TokenStart(s.src, st.cur) == TokenStart(s.src, e)
    ensures ScanTok(s, st, true) ==
            if Single(s.src, e) then Ok((Plain(RBrack, e, 1), State(e + 1, st.bracket - 1, st.brace, st.top)))
            else Ok((Plain(RRBrack, e, 2), State(e + 2, st.bracket, st.brace, st.top)))
  {
    hide ScanTok, TokenStart;
    TokAfter(s, st, e, true);
    if Single(s.src, e) {
      BracketTok(s, st.(cur := e));
    } else {
      DoubleBracketTok(s, st.(cur := e));
    }
  }

  lemma {:induction false} HeaderCut(src: seq<byte>, i: nat, lead: seq<byte>, key: Key)
    requires Stands(src, i, LineText(LHeader(lead, key)))
    ensures var p := i + |lead| + 1;
            var e := p + |KeyText(key, 0)|;
            && Stands(src, i, lead) && e < |src| && src[p - 1] == OPEN && Stands(src, p, KeyText(key, 0)) && src[e] == CLOSE
            && i + |LineText(LHeader(lead, key))| == e + 1
  {
    hide Stands, KeyText;
    var p := i + |lead| + 1;
    StandsThree(src, i, lead, [OPEN], KeyText(key, 0) + [CLOSE]);
    StandsTwo(src, p, KeyText(key, 0), [CLOSE]);
    StandsOne(src, p - 1, OPEN);
    StandsOne(src, p + |KeyText(key, 0)|, CLOSE);
  }

  lemma {:induction false} ElementCut(src: seq<byte>, i: nat, lead: seq<byte>, key: Key)
    requires Stands(src, i, LineText(LElement(lead, key)))
    ensures var p := i + |lead| + 2;
            var e := p + |KeyText(key, 0)|;
            && Stands(src, i, lead) && e + 1 < |src| && src[p - 2] == OPEN && src[p - 1] == OPEN
            && Stands(src, p, KeyText(key, 0)) && src[e] == CLOSE && src[e + 1] == CLOSE
            && i + |LineText(LElement(lead, key))| == e + 2
  {
    hide Stands, KeyText;
    var p := i + |lead| + 2;
    var e := p + |KeyText(key, 0)|;
    StandsThree(src, i, lead, [OPEN, OPEN], KeyText(key, 0) + [CLOSE, CLOSE]);
    StandsTwo(src, p, KeyText(key, 0), [CLOSE, CLOSE]);
    StandsAt(src, p - 2, [OPEN, OPEN], 0);
    StandsAt(src, p - 2, [OPEN, OPEN], 1);
    StandsAt(src, e, [CLOSE, CLOSE], 0);
    StandsAt(src, e, [CLOSE, CLOSE], 1);
  }

  lemma {:induction false} KeyValCut(src: seq<byte>, i: nat, key: Key, gap: seq<byte>, v: Val)
    requires Stands(src, i, LineText(LKeyVal(key, gap, v)))
    ensures var e := i + |KeyText(key, 0)|;
            && Stands(src, i, KeyText(key, 0)) && e < |src| && src[e] == EQUALS
            && Stands(src, e + 1, gap) && Stands(src, e + 1 + |gap|, Print(v))
            && i + |LineText(LKeyVal(key, gap, v))| == e + 1 + |gap| + |Print(v)|
  {
    hide Stands, KeyText, Print;
    var e := i + |KeyText(key, 0)|;
    StandsThree(src, i, KeyText(key, 0), [EQUALS], gap + Print(v));
    StandsTwo(src, e + 1, gap, Print(v));
    StandsOne(src, e, EQUALS);
  }

  lemma {:induction false} HeaderBack(s: Input, st: State, doc: Doc, lead: seq<byte>, key: Key, h: nat)
    requires AtLine(s, st, h) && LineOk(LHeader(lead, key)) && Stands(s.src, st.cur, LineText(LHeader(lead, key)))
    requires LineEndsAt(s.src, st.cur + |LineText(LHeader(lead, key))|)
    ensures LineGood(s, st, doc, LHeader(lead, key), h)
  {
    hide ScanTok, Stands, KeyText, OpenTable, ParseKey, TokenStart, KeyOk, KeyMeaning, IsBlank, LineText, EndsHere;
    HeaderCut(s.src, st.cur, lead, key);
    var i := st.cur + |lead|;
    var e := i + 1 + |KeyText(key, 0)|;
    BlankTok(s, st, lead, true);
    KeyStarts(s.src, i + 1, key);
    BracketTok(s, st.(cur := i));
    var st1 := State(i + 1, st.bracket + 1, st.brace, st.top);
    KeyBack(s, st1, key);
    KeyNotEmpty(key);
    var keys := KeyMeaning(key, 0, []);
    assert ParseExpr(s, st1, doc, Plain(LBrack, i, 1)) == StdTable(s, st1, doc);
    if keys.Ok? {
      var (t, st2) := ScanTok(s, st1, true).value;
      var st3 := ParseKey(s, st2, t).value.1;
      CloseTok(s, st3, e);
    }
  }

  lemma {:induction false} ElementBack(s: Input, st: State, doc: Doc, lead: seq<byte>, key: Key, h: nat)
    requires AtLine(s, st, h) && LineOk(LElement(lead, key)) && Stands(s.src, st.cur, LineText(LElement(lead, key)))
    ensures LineGood(s, st, doc, LElement(lead, key), h)
  {
    hide ScanTok, Stands, KeyText, OpenElement, ParseKey, TokenStart, KeyOk, KeyMeaning, IsBlank, LineText;
    ElementCut(s.src, st.cur, lead, key);
    var i := st.cur + |lead|;
    var e := i + 2 + |KeyText(key, 0)|;
    BlankTok(s, st, lead, true);
    DoubleBracketTok(s, st.(cur := i));
    var st1 := State(i + 2, st.bracket, st.brace, st.top);
    KeyBack(s, st1, key);
    KeyNotEmpty(key);
    var keys := KeyMeaning(key, 0, []);
    assert ParseExpr(s, st1, doc, Plain(LLBrack, i, 2)) == ElementTable(s, st1, doc);
    if keys.Ok? {
      var (t, st2) := ScanTok(s, st1, true).value;
      var st3 := ParseKey(s, st2, t).value.1;
      CloseTok(s, st3, e);
    }
  }

  // ---------- key/values

  lemma {:induction false} KeyValBack(s: Input, st: State, doc: Doc, key: Key, gap: seq<byte>, v: Val, h: nat)
    requires var e := LKeyVal(key, gap, v);
             && AtLine(s, st, h) && LineOk(e) && Converts(v, s.strtod) && Stands(s.src, st.cur, LineText(e))
             && LineEndsAt(s.src, st.cur + |LineText(e)|)
    ensures LineGood(s, st, doc, LKeyVal(key, gap, v), h)
  {
    hide ScanTok, Stands, KeyText, Locate, TabAdd, ParseKey, ReadValue, Print, Eval, ValOk, Converts, EndsHere, KeyOk,
         KeyMeaning, TokenStart, ParseExpr, IsBlank, IsTableAt, LineText, StartsValue;
    KeyValCut(s.src, st.cur, key, gap, v);
    var e := st.cur + |KeyText(key, 0)|;
    KeyBack(s, st, key);
    KeyNotEmpty(key);
    var (t, st1) := ScanTok(s, st, true).value;
    KeyIsNoHeader(s, st1, doc, t);
    var keys := KeyMeaning(key, 0, []);
    if keys.Ok? {
      var st2 := ParseKey(s, st1, t).value.1;
      EqualsTok(s, st2, e, true);
      var st3 := st2.(cur := e + 1);
      BlankValue(s, st3, gap);
      ValueBack(s, st3.(cur := e + 1 + |gap|), v);
      KeyValTurn(s, st1, doc, t, keys.value, st2, st3);
    }
  }

  lemma {:induction false} KeyIsNoHeader(s: Input, st: State, doc: Doc, t: Token)
    requires Inside(s, st) && IsKeyTok(t.typ)
    ensures ParseKey(s, st, t).Err? ==> ParseExpr(s, st, doc, t) == Err(ParseKey(s, st, t).error)
  {
    hide ParseKey, ScanTok, ParseVal, Locate, TabAdd;
  }

  /** The end of a key/value whose key and equals sign can be read. */
  lemma KeyValTurn(s: Input, st1: State, doc: Doc, t: Token, keys: seq<Text>, st2: State, st3: State)
    requires Inside(s, st1) && Inside(s, st2) && Inside(s, st3) && keys != [] && IsKeyTok(t.typ)
    requires ParseKey(s, st1, t) == Ok((keys, st2))
    requires ScanTok(s, st2, true).Ok? && ScanTok(s, st2, true).value.0.typ == Equal
    requires ScanTok(s, st2, true).value.1 == st3
    ensures var r := ParseExpr(s, st1, doc, t);
            var at := Locate(doc, keys);
            var v := ReadValue(s, st3);
            if at.Err? then r == Err(at.error)
            else if v.Err? then r == Err(v.error)
            else
              var d := TabAdd(at.value.0, at.value.1, keys[|keys| - 1], v.value.0);
              if d.Err? then r == Err(d.error)
              else r == Ok((Doc(d.value, doc.curtab), v.value.1, KeyVal(keys, v.value.0)))
  {
    hide ScanTok, Locate, TabAdd, ParseKey, ParseVal;
    assert ParseExpr(s, st1, doc, t) == KeyValueExpr(s, st1, doc, t);
  }

  // ---------- documents

  lemma {:induction false} LineBack(s: Input, st: State, doc: Doc, e: Line, h: nat)
    requires AtLine(s, st, h) && LineOk(e) && LineConverts(e, s.strtod) && Stands(s.src, st.cur, LineText(e))
    requires LineEndsAt(s.src, st.cur + |LineText(e)|)
    ensures LineGood(s, st, doc, e, h)
  {
    hide Stands, LineText, LineGood, AtLine, LineOk, LineEndsAt;
    match e {
      case LHeader(lead, key) => HeaderBack(s, st, doc, lead, key, h);
      case LElement(lead, key) => ElementBack(s, st, doc, lead, key, h);
      case LKeyVal(key, gap, v) => KeyValBack(s, st, doc, key, gap, v, h);
    }
  }

  /** The last line, behind which nothing stands but a blank and a comment. */
  lemma {:induction false} TailEndsLine(src: seq<byte>, i: nat, t: Tail)
    requires TailOk(t) && Stands(src, i, TailText(t)) && i + |TailText(t)| == |src|
    ensures LineEndsAt(src, i) && TokenStart(src, i) == Ok(|src|)
  {
    TailSkipped(src, i, t);
    TailEnds(src, i, t);
    TailStarts(src, i, t);
  }

  lemma {:induction false} TailStarts(src: seq<byte>, i: nat, t: Tail)
    requires TailOk(t) && Stands(src, i, TailText(t))
    ensures TailText(t) != [] ==> i < |src| && (src[i] == SPACE || src[i] == TAB || src[i] == HASH)
  {
    if TailText(t) != [] {
      StandsFirst(src, i, TailText(t));
      if t.blank != [] {
        InRest(t.blank);
        assert TailText(t)[0] == t.blank[0];
      }
    }
  }

  lemma {:induction false} NewlineEndsLine(src: seq<byte>, i: nat, e: LineEnd)
    requires TailOk(e.tail) && Stands(src, i, EndText(e))
    ensures LineEndsAt(src, i)
  {
    hide Stands, TailText, NewlineText;
    LineEnds(src, i, e);
    StandsTwo(src, i, TailText(e.tail), NewlineText(e.newline));
    TailStarts(src, i, e.tail);
    NewlineStands(src, i + |TailText(e.tail)|, e.newline);
    NewlineFirst(e.newline);
  }

  lemma {:induction false} NewlineFirst(n: Newline)
    ensures NewlineText(n)[0] == CR || NewlineText(n)[0] == LF
  {}

  /** What the rest of a document comes to. */
  ghost predicate DocGot(s: Input, st: State, doc: Doc, x: Result<Doc>)
    requires Inside(s, st)
  {
    var r := Outcome(ParseDoc(s, st, doc));
    match x
    case Ok(last) => r.Ok? && r.value.0 == last.top
    case Err(error) => r == Err(error)
  }

  lemma {:induction false} LastBack(s: Input, st: State, doc: Doc, line: Option<Line>, tail: Tail, h: nat)
    requires AtLine(s, st, h) && MaybeOk(line) && TailOk(tail) && (line.Some? ==> LineConverts(line.value, s.strtod))
    requires Stands(s.src, st.cur, MaybeText(line) + TailText(tail))
    requires st.cur + |MaybeText(line) + TailText(tail)| == |s.src|
    ensures DocGot(s, st, doc, EvalLines(doc, if line.Some? then [line.value] else [], h))
  {
    hide ScanTok, ParseExpr, Stands, LineText, EvalLine, ParseDoc, LineOk, TailText, TokenStart, LineConverts;
    StandsTwo(s.src, st.cur, MaybeText(line), TailText(tail));
    var i := st.cur + |MaybeText(line)|;
    TailEndsLine(s.src, i, tail);
    DocTurn(s, st, doc);
    var end := State(|s.src|, st.bracket, st.brace, st.top);
    if line.None? {
      LastTok(s, st);
    } else {
      LineBack(s, st, doc, line.value, h);
      LastLine(s, st, doc, line.value, h);
    }
  }

  /** Nothing but a blank and a comment is left. */
  lemma {:induction false} LastTok(s: Input, st: State)
    requires Inside(s, st) && TokenStart(s.src, st.cur) == Ok(|s.src|)
    ensures ScanTok(s, st, true) == Ok((Plain(Fin, |s.src|, 0), st.(cur := |s.src|)))
  {
    hide ScanTok, TokenStart;
    EndIsEnd(s.src);
    TokAfter(s, st, |s.src|, true);
    EndTok(s, st.(cur := |s.src|));
  }

  lemma {:induction false} EndIsEnd(src: seq<byte>)
    ensures TokenStart(src, |src|) == Ok(|src|)
  {}

  lemma {:induction false} LastLine(s: Input, st: State, doc: Doc, e: Line, h: nat)
    requires Inside(s, st) && LineGood(s, st, doc, e, h) && st.cur + |LineText(e)| <= |s.src|
    requires TokenStart(s.src, st.cur + |LineText(e)|) == Ok(|s.src|)
    ensures DocGot(s, st, doc, EvalLines(doc, [e], h))
  {
    hide ScanTok, ParseExpr, LineText, EvalLine, ParseDoc, TokenStart;
    DocTurn(s, st, doc);
    assert [e][1..] == [];
    if EvalLine(doc, e, h).Ok? {
      var (t, st1) := ScanTok(s, st, true).value;
      var (next, st2, _) := ParseExpr(s, st1, doc, t).value;
      LastTok(s, st2);
      var st3 := st2.(cur := |s.src|);
      DocTurn(s, st3, next);
      EndTok(s, st3);
    }
  }

  /** A line with its newline. */
  lemma {:induction false} RowBack(s: Input, st: State, doc: Doc, row: Row, h: nat)
    requires AtLine(s, st, h) && MaybeOk(row.line) && TailOk(row.end.tail)
    requires row.line.Some? ==> LineConverts(row.line.value, s.strtod)
    requires Stands(s.src, st.cur, MaybeText(row.line) + EndText(row.end))
    ensures st.cur + |MaybeText(row.line)| + |EndText(row.end)| <= |s.src|
    ensures var x := if row.line.Some? then EvalLine(doc, row.line.value, h) else Ok(doc);
            match x
            case Err(error) => Outcome(ParseDoc(s, st, doc)) == Err(error)
            case Ok(next) =>
              exists st1: State :: AtLine(s, st1, h + if row.line.Some? then HeadersIn(row.line.value) else 0)
                && st1.cur == st.cur + |MaybeText(row.line)| + |EndText(row.end)|
                && Outcome(ParseDoc(s, st, doc)) == Outcome(ParseDoc(s, st1, next))
  {
    hide ScanTok, ParseExpr, Stands, LineText, EvalLine, ParseDoc, LineOk, EndText, TokenStart, LineConverts;
    StandsTwo(s.src, st.cur, MaybeText(row.line), EndText(row.end));
    var i := st.cur + |MaybeText(row.line)|;
    DocTurn(s, st, doc);
    if row.line.None? {
      EndTok2(s, st, row.end, true);
    } else {
      var e := row.line.value;
      NewlineEndsLine(s.src, i, row.end);
      LineBack(s, st, doc, e, h);
      EndLength(s.src, i, row.end);
      if EvalLine(doc, e, h).Ok? {
        var (t, st1) := ScanTok(s, st, true).value;
        var (next, st2, _) := ParseExpr(s, st1, doc, t).value;
        EndTok2(s, st2, row.end, true);
        assert AtLine(s, st2.(cur := i + |EndText(row.end)|), h + HeadersIn(e));
      }
    }
  }

  lemma {:induction false} EndLength(src: seq<byte>, i: nat, e: LineEnd)
    requires Stands(src, i, EndText(e))
    ensures i + |EndText(e)| <= |src|
  {}

  ghost predicate RowsConvert(rows: seq<Row>, strtod: seq<byte> -> Option<Double>) {
    forall r :: r in rows && r.line.Some? ==> LineConverts(r.line.value, strtod)
  }

  lemma {:induction false} LinesTurn(doc: Doc, rows: seq<Row>, h: nat)
    requires rows != []
    ensures EvalLines(doc, LinesOf(rows), h) ==
            var x := if rows[0].line.Some? then EvalLine(doc, rows[0].line.value, h) else Ok(doc);
            if x.Err? then Err(x.error)
            else EvalLines(x.value, LinesOf(rows[1..]), h + if rows[0].line.Some? then HeadersIn(rows[0].line.value) else 0)
    ensures HeadersOf(LinesOf(rows)) ==
            HeadersOf(LinesOf(rows[1..])) + if rows[0].line.Some? then HeadersIn(rows[0].line.value) else 0
  {
    hide EvalLine;
    var es := LinesOf(rows);
    if rows[0].line.Some? {
      assert es[0] == rows[0].line.value && es[1..] == LinesOf(rows[1..]);
    } else {
      assert es == LinesOf(rows[1..]);
    }
  }

  /** The lines have been read up to position e, or one of them has been refused. */
  ghost predicate RowsGot(s: Input, st: State, doc: Doc, x: Result<Doc>, h: nat, e: nat)
    requires Inside(s, st)
  {
    match x
    case Err(error) => Outcome(ParseDoc(s, st, doc)) == Err(error)
    case Ok(next) =>
      exists st1: State ::
        AtLine(s, st1, h) && st1.cur == e && Outcome(ParseDoc(s, st, doc)) == Outcome(ParseDoc(s, st1, next))
  }

  lemma {:induction false} RowsBack(s: Input, st: State, doc: Doc, rows: seq<Row>, h: nat)
    requires AtLine(s, st, h) && RowsOk(rows) && RowsConvert(rows, s.strtod) && Stands(s.src, st.cur, RowsText(rows))
    ensures var es := LinesOf(rows);
            RowsGot(s, st, doc, EvalLines(doc, es, h), h + HeadersOf(es), st.cur + |RowsText(rows)|)
    decreases |rows|
  {
    hide ParseDoc, Stands, MaybeText, TailText, EvalLine, EvalLines, EndText, LineConverts, MaybeOk, AtLine, TailOk, LinesOf;
    if rows == [] {
      NoLines(doc, rows, h);
    } else {
      var row := rows[0];
      InRest(rows);
      var a, b := MaybeText(row.line) + EndText(row.end), RowsText(rows[1..]);
      assert RowsText(rows) == a + b;
      StandsTwo(s.src, st.cur, a, b);
      RowBack(s, st, doc, row, h);
      LinesTurn(doc, rows, h);
      var x := if row.line.Some? then EvalLine(doc, row.line.value, h) else Ok(doc);
      if x.Ok? {
        var h1 := h + if row.line.Some? then HeadersIn(row.line.value) else 0;
        var st1: State :| AtLine(s, st1, h1) && st1.cur == st.cur + |MaybeText(row.line)| + |EndText(row.end)|
                          && Outcome(ParseDoc(s, st, doc)) == Outcome(ParseDoc(s, st1, x.value));
        RowsBack(s, st1, x.value, rows[1..], h1);
      }
    }
  }

  lemma {:induction false} NoLines(doc: Doc, rows: seq<Row>, h: nat)
    requires rows == []
    ensures LinesOf(rows) == [] && RowsText(rows) == [] && HeadersOf(LinesOf(rows)) == 0
    ensures EvalLines(doc, LinesOf(rows), h) == Ok(doc)
  {}

  lemma {:induction false} WholeText(s: Input, t: seq<byte>)
    requires s.src == t
    ensures Stands(s.src, 0, t)
  {
    StandsCut(s.src, 0, |s.src|);
    assert s.src[0..|s.src|] == s.src;
  }

  lemma {:induction false} AtStart(s: Input)
    ensures AtLine(s, START, 0)
  {}

  /** Lines, and then anything. */
  lemma {:induction false} BehindRows(s: Input, rows: seq<Row>, rest: seq<byte>)
    requires RowsOk(rows) && RowsConvert(rows, s.strtod) && s.src == RowsText(rows) + rest
    ensures var es := LinesOf(rows);
            RowsGot(s, START, EMPTY_DOC, EvalLines(EMPTY_DOC, es, 0), HeadersOf(es), |RowsText(rows)|)
            && Stands(s.src, |RowsText(rows)|, rest)
  {
    hide RowsText, LinesOf, EvalLines, HeadersOf, RowsOk, RowsConvert, AtLine, Stands, ParseDoc;
    AtStart(s);
    WholeText(s, RowsText(rows) + rest);
    StandsTwo(s.src, 0, RowsText(rows), rest);
    RowsBack(s, START, EMPTY_DOC, rows, 0);
  }

  /** The text of s is the document d, and its floats are converted as d says. */
  ghost predicate Written(s: Input, d: Document) {
    DocumentOk(d) && DocumentConverts(d, s.strtod) && s.src == DocumentText(d)
  }

  lemma {:induction false} LinesOk(rows: seq<Row>)
    requires RowsOk(rows)
    ensures forall e :: e in LinesOf(rows) ==> LineOk(e)
  {
    hide LineOk, TailOk;
    if rows != [] {
      InRest(rows);
      LinesOk(rows[1..]);
    }
  }

  lemma {:induction false} WrittenLines(s: Input, d: Document)
    requires Written(s, d)
    ensures forall e :: e in AllLines(d) ==> LineOk(e) && KeyOk(e.key) && e.key != []
  {
    hide KeyOk, ValOk;
    LinesOk(d.rows);
    forall e | e in AllLines(d) ensures e.key != [] {
      KeyNotEmpty(e.key);
    }
  }

  /** Any document, with headers, array elements and key/values, every spelling of keys, strings,
      numbers, dates and times, arrays and inline tables nested in any way and to any depth, and
      with any blanks, newlines and comments, parsed: the tree is the one that applying its
      expressions builds, and a refusal is the refusal of the first that cannot be applied. */
  lemma {:induction false} DocumentRoundTrip(s: Input, d: Document)
    requires Written(s, d)
    ensures var r := TomlParse(s);
            match EvalDocument(d)
            case Ok(tree) => r.Ok? && r.value.0 == tree
            case Err(error) => r == Err(error)
  {
    hide ParseDoc, RowsText, EvalLines, LineConverts, MaybeOk, LinesOf, TailOk, AtLine, RowsOk, TailText, MaybeText, Stands;
    var last := MaybeText(d.line) + TailText(d.tail);
    var es, line := LinesOf(d.rows), if d.line.Some? then [d.line.value] else [];
    BehindRows(s, d.rows, last);
    EvalAppend(EMPTY_DOC, es, line, 0);
    var x := EvalLines(EMPTY_DOC, es, 0);
    if x.Ok? {
      var st: State :| AtLine(s, st, HeadersOf(es)) && st.cur == |RowsText(d.rows)|
                       && Outcome(ParseDoc(s, START, EMPTY_DOC)) == Outcome(ParseDoc(s, st, x.value));
      LastBack(s, st, x.value, d.line, d.tail, HeadersOf(es));
    }
  }
}
