/** toml_parse accepts exactly the documents that can be written and evaluated. */
module AcceptedDocuments {
  import opened Basics
  import opened Datum
  import opened Trees
  import opened Scanning
  import opened Documents
  import opened Parsing
  import opened Turns
  import opened Layouts
  import opened Printing
  import opened Meanings
  import opened RoundTrips
  import opened AcceptedStrings
  import opened AcceptedNumbers
  import opened AcceptedTexts
  import opened AcceptedValues

  // ---------- expressions

  ghost predicate IsLine(s: Input, i: nat, q: nat, e: Line) {
    LineOk(e) && LineConverts(e, s.strtod) && Spans(s.src, i, q, LineText(e))
  }

  lemma {:induction false} HeaderSpans(s: Input, i: nat, w: seq<byte>, p: nat, j: nat, key: Key, e: nat, q: nat)
    requires IsBlank(w) && Spans(s.src, i, p, w) && Spans(s.src, p, j, [OPEN]) && KeyOk(key)
    requires Spans(s.src, j, e, KeyText(key, 0)) && Spans(s.src, e, q, [CLOSE])
    ensures IsLine(s, i, q, LHeader(w, key))
  {
    hide Spans, KeyOk, KeyText, IsBlank;
    SpansJoin(s.src, j, e, q, KeyText(key, 0), [CLOSE]);
    SpansJoin(s.src, p, j, q, [OPEN], KeyText(key, 0) + [CLOSE]);
    SpansJoin(s.src, i, p, q, w, [OPEN] + (KeyText(key, 0) + [CLOSE]));
  }

  lemma {:induction false} ElementSpans(s: Input, i: nat, w: seq<byte>, p: nat, j: nat, key: Key, e: nat, q: nat)
    requires IsBlank(w) && Spans(s.src, i, p, w) && Spans(s.src, p, j, [OPEN, OPEN]) && KeyOk(key)
    requires Spans(s.src, j, e, KeyText(key, 0)) && Spans(s.src, e, q, [CLOSE, CLOSE])
    ensures IsLine(s, i, q, LElement(w, key))
  {
    hide Spans, KeyOk, KeyText, IsBlank;
    SpansJoin(s.src, j, e, q, KeyText(key, 0), [CLOSE, CLOSE]);
    SpansJoin(s.src, p, j, q, [OPEN, OPEN], KeyText(key, 0) + [CLOSE, CLOSE]);
    SpansJoin(s.src, i, p, q, w, [OPEN, OPEN] + (KeyText(key, 0) + [CLOSE, CLOSE]));
  }

  lemma {:induction false} HeaderFrom(s: Input, st: State, doc: Doc) returns (e: Line)
    requires Inside(s, st) && ScanTok(s, st, true).Ok? && ScanTok(s, st, true).value.0.typ == LBrack
    requires StdTable(s, ScanTok(s, st, true).value.1, doc).Ok?
    ensures IsLine(s, st.cur, StdTable(s, ScanTok(s, st, true).value.1, doc).value.1.cur, e)
  {
    hide ScanTok, ScanAt, ParseKey, OpenTable, TokenStart, IsBlank, Spans, KeyOk, KeyText, IsLine;
    var (open, st1) := ScanTok(s, st, true).value;
    var (t, st2) := ScanTok(s, st1, true).value;
    var (keys, st3) := ParseKey(s, st2, t).value;
    var (close, st4) := ScanTok(s, st3, true).value;
    var w, p := BlankToken(s, st, true);
    TokenShape(s, p, true, open, st1.cur);
    var key, k := KeyFrom(s, st1);
    var blank, c := BlankToken(s, st3, true);
    TokenShape(s, c, true, close, st4.cur);
    e := LHeader(w, key);
    HeaderSpans(s, st.cur, w, p, st1.cur, key, k, st4.cur);
  }

  lemma {:induction false} ElementFrom(s: Input, st: State, doc: Doc) returns (e: Line)
    requires Inside(s, st) && ScanTok(s, st, true).Ok? && ScanTok(s, st, true).value.0.typ == LLBrack
    requires ElementTable(s, ScanTok(s, st, true).value.1, doc).Ok?
    ensures IsLine(s, st.cur, ElementTable(s, ScanTok(s, st, true).value.1, doc).value.1.cur, e)
  {
    hide ScanTok, ScanAt, ParseKey, OpenElement, TokenStart, IsBlank, Spans, KeyOk, KeyText, IsLine;
    var (open, st1) := ScanTok(s, st, true).value;
    var (t, st2) := ScanTok(s, st1, true).value;
    var (keys, st3) := ParseKey(s, st2, t).value;
    var (close, st4) := ScanTok(s, st3, true).value;
    var w, p := BlankToken(s, st, true);
    DoubleShape(s, p, open, st1.cur);
    var key, k := KeyFrom(s, st1);
    var blank, c := BlankToken(s, st3, true);
    DoubleShape(s, c, close, st4.cur);
    e := LElement(w, key);
    ElementSpans(s, st.cur, w, p, st1.cur, key, k, st4.cur);
  }

  lemma {:induction false} KeyValueSpans(s: Input, i: nat, e: nat, key: Key, j: nat, w: seq<byte>, p: nat, q: nat, v: Val)
    requires PairIs(s, i, q, key, w, v)
    ensures IsLine(s, i, q, LKeyVal(key, w, v))
  {
    hide Spans, KeyOk, KeyText, IsBlank, ValOk, Converts, Print;
  }

  lemma {:induction false} KeyValueFrom(s: Input, st: State, doc: Doc) returns (e: Line)
    requires Inside(s, st) && ReadsDecimals(s.strtod) && ScanTok(s, st, true).Ok?
    requires var (t, st1) := ScanTok(s, st, true).value; KeyValueExpr(s, st1, doc, t).Ok?
    ensures var (t, st1) := ScanTok(s, st, true).value;
            IsLine(s, st.cur, KeyValueExpr(s, st1, doc, t).value.1.cur, e)
  {
    hide ScanTok, ScanAt, ParseKey, ParseVal, Locate, TabAdd, ReadsDecimals, TokenStart, IsBlank, Spans, KeyOk, KeyText,
         PairIs, ValueAt, IsLine;
    var (t, st1) := ScanTok(s, st, true).value;
    var (keys, st2) := ParseKey(s, st1, t).value;
    var (eq, st3) := ScanTok(s, st2, true).value;
    var (vt, st4) := ScanTok(s, st3, false).value;
    var q := ParseVal(s, st4, vt).value.1.cur;
    var key, k := KeyFrom(s, st);
    var blank, c := BlankToken(s, st2, true);
    TokenShape(s, c, true, eq, st3.cur);
    var v, w, p := ValueFrom(s, st3);
    PairSpans(s, st.cur, k, key, st3.cur, w, p, q, v);
    e := LKeyVal(key, w, v);
    KeyValueSpans(s, st.cur, k, key, st3.cur, w, p, q, v);
  }

  lemma {:induction false} LineFrom(s: Input, st: State, doc: Doc) returns (e: Line)
    requires Inside(s, st) && ReadsDecimals(s.strtod) && ScanTok(s, st, true).Ok?
    requires var (t, st1) := ScanTok(s, st, true).value; ParseExpr(s, st1, doc, t).Ok?
    ensures var (t, st1) := ScanTok(s, st, true).value;
            IsLine(s, st.cur, ParseExpr(s, st1, doc, t).value.1.cur, e)
  {
    hide ScanTok, StdTable, ElementTable, KeyValueExpr, ReadsDecimals, IsLine;
    var (t, st1) := ScanTok(s, st, true).value;
    if t.typ == LBrack {
      e := HeaderFrom(s, st, doc);
    } else if t.typ == LLBrack {
      e := ElementFrom(s, st, doc);
    } else {
      e := KeyValueFrom(s, st, doc);
    }
  }

  // ---------- documents

  /** Rows, and what stands behind the last newline, from i to the end of the text. */
  ghost predicate IsRest(s: Input, i: nat, d: Document) {
    DocumentOk(d) && DocumentConverts(d, s.strtod) && Spans(s.src, i, |s.src|, DocumentText(d))
  }

  lemma {:induction false} MoreRows(s: Input, i: nat, j: nat, row: Row, d: Document)
    requires MaybeOk(row.line) && TailOk(row.end.tail) && (row.line.Some? ==> LineConverts(row.line.value, s.strtod))
    requires Spans(s.src, i, j, MaybeText(row.line) + EndText(row.end)) && IsRest(s, j, d)
    ensures IsRest(s, i, d.(rows := [row] + d.rows))
  {
    hide Spans, MaybeOk, TailOk, LineConverts, MaybeText, EndText, TailText;
    var rows := [row] + d.rows;
    RowsFirst(row, d.rows);
    var last := MaybeText(d.line) + TailText(d.tail);
    SpansJoin(s.src, i, j, |s.src|, MaybeText(row.line) + EndText(row.end), RowsText(d.rows) + last);
    hide RowsText;
    assert RowsText(rows) + last == (MaybeText(row.line) + EndText(row.end)) + (RowsText(d.rows) + last);
    assert forall r :: r in rows <==> r == row || r in d.rows;
  }

  lemma {:induction false} RowsFirst(row: Row, rows: seq<Row>)
    ensures RowsText([row] + rows) == MaybeText(row.line) + (EndText(row.end) + RowsText(rows))
  {
    hide MaybeText, EndText;
    assert ([row] + rows)[1..] == rows;
  }

  lemma {:induction false} LastOf(s: Input, i: nat, j: nat, line: Option<Line>, tail: Tail)
    requires TailOk(tail) && Spans(s.src, j, |s.src|, TailText(tail))
    requires if line.Some? then IsLine(s, i, j, line.value) else i == j
    ensures IsRest(s, i, Document([], line, tail))
  {
    hide Spans, TailOk, TailText, LineOk, LineConverts, LineText;
    if line.Some? {
      SpansJoin(s.src, i, j, |s.src|, LineText(line.value), TailText(tail));
    } else {
      assert [] + TailText(tail) == TailText(tail);
    }
    assert [] + (MaybeText(line) + TailText(tail)) == MaybeText(line) + TailText(tail);
  }

  lemma {:induction false} RowSpans(s: Input, i: nat, j: nat, k: nat, line: Option<Line>, e: LineEnd)
    requires TailOk(e.tail) && Spans(s.src, j, k, EndText(e))
    requires if line.Some? then IsLine(s, i, j, line.value) else i == j
    ensures MaybeOk(line) && (line.Some? ==> LineConverts(line.value, s.strtod))
    ensures Spans(s.src, i, k, MaybeText(line) + EndText(e))
  {
    hide Spans, TailOk, LineOk, LineConverts, LineText, EndText;
    if line.Some? {
      SpansJoin(s.src, i, j, k, LineText(line.value), EndText(e));
    } else {
      assert [] + EndText(e) == EndText(e);
    }
  }

  lemma {:induction false} DocumentFrom(s: Input, st: State, doc: Doc) returns (d: Document)
    requires Inside(s, st) && ReadsDecimals(s.strtod) && Outcome(ParseDoc(s, st, doc)).Ok?
    ensures IsRest(s, st.cur, d)
    decreases |s.src| - st.cur
  {
    hide ScanTok, ParseExpr, ParseDoc, ReadsDecimals, IsLine, IsRest, Spans, TailOk, TailText, EndText, MaybeOk, MaybeText, LineConverts;
    DocTurn(s, st, doc);
    var (t, st1) := ScanTok(s, st, true).value;
    if t.typ == Fin {
      var tail := FinToken(s, st, true);
      LastOf(s, st.cur, st.cur, None, tail);
      d := Document([], None, tail);
    } else if t.typ == Endl {
      var e := EndToken(s, st, true);
      RowSpans(s, st.cur, st.cur, st1.cur, None, e);
      d := DocumentFrom(s, st1, doc);
      MoreRows(s, st.cur, st1.cur, Row(None, e), d);
      d := d.(rows := [Row(None, e)] + d.rows);
    } else {
      var line := LineFrom(s, st, doc);
      var (next, st2, _) := ParseExpr(s, st1, doc, t).value;
      var (end, st3) := ScanTok(s, st2, true).value;
      if end.typ == Fin {
        var tail := FinToken(s, st2, true);
        LastOf(s, st.cur, st2.cur, Some(line), tail);
        d := Document([], Some(line), tail);
      } else {
        var e := EndToken(s, st2, true);
        RowSpans(s, st.cur, st2.cur, st3.cur, Some(line), e);
        d := DocumentFrom(s, st3, next);
        MoreRows(s, st.cur, st3.cur, Row(Some(line), e), d);
        d := d.(rows := [Row(Some(line), e)] + d.rows);
      }
    }
  }

  /** The document that an accepted text is. */
  lemma {:induction false} AcceptedIsWritten(s: Input) returns (d: Document)
    requires TomlParse(s).Ok? && ReadsDecimals(s.strtod)
    ensures Written(s, d)
  {
    hide ParseDoc, ReadsDecimals, DocumentOk, DocumentConverts, DocumentText;
    d := DocumentFrom(s, START, EMPTY_DOC);
    assert s.src[0..|s.src|] == s.src;
  }

  /** A text is accepted if and only if it is a document that can be written, whose keys and values
      mean something and whose expressions can be applied one after the other. */
  lemma {:induction false} AcceptedExactly(s: Input)
    requires ReadsDecimals(s.strtod)
    ensures TomlParse(s).Ok? <==> exists d: Document :: Written(s, d) && EvalDocument(d).Ok?
  {
    hide TomlParse, ReadsDecimals, Written, EvalDocument;
    if TomlParse(s).Ok? {
      var d := AcceptedIsWritten(s);
      DocumentRoundTrip(s, d);
    }
    forall d: Document | Written(s, d) && EvalDocument(d).Ok? ensures TomlParse(s).Ok? {
      DocumentRoundTrip(s, d);
    }
  }
}
