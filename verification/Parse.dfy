/** toml_parse as functions: the scanner state and the pool threaded through the descent. */
module Parsing {
  import opened Basics
  import opened Datum
  import opened Scanning
  import opened Unescaping
  import opened Trees
  import opened Documents

  const LEVEL_MAX := 30

  /** The scanner's position and nesting counters, and the top of the string pool. */
  datatype State = State(cur: nat, bracket: int, brace: int, top: nat)

  ghost predicate Inside(s: Input, st: State) { st.cur <= |s.src| }

  /** The size of the pool: pool_create(len + 10). */
  function PoolMax(s: Input): nat { |s.src| + 10 }

  // ---------- scan_key and scan_value

  /** check_overflow. */
  function CountLevel(st: State, t: TokTyp): (r: Result<State>)
    ensures r.Ok? ==> r.value.cur == st.cur && r.value.top == st.top
  {
    match t
    case LBrack => if st.bracket + 1 > LEVEL_MAX then Err(StackOverflow) else Ok(st.(bracket := st.bracket + 1))
    case RBrack => Ok(st.(bracket := st.bracket - 1))
    case LBrace => if st.brace + 1 > LEVEL_MAX then Err(StackOverflow) else Ok(st.(brace := st.brace + 1))
    case RBrace => Ok(st.(brace := st.brace - 1))
    case _ => Ok(st)
  }

  /** scan_key when keymode is set, scan_value otherwise. */
  function ScanTok(s: Input, st: State, keymode: bool): (r: Result<(Token, State)>)
    requires Inside(s, st)
    ensures r.Ok? ==>
              var (t, st') := r.value;
              Inside(s, st') && st.cur <= st'.cur && st'.top == st.top
              && (t.typ != Fin && t.typ != Lit ==> st.cur < st'.cur)
  {
    hide ScanNext, CountLevel;
    TokenLies(s, st.cur, keymode);
    var (t, cur) :- ScanNext(s, st.cur, keymode);
    var st' :- CountLevel(st.(cur := cur), t.typ);
    Ok((t, st'))
  }

  // ---------- strings and keys

  predicate IsEscaped(t: TokTyp) { t == String || t == MlString }

  predicate IsText(t: TokTyp) { t == Lit || IsQuoted(t) }

  /** The characters of a token. */
  function TokText(s: Input, t: Token): Text {
    if t.start + t.len <= |s.src| then s.src[t.start..t.start + t.len] else []
  }

  /** parse_norm: takes the token's length and one byte from the pool, then unescapes. */
  function Norm(s: Input, st: State, t: Token): (r: Result<(Text, State)>)
    ensures r.Ok? ==> r.value.1 == st.(top := st.top + t.len + 1)
  {
    var st' := st.(top := st.top + t.len + 1);
    if st'.top > PoolMax(s) then Err(OutOfMemory)
    else if !IsText(t.typ) then Err(Internal)
    else if !IsEscaped(t.typ) || t.escp.None? then Ok((TokText(s, t), st'))
    else
      var text :- Unescape(TokText(s, t), 0);
      Ok((text, st'))
  }

  predicate IsKeyTok(t: TokTyp) { t == String || t == LitString || t == Lit }

  /** scan_mark and scan_restore around a token that was only looked at: the position comes
      back, the nesting counters do not. */
  function Restored(st: State, looked: State): State {
    looked.(cur := st.cur)
  }

  /** The loop of parse_key: the parts after the first. */
  function KeyRest(s: Input, st: State, keys: seq<Text>): (r: Result<(seq<Text>, State)>)
    requires Inside(s, st) && keys != []
    ensures r.Ok? ==> Inside(s, r.value.1) && st.cur <= r.value.1.cur && r.value.0 != []
    decreases |s.src| - st.cur
  {
    hide ScanTok, Norm;
    var (dot, st1) :- ScanTok(s, st, true);
    if dot.typ != Dot then Ok((keys, Restored(st, st1)))
    else
      var (t, st2) :- ScanTok(s, st1, true);
      if !IsKeyTok(t.typ) then Err(Syntax)
      else if |keys| >= KEYPART_MAX then Err(TooManyKeyParts)
      else
        var (k, st3) :- Norm(s, st2, t);
        KeyRest(s, st3, keys + [k])
  }

  /** parse_key, given its first token. */
  function ParseKey(s: Input, st: State, t: Token): (r: Result<(seq<Text>, State)>)
    requires Inside(s, st)
    ensures r.Ok? ==> Inside(s, r.value.1) && st.cur <= r.value.1.cur && r.value.0 != []
  {
    hide Norm, KeyRest;
    if !IsKeyTok(t.typ) then Err(Syntax)
    else
      var (k, st') :- Norm(s, st, t);
      KeyRest(s, st', [k])
  }

  // ---------- values

  /** set_flag_recursive with FLAG_INLINED. */
  function Inline(d: Datum): Datum
    decreases d, 0
  {
    match d
    case Leaf(f, v) => Leaf(f.(inlined := true), v)
    case Array(f, xs) => Array(f.(inlined := true), InlineElems(xs))
    case Table(f, es) => Table(f.(inlined := true), InlineEntries(es))
  }

  function InlineElems(xs: seq<Datum>): (ys: seq<Datum>)
    ensures |ys| == |xs|
    decreases xs, 1
  {
    seq(|xs|, i requires 0 <= i < |xs| => Inline(xs[i]))
  }

  function InlineEntries(es: seq<Entry>): (fs: seq<Entry>)
    ensures |fs| == |es|
    decreases es, 1
  {
    seq(|es|, i requires 0 <= i < |es| => Entry(es[i].key, Inline(es[i].val)))
  }

  /** parse_val, given its token. */
  function ParseVal(s: Input, st: State, t: Token): (r: Result<(Datum, State)>)
    requires Inside(s, st)
    ensures r.Ok? ==> Inside(s, r.value.1) && st.cur <= r.value.1.cur && t.typ != Fin && t.typ != Lit
    decreases |s.src| - st.cur, if t.typ == LBrack || t.typ == LBrace then 2 else 0
  {
    hide Norm;
    if IsQuoted(t.typ) then
      var (text, st') :- Norm(s, st, t);
      Ok((Leaf(NO_FLAGS, Str(text)), st'))
    else if t.typ == Value then Ok((Leaf(NO_FLAGS, t.scalar), st))
    else if t.typ == LBrack then ArrayRest(s, st, [], false)
    else if t.typ == LBrace then TableRest(s, st, EMPTY_TABLE, false)
    else Err(Syntax)
  }

  /** The loop of parse_inline_array, with the elements so far. */
  function ArrayRest(s: Input, st: State, xs: seq<Datum>, needComma: bool): (r: Result<(Datum, State)>)
    requires Inside(s, st)
    ensures r.Ok? ==> Inside(s, r.value.1) && st.cur < r.value.1.cur
    decreases |s.src| - st.cur, 1
  {
    hide ScanTok, Inline;
    var (t, st1) :- ScanTok(s, st, false);
    if t.typ == Endl then ArrayRest(s, st1, xs, needComma)
    else if t.typ == RBrack then Ok((Inline(Array(NO_FLAGS, xs)), st1))
    else if t.typ == Comma then
      if needComma then ArrayRest(s, st1, xs, false) else Err(Syntax)
    else if needComma then Err(Syntax)
    else
      var (v, st2) :- ParseVal(s, st1, t);
      if |xs| >= ARRAY_MAX then Err(TooLarge) else ArrayRest(s, st2, xs + [v], true)
  }

  /** The table a key part path leads to inside an inline table, marked as defined there. */
  function EnterInline(tab: Datum, keys: seq<Text>): (r: Result<(Datum, Path)>)
    requires keys != []
    ensures r.Ok? ==> IsTableAt(r.value.0, r.value.1)
  {
    hide Walk, Put;
    var (d, p) :- Walk(tab, [], keys[..|keys| - 1], InlineKey, 0);
    if !IsTableAt(d, p) then Err(Internal)
    else if At(d, p).value.flag.inlined then Err(Inlined)
    else
      PutSame(d, p, Table(At(d, p).value.flag.(explicit := true), At(d, p).value.entries));
      Ok((SetExplicit(d, p), p))
  }

  /** The loop of parse_inline_table, with the table so far. */
  function TableRest(s: Input, st: State, tab: Datum, needComma: bool): (r: Result<(Datum, State)>)
    requires Inside(s, st)
    ensures r.Ok? ==> Inside(s, r.value.1) && st.cur < r.value.1.cur
    decreases |s.src| - st.cur, 1
  {
    hide ScanTok, Inline, ParseKey, EnterInline, TabAdd;
    var (t, st1) :- ScanTok(s, st, true);
    if t.typ == RBrace then Ok((Inline(tab), st1))
    else if t.typ == Comma then
      if needComma then TableRest(s, st1, tab, false) else Err(Syntax)
    else if t.typ == Endl then TableRest(s, st1, tab, needComma)
    else if needComma then Err(Syntax)
    else
      var (keys, st2) :- ParseKey(s, st1, t);
      var (d, p) :- EnterInline(tab, keys);
      var (eq, st3) :- ScanTok(s, st2, false);
      if eq.typ != Equal then Err(Syntax)
      else
        var (vt, st4) :- ScanTok(s, st3, false);
        var (v, st5) :- ParseVal(s, st4, vt);
        var d' :- TabAdd(d, p, keys[|keys| - 1], v);
        TableRest(s, st5, d', true)
  }

  // ---------- expressions

  /** parse_std_table_expr, after its bracket. */
  function StdTable(s: Input, st: State, doc: Doc): (r: Result<(Doc, State, Expr)>)
    requires Inside(s, st)
    ensures r.Ok? ==> Inside(s, r.value.1) && st.cur < r.value.1.cur && r.value.2.keys != []
  {
    hide ScanTok, ParseKey, OpenTable;
    var (t, st1) :- ScanTok(s, st, true);
    var (keys, st2) :- ParseKey(s, st1, t);
    var (close, st3) :- ScanTok(s, st2, true);
    if close.typ != RBrack then Err(Syntax)
    else
      var next :- OpenTable(doc, keys);
      Ok((next, st3, Header(keys)))
  }

  /** parse_array_table_expr, after its brackets. */
  function ElementTable(s: Input, st: State, doc: Doc): (r: Result<(Doc, State, Expr)>)
    requires Inside(s, st)
    ensures r.Ok? ==> Inside(s, r.value.1) && st.cur < r.value.1.cur && r.value.2.keys != []
  {
    hide ScanTok, ParseKey, OpenElement;
    var (t, st1) :- ScanTok(s, st, true);
    var (keys, st2) :- ParseKey(s, st1, t);
    var (close, st3) :- ScanTok(s, st2, true);
    if close.typ != RRBrack then Err(Syntax)
    else
      var next :- OpenElement(doc, keys);
      Ok((next, st3, ElementHeader(keys)))
  }

  /** parse_keyvalue_expr, given its first token. */
  function KeyValueExpr(s: Input, st: State, doc: Doc, t: Token): (r: Result<(Doc, State, Expr)>)
    requires Inside(s, st)
    ensures r.Ok? ==> Inside(s, r.value.1) && st.cur < r.value.1.cur && r.value.2.keys != []
  {
    hide ScanTok, ParseKey, Locate, TabAdd, ParseVal;
    var (keys, st1) :- ParseKey(s, st, t);
    var (eq, st2) :- ScanTok(s, st1, true);
    if eq.typ != Equal then Err(Syntax)
    else
      var (d, p) :- Locate(doc, keys);
      var (vt, st3) :- ScanTok(s, st2, false);
      var (v, st4) :- ParseVal(s, st3, vt);
      var r :- TabAdd(d, p, keys[|keys| - 1], v);
      Ok((Doc(r, doc.curtab), st4, KeyVal(keys, v)))
  }

  /** One expression, given its first token. */
  function ParseExpr(s: Input, st: State, doc: Doc, t: Token): (r: Result<(Doc, State, Expr)>)
    requires Inside(s, st)
    ensures r.Ok? ==> Inside(s, r.value.1) && st.cur < r.value.1.cur && r.value.2.keys != []
  {
    hide StdTable, ElementTable, KeyValueExpr;
    if t.typ == LBrack then StdTable(s, st, doc)
    else if t.typ == LLBrack then ElementTable(s, st, doc)
    else KeyValueExpr(s, st, doc, t)
  }

  /** The loop of toml_parse: the document, the state, and the expressions read on the way. */
  function ParseDoc(s: Input, st: State, doc: Doc): Result<(Doc, State, seq<Expr>)>
    requires Inside(s, st)
    decreases |s.src| - st.cur
  {
    hide ScanTok, ParseExpr;
    var (t, st1) :- ScanTok(s, st, true);
    if t.typ == Fin then Ok((doc, st1, []))
    else if t.typ == Endl then ParseDoc(s, st1, doc)
    else
      var (next, st2, e) :- ParseExpr(s, st1, doc, t);
      var (end, st3) :- ScanTok(s, st2, true);
      if end.typ != Fin && end.typ != Endl then Err(Syntax)
      else
        var (last, st4, es) :- ParseDoc(s, st3, next);
        Ok((last, st4, [e] + es))
  }

  const START := State(0, 0, 0, 0)

  /** toml_parse: the tree and the top of its pool. */
  function TomlParse(s: Input): Result<(Datum, nat)> {
    var (doc, st, _) :- ParseDoc(s, START, EMPTY_DOC);
    Ok((doc.top, st.top))
  }
}
