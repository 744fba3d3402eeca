/** parser_t: toml_parse as the code has it, on a scanner, a pool and a tree under construction. */
module Parsers {
  import opened Basics
  import opened Datum
  import opened StringPool
  import opened Scanning
  import opened Scanners
  import opened Unescaping
  import opened Normalizing
  import opened Tokens
  import opened Trees
  import opened Documents
  import opened DocumentLaws
  import opened Parsing
  import opened ParseLaws
  import opened ValueLaws
  import opened TomlLaws
  import opened Turns
  import opened Nesting

  /** A method has returned r and left the scanner and the pool at st, as the function says
      that returned x. After a refusal the state is of no interest: the parse is over. */
  ghost predicate Agrees<T>(r: Result<T>, st: State, x: Result<(T, State)>) {
    if x.Ok? then r == Ok(x.value.0) && st == x.value.1 else r == Err(x.error)
  }

  /** How many arrays and inline tables are open around a value, and how many [headers]
      stand before it. */
  datatype Open = Open(arrays: nat, tables: nat, headers: nat)

  /** The counters, in front of a value: braces are counted exactly, brackets short by the
      number of headers. */
  ghost predicate Counted(st: State, open: Open) {
    st.bracket + open.headers == open.arrays && st.brace == open.tables
  }

  class Parser {
    const s: Input
    const scanner: Scanner
    const pool: Pool
    var toptab: Datum
    var curtab: Path
    ghost var headers: nat

    ghost predicate Valid()
      reads this, scanner, pool
    {
      scanner.s == s && scanner.Valid() && pool.Valid() && pool.max == PoolMax(s)
    }

    ghost function Now(): State
      reads scanner, pool
    {
      scanner.At(pool.top)
    }

    /** No byte of the pool that has been handed out has changed. */
    twostate predicate Kept()
      reads this, pool, pool.buf
    {
      old(pool.top) <= pool.top && pool.top <= pool.buf.Length
      && forall k :: 0 <= k < old(pool.top) ==> pool.buf[k] == old(pool.buf[k])
    }

    constructor (s: Input)
      ensures Valid() && !scanner.failed && fresh(scanner) && fresh(pool) && fresh(pool.buf)
      ensures this.s == s && Now() == START && Doc(toptab, curtab) == EMPTY_DOC && headers == 0
    {
      this.s := s;
      scanner := new Scanner(s);
      pool := new Pool(|s.src| + 10);
      toptab, curtab, headers := EMPTY_TABLE, [], 0;
    }

    /** scan_key and scan_value. */
    method Scan(keymode: bool) returns (r: Result<Token>)
      requires Valid() && !scanner.failed && Level(s, Now())
      modifies scanner
      ensures Valid() && scanner.failed == r.Err?
      ensures Agrees(r, Now(), ScanTok(s, old(Now()), keymode))
      ensures if r.Ok? then Scanned(s, old(Now()), keymode, r.value, Now()) else IsLegit(r.error)
    {
      hide ScanTok, Scanned, Level;
      ScanTokGood(s, Now(), keymode);
      r := scanner.Tok(keymode, pool.top);
    }

    // ---------- strings and keys

    /** memcpy of the token, with a NUL behind it. */
    method CopyToken(o: nat, t: Token)
      requires pool.Valid() && o + t.len < pool.max && t.start + t.len <= |s.src|
      modifies pool.buf
      ensures pool.buf[o..o + t.len] == TokText(s, t) && pool.buf[o + t.len] == 0
      ensures forall k :: 0 <= k < o ==> pool.buf[k] == old(pool.buf[k])
    {
      var b := TokText(s, t);
      WriteAt(pool.buf, o, b);
      PatchReads(old(pool.buf[..]), o, 0, b, o + |b|);
      assert pool.buf[..][o..o + |b|] == b;
      assert forall k :: 0 <= k < o ==> pool.buf[..][..o][k] == old(pool.buf[..])[..o][k];
      pool.buf[o + t.len] := 0;
      assert pool.buf[o..o + |b|] == b;
    }

    /** parse_norm: the text is left in the pool, behind everything handed out before, with a
        NUL after it. */
    method ParseNorm(t: Token, ghost before: State, ghost keymode: bool) returns (r: Result<Text>)
      requires Valid() && !scanner.failed && Scanned(s, before, keymode, t, Now())
      modifies pool`top, pool.buf
      ensures Valid() && Kept()
      ensures Agrees(r, Now(), Norm(s, old(Now()), t))
      ensures r.Ok? ==>
                var o, n := old(pool.top), |r.value|;
                o + n < pool.top && pool.buf[o..o + n] == r.value && pool.buf[o + n] == 0
    {
      hide ScanTok, Unescape, LineFeeds, TokText, Scanned;
      TokenFacts(s, before, keymode, t, Now());
      var p := pool.Alloc(t.len + 1);
      if p == None {
        return Err(OutOfMemory);
      }
      var o := p.value;
      CopyToken(o, t);
      if !IsText(t.typ) {
        return Err(Internal);
      }
      if !IsEscaped(t.typ) || t.escp == None {
        return Ok(pool.buf[o..o + t.len]);
      }
      label Copied:
      var n := UnescapeInPlace(pool.buf, o, TokText(s, t), t.escp.value - t.start);
      forall k | 0 <= k < o ensures pool.buf[k] == old@Copied(pool.buf[k]) {
        assert pool.buf[..o][k] == old@Copied(pool.buf[..o])[k];
      }
      if n.Err? {
        return Err(n.error);
      }
      return Ok(pool.buf[o..o + n.value]);
    }

    /** parse_key, given its first token. */
    method ParseKey(t: Token, ghost before: State) returns (r: Result<seq<Text>>)
      requires Valid() && !scanner.failed && Ready(s, before, 0) && Scanned(s, before, true, t, Now())
      modifies scanner, pool`top, pool.buf
      ensures Valid() && Kept()
      ensures Agrees(r, Now(), Parsing.ParseKey(s, old(Now()), t))
      ensures if r.Ok? then !scanner.failed && IsKeyTok(t.typ) && KeyGood(s, old(Now()), Ok((r.value, Now())))
              else IsLegit(r.error)
    {
      hide Scanned, KeyRest, Norm, LineFeeds;
      ParseKeyGood(s, before, t, Now());
      TextEnd(s, before, true, t, Now());
      if !IsKeyTok(t.typ) {
        return Err(Syntax);
      }
      var k := ParseNorm(t, before, true);
      if k.Err? {
        return Err(k.error);
      }
      r := MoreParts(k.value);
    }

    /** The loop of parse_key. */
    method MoreParts(first: Text) returns (r: Result<seq<Text>>)
      requires Valid() && !scanner.failed && Ready(s, Now(), 1)
      modifies scanner, pool`top, pool.buf
      ensures Valid() && Kept()
      ensures Agrees(r, Now(), KeyRest(s, old(Now()), [first]))
      ensures r.Ok? ==> !scanner.failed
    {
      hide Scanned, KeyRest, Norm, LineFeeds, ScanTok;
      var keys := [first];
      while true
        invariant Valid() && !scanner.failed && Kept() && Ready(s, Now(), 1) && keys != []
        invariant KeyRest(s, Now(), keys) == KeyRest(s, old(Now()), [first])
        decreases |s.src| - scanner.cur
      {
        ghost var st := Now();
        var mark := scanner.GetMark();
        var dot := Scan(true);
        if dot.Err? {
          KeyTurn(s, st, keys);
          return Err(dot.error);
        }
        KeyTurn(s, st, keys);
        ScannedMoves(s, st, true, dot.value, Now());
        if dot.value.typ != Dot {
          scanner.Restore(mark);
          return Ok(keys);
        }
        ghost var st1 := Now();
        var t := Scan(true);
        if t.Err? {
          return Err(t.error);
        }
        if !IsKeyTok(t.value.typ) {
          return Err(Syntax);
        }
        if |keys| >= KEYPART_MAX {
          return Err(TooManyKeyParts);
        }
        TextEnd(s, st1, true, t.value, Now());
        ScannedMoves(s, st1, true, t.value, Now());
        var k := ParseNorm(t.value, st1, true);
        if k.Err? {
          return Err(k.error);
        }
        keys := keys + [k.value];
      }
    }

    // ---------- values

    /** parse_val, given its token: the counters know how many arrays and inline tables are
        open around it, and are back when it has been read. */
    method ParseVal(t: Token, ghost before: State, ghost open: Open) returns (r: Result<Datum>)
      requires Valid() && !scanner.failed && Ready(s, before, 0) && Scanned(s, before, false, t, Now())
      requires Counted(before, open)
      modifies scanner, pool`top, pool.buf
      ensures Valid() && Kept()
      ensures Agrees(r, Now(), Parsing.ParseVal(s, old(Now()), t))
      ensures if r.Ok? then !scanner.failed && Ready(s, Now(), 0) && Counted(Now(), open) else IsLegit(r.error)
      ensures open.tables <= LEVEL_MAX && open.arrays <= LEVEL_MAX + open.headers
      decreases |s.src| - scanner.cur, if t.typ == LBrack || t.typ == LBrace then 4 else 0
    {
      hide Scanned, Norm, LineFeeds, ArrayRest, TableRest, WellFormed, StrBytes;
      ParseValGood(s, before, t, Now());
      ScannedMoves(s, before, false, t, Now());
      if IsQuoted(t.typ) {
        var text := ParseNorm(t, before, false);
        if text.Err? {
          return Err(text.error);
        }
        return Ok(Leaf(NO_FLAGS, Str(text.value)));
      }
      if t.typ == Value {
        return Ok(Leaf(NO_FLAGS, t.scalar));
      }
      if t.typ == LBrack {
        r := ParseInlineArray(open.(arrays := open.arrays + 1));
      } else if t.typ == LBrace {
        r := ParseInlineTable(open.(tables := open.tables + 1));
      } else {
        return Err(Syntax);
      }
    }

    /** parse_inline_array, inside its bracket. */
    method ParseInlineArray(ghost open: Open) returns (r: Result<Datum>)
      requires Valid() && !scanner.failed && Ready(s, Now(), 0) && Counted(Now(), open)
      modifies scanner, pool`top, pool.buf
      ensures Valid() && Kept()
      ensures Agrees(r, Now(), ArrayRest(s, old(Now()), [], false))
      ensures r.Ok? ==> !scanner.failed
      decreases |s.src| - scanner.cur, 3
    {
      hide Scanned, ArrayRest, LineFeeds, Inline, ScanTok, Parsing.ParseVal;
      var xs: seq<Datum>, needComma := [], false;
      while true
        invariant Valid() && !scanner.failed && Kept() && Ready(s, Now(), 0) && Counted(Now(), open)
        invariant old(scanner.cur) <= scanner.cur
        invariant ArrayRest(s, Now(), xs, needComma) == ArrayRest(s, old(Now()), [], false)
        decreases |s.src| - scanner.cur
      {
        ghost var st := Now();
        ArrayTurn(s, st, xs, needComma);
        var tok := Scan(false);
        if tok.Err? {
          return Err(tok.error);
        }
        var t := tok.value;
        ScannedMoves(s, st, false, t, Now());
        if t.typ == Endl {
          continue;
        }
        if t.typ == RBrack {
          return Ok(Inline(Array(NO_FLAGS, xs)));
        }
        if t.typ == Comma {
          if needComma {
            needComma := false;
            continue;
          }
          return Err(Syntax);
        }
        if needComma {
          return Err(Syntax);
        }
        var v := ParseVal(t, st, open);
        if v.Err? {
          return Err(v.error);
        }
        if |xs| >= ARRAY_MAX {
          return Err(TooLarge);
        }
        xs, needComma := xs + [v.value], true;
      }
    }

    /** parse_inline_table, inside its brace. */
    method ParseInlineTable(ghost open: Open) returns (r: Result<Datum>)
      requires Valid() && !scanner.failed && Ready(s, Now(), 0) && Counted(Now(), open)
      modifies scanner, pool`top, pool.buf
      ensures Valid() && Kept()
      ensures Agrees(r, Now(), TableRest(s, old(Now()), EMPTY_TABLE, false))
      ensures r.Ok? ==> !scanner.failed
      decreases |s.src| - scanner.cur, 3
    {
      hide Scanned, TableRest, LineFeeds, Inline, ScanTok, Pair;
      var tab, needComma := EMPTY_TABLE, false;
      while true
        invariant Valid() && !scanner.failed && Kept() && Ready(s, Now(), 0) && Counted(Now(), open)
        invariant old(scanner.cur) <= scanner.cur
        invariant TableRest(s, Now(), tab, needComma) == TableRest(s, old(Now()), EMPTY_TABLE, false)
        decreases |s.src| - scanner.cur
      {
        ghost var st := Now();
        TableTurn(s, st, tab, needComma);
        var tok := Scan(true);
        if tok.Err? {
          return Err(tok.error);
        }
        var t := tok.value;
        ScannedMoves(s, st, true, t, Now());
        if t.typ == RBrace {
          return Ok(Inline(tab));
        }
        if t.typ == Comma {
          if needComma {
            needComma := false;
            continue;
          }
          return Err(Syntax);
        }
        if t.typ == Endl {
          continue;
        }
        if needComma {
          return Err(Syntax);
        }
        var more := ParsePair(tab, t, st, open);
        if more.Err? {
          return Err(more.error);
        }
        tab, needComma := more.value, true;
      }
    }

    /** One key/value of an inline table, given its first token. */
    method ParsePair(tab: Datum, t: Token, ghost before: State, ghost open: Open) returns (r: Result<Datum>)
      requires Valid() && !scanner.failed && Ready(s, before, 0) && Scanned(s, before, true, t, Now())
      requires Counted(before, open) && t.typ !in {RBrace, Comma, Endl}
      modifies scanner, pool`top, pool.buf
      ensures Valid() && Kept()
      ensures Agrees(r, Now(), Pair(s, old(Now()), tab, t))
      ensures r.Ok? ==> !scanner.failed && Ready(s, Now(), 0) && Counted(Now(), open) && before.cur < scanner.cur
      decreases |s.src| - scanner.cur, 2
    {
      hide Scanned, LineFeeds, ScanTok, Parsing.ParseKey, PairValue, EnterInline, TabAdd, KeyGood, ScanNext, TokenStart;
      ScannedMoves(s, before, true, t, Now());
      ghost var st1 := Now();
      var key := ParseKey(t, before);
      if key.Err? {
        return Err(key.error);
      }
      var keys := key.value;
      var place := EnterInlineTable(tab, keys);
      if place.Err? {
        return Err(place.error);
      }
      EqualsNext(s, st1, keys, Now());
      var v := ParsePairValue(open);
      if v.Err? {
        return Err(v.error);
      }
      r := TabAdd(place.value.0, place.value.1, keys[|keys| - 1], v.value);
    }

    /** The equals sign and the value. */
    method ParsePairValue(ghost open: Open) returns (r: Result<Datum>)
      requires Valid() && !scanner.failed && Level(s, Now())
      requires var x := ScanTok(s, Now(), false);
               x.Ok? && x.value.0.typ == Equal ==> Ready(s, x.value.1, 0) && Counted(x.value.1, open)
      modifies scanner, pool`top, pool.buf
      ensures Valid() && Kept()
      ensures Agrees(r, Now(), PairValue(s, old(Now())))
      ensures r.Ok? ==> !scanner.failed && Ready(s, Now(), 0) && Counted(Now(), open) && old(scanner.cur) < scanner.cur
      decreases |s.src| - scanner.cur, 1
    {
      hide Scanned, LineFeeds, ScanTok, Parsing.ParseVal;
      ghost var st2 := Now();
      var eq := Scan(false);
      if eq.Err? {
        return Err(eq.error);
      }
      if eq.value.typ != Equal {
        return Err(Syntax);
      }
      ScannedMoves(s, st2, false, eq.value, Now());
      ghost var st3 := Now();
      var vt := Scan(false);
      if vt.Err? {
        return Err(vt.error);
      }
      ScannedMoves(s, st3, false, vt.value, Now());
      r := ParseVal(vt.value, st3, open);
    }

    // ---------- expressions

    ghost function Document(): Doc
      reads this
    {
      Doc(toptab, curtab)
    }

    /** The second half of parse_std_table_expr. */
    method DefineTable(keys: seq<Text>) returns (err: Option<Error>)
      requires keys != []
      modifies this`toptab, this`curtab
      ensures var x := OpenTable(old(Document()), keys);
              if x.Ok? then err == None && Document() == x.value else err == Some(x.error)
    {
      hide Walk, TabAdd, SetExplicit;
      var n := |keys| - 1;
      var place := Descend(toptab, [], keys[..n], TableHeader);
      if place.Err? {
        return Some(place.error);
      }
      var (d, p) := place.value;
      if !IsTableAt(d, p) {
        return Some(Internal);
      }
      var tab := At(d, p).value;
      var j := TabFind(tab, keys[n]);
      if j < 0 {
        if tab.flag.inlined {
          return Some(Inlined);
        }
        var more := TabAdd(d, p, keys[n], Table(Flags(false, true, true), []));
        if more.Err? {
          return Some(more.error);
        }
        toptab, curtab := more.value, p + [K(keys[n])];
        return None;
      }
      var found := tab.entries[j].val;
      if found.flag.explicit || !found.flag.stdexpr {
        return Some(Redefined);
      }
      if !found.Table? {
        return Some(Internal);
      }
      var doc := OpenFound(d, p, keys[n]).value;
      toptab, curtab := doc.top, doc.curtab;
      return None;
    }

    /** The second half of parse_array_table_expr. */
    method AppendElement(keys: seq<Text>) returns (err: Option<Error>)
      requires keys != []
      modifies this`toptab, this`curtab
      ensures var x := OpenElement(old(Document()), keys);
              if x.Ok? then err == None && Document() == x.value else err == Some(x.error)
    {
      hide Walk, TabAdd, AddElem;
      var n := |keys| - 1;
      var place := Descend(toptab, [], keys[..n], ArrayHeader);
      if place.Err? {
        return Some(place.error);
      }
      var (d, p) := place.value;
      if !IsTableAt(d, p) {
        return Some(Internal);
      }
      var j := TabFind(At(d, p).value, keys[n]);
      if j < 0 {
        var more := TabAdd(d, p, keys[n], Array(NO_FLAGS, []));
        if more.Err? {
          return Some(more.error);
        }
        d := more.value;
      }
      var q := p + [K(keys[n])];
      if At(d, q) == None {
        return Some(Internal);
      }
      var arr := At(d, q).value;
      if !arr.Array? {
        return Some(NotATable);
      }
      if arr.flag.inlined {
        return Some(Inlined);
      }
      if |arr.elems| >= ARRAY_MAX {
        return Some(TooLarge);
      }
      toptab, curtab := AddElem(d, q, EMPTY_TABLE), q + [I(|arr.elems|)];
      return None;
    }

    /** The loop of parse_keyvalue_expr and the tests after it. */
    method LocateTable(keys: seq<Text>) returns (r: Result<(Datum, Path)>)
      requires keys != []
      ensures r == Locate(Document(), keys)
    {
      hide Walk;
      var n := |keys| - 1;
      var place := Descend(toptab, curtab, keys[..n], KeyValue);
      if place.Err? {
        return Err(place.error);
      }
      var (d, p) := place.value;
      if !IsTableAt(d, p) {
        return Err(Internal);
      }
      var tab := At(d, p).value;
      if tab.flag.inlined {
        return Err(Inlined);
      }
      if n > 0 && tab.flag.explicit {
        return Err(Redefined);
      }
      return Ok((d, p));
    }

    /** A [header] or a [[header]] up to its closing bracket. */
    method ParseHeader(close: TokTyp) returns (r: Result<seq<Text>>)
      requires Valid() && !scanner.failed && Ready(s, Now(), 0)
      modifies scanner, pool`top, pool.buf
      ensures Valid() && Kept()
      ensures Agrees(r, Now(), HeaderKeys(s, old(Now()), close))
      ensures r.Ok? ==> !scanner.failed && r.value != []
    {
      hide Scanned, LineFeeds, ScanTok, Parsing.ParseKey, KeyGood, ScanNext;
      ghost var st := Now();
      var t := Scan(true);
      if t.Err? {
        return Err(t.error);
      }
      ScannedMoves(s, st, true, t.value, Now());
      ghost var st1 := Now();
      r := ParseKey(t.value, st);
      if r.Err? {
        return;
      }
      EqualsNext(s, st1, r.value, Now());
      ghost var st2 := Now();
      var end := Scan(true);
      if end.Err? {
        return Err(end.error);
      }
      ScannedMoves(s, st2, true, end.value, Now());
      if end.value.typ != close {
        return Err(Syntax);
      }
    }

    /** parse_keyvalue_expr, given its first token. */
    method ParseKeyValue(t: Token, ghost before: State) returns (err: Option<Error>)
      requires Valid() && !scanner.failed && Scanned(s, before, true, t, Now())
      requires HeadGood(s, Head(before, Document(), headers))
      modifies this`toptab, scanner, pool`top, pool.buf
      ensures Valid() && Kept()
      ensures ExprAgrees(err, Now(), Document(), KeyValueExpr(s, old(Now()), old(Document()), t))
      ensures err == None ==> !scanner.failed
    {
      hide Scanned, LineFeeds, ScanTok, Parsing.ParseKey, Locate, TabAdd, Parsing.ParseVal, KeyGood, ScanNext, DocValid,
           IsTableAt, Unescape, TokText;
      ScannedMoves(s, before, true, t, Now());
      ghost var st := Now();
      var key := ParseKey(t, before);
      if key.Err? {
        return Some(key.error);
      }
      var keys := key.value;
      EqualsNext(s, st, keys, Now());
      AfterKeyAgain(s, st, keys, Now());
      ghost var st1 := Now();
      var eq := Scan(true);
      if eq.Err? {
        return Some(eq.error);
      }
      ScannedMoves(s, st1, true, eq.value, Now());
      if eq.value.typ != Equal {
        return Some(Syntax);
      }
      var place := LocateTable(keys);
      if place.Err? {
        return Some(place.error);
      }
      var v := ParseRight();
      if v.Err? {
        return Some(v.error);
      }
      var more := TabAdd(place.value.0, place.value.1, keys[|keys| - 1], v.value);
      if more.Err? {
        return Some(more.error);
      }
      toptab := more.value;
      return None;
    }

    /** The value of a key/value expression: no array and no inline table is open around it. */
    method ParseRight() returns (r: Result<Datum>)
      requires Valid() && !scanner.failed && Ready(s, Now(), 0) && Counted(Now(), Open(0, 0, headers))
      modifies scanner, pool`top, pool.buf
      ensures Valid() && Kept()
      ensures Agrees(r, Now(), ReadValue(s, old(Now())))
      ensures r.Ok? ==> !scanner.failed
    {
      hide Scanned, LineFeeds, ScanTok, Parsing.ParseVal;
      ghost var st := Now();
      var t := Scan(false);
      if t.Err? {
        return Err(t.error);
      }
      ScannedMoves(s, st, false, t.value, Now());
      r := ParseVal(t.value, st, Open(0, 0, headers));
    }

    /** One expression, given its first token. */
    method ParseExpr(t: Token, ghost before: State) returns (err: Option<Error>)
      requires Valid() && !scanner.failed && Scanned(s, before, true, t, Now()) && t.typ != Fin
      requires HeadGood(s, Head(before, Document(), headers))
      modifies this, scanner, pool`top, pool.buf
      ensures Valid() && Kept()
      ensures ExprAgrees(err, Now(), Document(), Parsing.ParseExpr(s, old(Now()), old(Document()), t))
      ensures err == None ==> !scanner.failed
      ensures headers == old(headers) + if t.typ == LBrack && err == None then 1 else 0
    {
      hide Scanned, LineFeeds, ScanTok, Parsing.ParseKey, OpenTable, OpenElement, KeyValueExpr, DocValid;
      ScannedMoves(s, before, true, t, Now());
      if t.typ == LBrack {
        var keys := ParseHeader(RBrack);
        if keys.Err? {
          return Some(keys.error);
        }
        err := DefineTable(keys.value);
        headers := headers + if err == None then 1 else 0;
      } else if t.typ == LLBrack {
        var keys := ParseHeader(RRBrack);
        if keys.Err? {
          return Some(keys.error);
        }
        err := AppendElement(keys.value);
      } else {
        err := ParseKeyValue(t, before);
      }
    }

    /** The loop of toml_parse. */
    method Run() returns (err: Option<Error>)
      requires Valid() && !scanner.failed && Now() == START && Document() == EMPTY_DOC && headers == 0
      modifies this, scanner, pool`top, pool.buf
      ensures Valid()
      ensures var x := TomlParse(s);
              if x.Ok? then err == None && (toptab, pool.top) == x.value else err == Some(x.error)
    {
      hide Scanned, LineFeeds, ScanTok, Parsing.ParseExpr, ParseDoc, HeadGood, DocValid;
      StartGood(s);
      while true
        invariant Valid() && !scanner.failed && Level(s, Now())
        invariant HeadGood(s, Head(Now(), Document(), headers))
        invariant Outcome(ParseDoc(s, Now(), Document())) == TomlParse(s)
        decreases |s.src| - scanner.cur
      {
        ghost var a := Head(Now(), Document(), headers);
        DocTurn(s, a.st, a.doc);
        var tok := Scan(true);
        if tok.Err? {
          return Some(tok.error);
        }
        var t := tok.value;
        ScannedMoves(s, a.st, true, t, Now());
        if t.typ == Fin {
          return None;
        }
        if t.typ != Endl {
          err := ParseExpr(t, a.st);
          if err != None {
            return;
          }
          ExprMoves(s, a, t);
          ghost var st2 := Now();
          var end := Scan(true);
          if end.Err? {
            return Some(end.error);
          }
          ScannedMoves(s, st2, true, end.value, Now());
          if end.value.typ != Fin && end.value.typ != Endl {
            return Some(Syntax);
          }
        }
        TurnGood(s, a, Head(Now(), Document(), headers));
      }
    }
  }

  /** toml_parse: the tree and the pool its strings are in, or a refusal. */
  method Parse(s: Input) returns (r: Result<Datum>, pool: Pool)
    ensures fresh(pool) && pool.Valid() && pool.max == PoolMax(s)
    ensures var x := TomlParse(s);
            if x.Ok? then r == Ok(x.value.0) && pool.top == x.value.1 else r == Err(x.error)
  {
    var pp := new Parser(s);
    var err := pp.Run();
    pool := pp.pool;
    r := if err == None then Ok(pp.toptab) else Err(err.value);
  }

  /** After an expression the parser is still inside the text and its limits. */
  lemma ExprMoves(s: Input, a: Head, t: Token)
    requires HeadGood(s, a) && ScanTok(s, a.st, true).Ok? && ScanTok(s, a.st, true).value.0 == t
    requires t.typ != Fin && t.typ != Endl && Parsing.ParseExpr(s, ScanTok(s, a.st, true).value.1, a.doc, t).Ok?
    ensures var (_, st2, e) := Parsing.ParseExpr(s, ScanTok(s, a.st, true).value.1, a.doc, t).value;
            Level(s, st2) && a.st.cur < st2.cur && (e.Header? <==> t.typ == LBrack)
  {
    hide ScanTok, DocValid, Unescape, TokText, StdTable, ElementTable, KeyValueExpr, Apply;
    ScanTokGood(s, a.st, true);
    ParseExprGood(s, a.st, a.doc, t, ScanTok(s, a.st, true).value.1);
    KindOfExpr(s, ScanTok(s, a.st, true).value.1, a.doc, t);
  }

  lemma KindOfExpr(s: Input, st: State, doc: Doc, t: Token)
    requires Inside(s, st) && Parsing.ParseExpr(s, st, doc, t).Ok?
    ensures Parsing.ParseExpr(s, st, doc, t).value.2.Header? <==> t.typ == LBrack
  {
    hide ScanTok, Parsing.ParseKey, OpenTable, OpenElement, Locate, TabAdd, Parsing.ParseVal;
  }

  /** The same for an expression: the document has changed as well. */
  ghost predicate ExprAgrees(err: Option<Error>, st: State, doc: Doc, x: Result<(Doc, State, Expr)>) {
    if x.Ok? then err == None && doc == x.value.0 && st == x.value.1 else err == Some(x.error)
  }

  ghost function HeaderKeys(s: Input, st: State, close: TokTyp): Result<(seq<Text>, State)>
    requires Inside(s, st)
  {
    hide ScanTok, Parsing.ParseKey;
    var (t, st1) :- ScanTok(s, st, true);
    var (keys, st2) :- Parsing.ParseKey(s, st1, t);
    var (end, st3) :- ScanTok(s, st2, true);
    if end.typ != close then Err(Syntax) else Ok((keys, st3))
  }

  // ---------- descents

  /** descend_keypart and the two loops that resemble it. */
  method Descend(d0: Datum, p0: Path, keys: seq<Text>, w: Walker) returns (r: Result<(Datum, Path)>)
    ensures r == Walk(d0, p0, keys, w, 0)
  {
    hide WalkStep;
    var d, p, i := d0, p0, 0;
    while i < |keys|
      invariant 0 <= i <= |keys| && Walk(d, p, keys[i..], w, i) == Walk(d0, p0, keys, w, 0)
    {
      assert keys[i..][0] == keys[i] && keys[i..][1..] == keys[i + 1..];
      var next := WalkStep(d, p, keys[i], w, i);
      if next.Err? {
        return Err(next.error);
      }
      d, p, i := next.value.0, next.value.1, i + 1;
    }
    return Ok((d, p));
  }

  method EnterInlineTable(tab: Datum, keys: seq<Text>) returns (r: Result<(Datum, Path)>)
    requires keys != []
    ensures r == EnterInline(tab, keys)
  {
    hide Walk, SetExplicit;
    var place := Descend(tab, [], keys[..|keys| - 1], InlineKey);
    if place.Err? {
      return Err(place.error);
    }
    var (d, p) := place.value;
    if !IsTableAt(d, p) {
      return Err(Internal);
    }
    if At(d, p).value.flag.inlined {
      return Err(Inlined);
    }
    return Ok((SetExplicit(d, p), p));
  }

  // ---------- what the methods need to know of the functions

  lemma EqualsNext(s: Input, st1: State, keys: seq<Text>, st2: State)
    requires Level(s, st1) && KeyGood(s, st1, Ok((keys, st2)))
    ensures Level(s, st2) && st1.top <= st2.top
    ensures var x := ScanTok(s, st2, false);
            x.Ok? && x.value.0.typ == Equal ==>
              Ready(s, x.value.1, 0) && x.value.1.bracket == st1.bracket && x.value.1.brace == st1.brace
  {
    hide ScanTok, ScanNext;
    AfterKey(s, st1, keys, st2, false);
  }

  lemma ScannedMoves(s: Input, before: State, keymode: bool, t: Token, after: State)
    requires Scanned(s, before, keymode, t, after)
    ensures Level(s, after) && after.top == before.top && before.cur <= after.cur
    ensures t.typ != Fin && t.typ != Lit ==> before.cur < after.cur
    ensures after.bracket == before.bracket + BracketOf(t.typ) && after.brace == before.brace + BraceOf(t.typ)
    ensures ScanTok(s, before, keymode) == Ok((t, after))
  {
    hide ScanNext, ScanTok, Unescape, TokText;
  }

  /** After parse_norm the pool is at most one byte ahead of the input. */
  lemma TextEnd(s: Input, before: State, keymode: bool, t: Token, after: State)
    requires Scanned(s, before, keymode, t, after) && Ready(s, before, 0)
    ensures IsText(t.typ) && Norm(s, after, t).Ok? ==>
              Ready(s, Norm(s, after, t).value.1, if t.typ == Lit then 1 else 0)
  {
    hide Scanned, Unescape, TokText, Norm;
    ScannedMoves(s, before, keymode, t, after);
    if IsText(t.typ) {
      NormGood(s, before, keymode, t, after);
    }
  }

  lemma TokenFacts(s: Input, before: State, keymode: bool, t: Token, after: State)
    requires Scanned(s, before, keymode, t, after)
    ensures t.start + t.len <= |s.src| && |TokText(s, t)| == t.len
    ensures IsEscaped(t.typ) ==> Sound(TokText(s, t), t.escp, t.start) && Unescape(TokText(s, t), 0) != Err(Internal)
  {
    hide ScanNext, Unescape, Sound;
    if IsEscaped(t.typ) {
      TokenSound(s, before.cur, keymode);
    }
  }
}
