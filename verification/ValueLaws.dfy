/** Values: what parse_val, parse_inline_array and parse_inline_table keep. */
module ValueLaws {
  import opened Basics
  import opened Datum
  import opened Scanning
  import opened Unescaping
  import opened Trees
  import opened Documents
  import opened Parsing
  import opened ParseLaws
  import opened Turns

  /** The result of reading a value or the rest of one: the counters have moved by the given
      amounts, the tree is well formed, and its strings fit in the pool handed out for them. */
  ghost predicate ValueGood(s: Input, st: State, bracket: int, brace: int, bytes: nat, r: Result<(Datum, State)>) {
    match r
    case Err(e) => IsLegit(e)
    case Ok((v, st')) =>
      && Ready(s, st', 0) && st'.bracket == bracket && st'.brace == brace
      && WellFormed(v) && StrBytes(v) + st.top <= bytes + st'.top
  }

  ghost predicate ElemsGood(xs: seq<Datum>) {
    |xs| <= ARRAY_MAX && forall i :: 0 <= i < |xs| ==> WellFormed(xs[i])
  }

  lemma {:induction false} ParseValGood(s: Input, before: State, t: Token, st: State)
    requires Ready(s, before, 0) && Scanned(s, before, false, t, st)
    ensures ValueGood(s, before, before.bracket, before.brace, 0, ParseVal(s, st, t))
    decreases |s.src| - st.cur, if t.typ == LBrack || t.typ == LBrace then 2 else 0
  {
    hide ScanTok, Norm, Unescape, TokText, ArrayRest, TableRest, WellFormed;
    if IsQuoted(t.typ) {
      NormGood(s, before, false, t, st);
      StringGood();
    } else if t.typ == Value {
      ScalarGood(t.scalar);
    } else if t.typ == LBrack {
      NoElems();
      ArrayRestGood(s, st, [], false);
    } else if t.typ == LBrace {
      EmptyGood();
      TableRestGood(s, st, EMPTY_TABLE, false);
    }
  }

  lemma StringGood()
    ensures forall x: Text :: WellFormed(Leaf(NO_FLAGS, Str(x))) && StrBytes(Leaf(NO_FLAGS, Str(x))) == |x| + 1
  {}

  lemma ScalarGood(v: Scalar)
    requires v != Unknown && !v.Str?
    ensures WellFormed(Leaf(NO_FLAGS, v)) && StrBytes(Leaf(NO_FLAGS, v)) == 0
  {}

  lemma NoElems()
    ensures ElemsGood([]) && ElemBytes([], 0) == 0
  {}

  lemma EmptyGood()
    ensures WellFormed(EMPTY_TABLE) && StrBytes(EMPTY_TABLE) == 0
  {}

  // ---------- arrays

  lemma {:induction false} ArrayRestGood(s: Input, st: State, xs: seq<Datum>, needComma: bool)
    requires Ready(s, st, 0) && ElemsGood(xs)
    ensures ValueGood(s, st, st.bracket - 1, st.brace, ElemBytes(xs, |xs|), ArrayRest(s, st, xs, needComma))
    decreases |s.src| - st.cur, 1
  {
    hide ScanTok, ParseVal, Inline, Unescape, TokText, ElemsGood, ElemBytes, WellFormed;
    ScanTokGood(s, st, false);
    if ScanTok(s, st, false).Ok? {
      var (t, st1) := ScanTok(s, st, false).value;
      if t.typ == Endl {
        ArrayRestGood(s, st1, xs, needComma);
      } else if t.typ == RBrack {
        ClosedArrayGood(xs);
      } else if t.typ == Comma {
        if needComma {
          ArrayRestGood(s, st1, xs, false);
        }
      } else if !needComma {
        ParseValGood(s, st, t, st1);
        ElementGood(s, st, xs, t, st1);
      }
    }
  }

  lemma ClosedArrayGood(xs: seq<Datum>)
    requires ElemsGood(xs)
    ensures WellFormed(Inline(Array(NO_FLAGS, xs))) && StrBytes(Inline(Array(NO_FLAGS, xs))) == ElemBytes(xs, |xs|)
  {
    InlineGood(Array(NO_FLAGS, xs));
  }

  lemma MoreElems(xs: seq<Datum>, v: Datum)
    requires ElemsGood(xs) && WellFormed(v) && |xs| < ARRAY_MAX
    ensures ElemsGood(xs + [v]) && ElemBytes(xs + [v], |xs + [v]|) == ElemBytes(xs, |xs|) + StrBytes(v)
  {
    ElemBytesAppend(xs, v);
  }

  /** One element of an array, and what follows it. */
  lemma {:induction false} ElementGood(s: Input, st: State, xs: seq<Datum>, t: Token, st1: State)
    requires Ready(s, st, 0) && ElemsGood(xs) && Inside(s, st1)
    requires ScanTok(s, st, false) == Ok((t, st1)) && t.typ !in {Endl, RBrack, Comma}
    requires ValueGood(s, st, st.bracket, st.brace, 0, ParseVal(s, st1, t))
    ensures ValueGood(s, st, st.bracket - 1, st.brace, ElemBytes(xs, |xs|), ArrayRest(s, st, xs, false))
    decreases |s.src| - st.cur, 0
  {
    hide ScanTok, ParseVal, Inline, ElemsGood, ElemBytes, WellFormed, StrBytes;
    var r := ParseVal(s, st1, t);
    if r.Ok? && |xs| < ARRAY_MAX {
      var (v, st2) := r.value;
      MoreElems(xs, v);
      ArrayRestGood(s, st2, xs + [v], true);
    }
  }

  // ---------- inline tables

  lemma {:induction false} TableRestGood(s: Input, st: State, tab: Datum, needComma: bool)
    requires Ready(s, st, 0) && WellFormed(tab) && tab.Table?
    ensures ValueGood(s, st, st.bracket, st.brace - 1, StrBytes(tab), TableRest(s, st, tab, needComma))
    decreases |s.src| - st.cur, 1
  {
    hide ScanTok, ParseKey, ParseVal, Inline, Unescape, TokText, EnterInline, TabAdd, WellFormed, StrBytes;
    ScanTokGood(s, st, true);
    if ScanTok(s, st, true).Ok? {
      var (t, st1) := ScanTok(s, st, true).value;
      if t.typ == RBrace {
        InlineGood(tab);
      } else if t.typ == Comma {
        if needComma {
          TableRestGood(s, st1, tab, false);
        }
      } else if t.typ == Endl {
        TableRestGood(s, st1, tab, needComma);
      } else if !needComma {
        PairGood(s, st, tab, t, st1);
      }
    }
  }

  /** One key/value of an inline table, and what follows it. */
  lemma {:induction false} PairGood(s: Input, st: State, tab: Datum, t: Token, st1: State)
    requires Ready(s, st, 0) && WellFormed(tab) && tab.Table? && Scanned(s, st, true, t, st1)
    requires t.typ !in {RBrace, Comma, Endl}
    ensures ValueGood(s, st, st.bracket, st.brace - 1, StrBytes(tab), TableRest(s, st, tab, false))
    decreases |s.src| - st.cur, 0
  {
    hide ScanTok, ParseKey, ParseVal, Inline, Unescape, TokText, EnterInline, TabAdd, WellFormed, StrBytes;
    ParseKeyGood(s, st, t, st1);
    if ParseKey(s, st1, t).Ok? {
      var (keys, st2) := ParseKey(s, st1, t).value;
      EnterInlineGood(tab, keys);
      if EnterInline(tab, keys).Ok? {
        AfterKey(s, st1, keys, st2, false);
        if ScanTok(s, st2, false).Ok? && ScanTok(s, st2, false).value.0.typ == Equal {
          var (d, p) := EnterInline(tab, keys).value;
          PairValueGood(s, st, tab, t, st1, keys, st2, d, p);
        }
      }
    }
  }

  lemma {:induction false} PairValueGood(s: Input, st: State, tab: Datum, t: Token, st1: State,
                                         keys: seq<Text>, st2: State, d: Datum, p: Path)
    requires Level(s, st) && Inside(s, st1) && st1.bracket == st.bracket && st1.brace == st.brace && st1.top == st.top
    requires ScanTok(s, st, true) == Ok((t, st1)) && t.typ !in {RBrace, Comma, Endl}
    requires keys != [] && ParseKey(s, st1, t) == Ok((keys, st2)) && st.top <= st2.top
    requires EnterInline(tab, keys) == Ok((d, p))
    requires WellFormed(d) && d.Table? && IsTableAt(d, p) && StrBytes(d) == StrBytes(tab)
    requires Inside(s, st2) && ScanTok(s, st2, false).Ok? && ScanTok(s, st2, false).value.0.typ == Equal
    requires var st3 := ScanTok(s, st2, false).value.1;
             Ready(s, st3, 0) && st3.bracket == st1.bracket && st3.brace == st1.brace && st3.top == st2.top
             && st.cur < st3.cur
    ensures ValueGood(s, st, st.bracket, st.brace - 1, StrBytes(tab), TableRest(s, st, tab, false))
    decreases |s.src| - st.cur - 1, 3
  {
    hide ScanTok, ScanNext, ParseKey, ParseVal, Inline, Unescape, TokText, EnterInline, TabAdd, WellFormed, StrBytes,
         Find, At, Put, IsTableAt, PoolMax, TypeOf, DistinctKeys;
    var st3 := ScanTok(s, st2, false).value.1;
    TableTurn(s, st, tab, false);
    PairRead(s, st1, tab, t, keys, st2, d, p, st3);
    hide TableRest, Pair;
    ScanTokGood(s, st3, false);
    if ScanTok(s, st3, false).Ok? {
      var (vt, st4) := ScanTok(s, st3, false).value;
      ParseValGood(s, st3, vt, st4);
      if ParseVal(s, st4, vt).Ok? {
        var (v, st5) := ParseVal(s, st4, vt).value;
        TabAddGood(d, p, keys[|keys| - 1], v);
        if TabAdd(d, p, keys[|keys| - 1], v).Ok? {
          TableRestGood(s, st5, TabAdd(d, p, keys[|keys| - 1], v).value, true);
        }
      }
    }
  }

  /** A pair whose key has been read and entered, and whose equals sign is there. */
  lemma {:induction false} PairRead(s: Input, st: State, tab: Datum, t: Token, keys: seq<Text>, st2: State,
                                    d: Datum, p: Path, st3: State)
    requires Inside(s, st) && Inside(s, st2) && keys != [] && ParseKey(s, st, t) == Ok((keys, st2))
    requires EnterInline(tab, keys) == Ok((d, p)) && IsTableAt(d, p)
    requires ScanTok(s, st2, false).Ok? && ScanTok(s, st2, false).value.0.typ == Equal
    requires ScanTok(s, st2, false).value.1 == st3 && Inside(s, st3)
    ensures Pair(s, st, tab, t) ==
            var x := ScanTok(s, st3, false);
            if x.Err? then Err(x.error)
            else
              var v := ParseVal(s, x.value.1, x.value.0);
              if v.Err? then Err(v.error)
              else
                var r := TabAdd(d, p, keys[|keys| - 1], v.value.0);
                if r.Err? then Err(r.error) else Ok((r.value, v.value.1))
  {
    hide ScanTok, ParseKey, ParseVal, EnterInline, TabAdd;
  }

  /** After a key and its equals sign the counters are what they were before the key. */
  lemma AfterKey(s: Input, st1: State, keys: seq<Text>, st2: State, keymode: bool)
    requires Level(s, st1) && KeyGood(s, st1, Ok((keys, st2)))
    ensures var r := ScanTok(s, st2, keymode);
            if r.Err? then IsLegit(r.error)
            else if r.value.0.typ == Equal then
              Ready(s, r.value.1, 0) && r.value.1.bracket == st1.bracket && r.value.1.brace == st1.brace
              && r.value.1.top == st2.top && st2.cur < r.value.1.cur
            else true
  {
    hide ScanNext, Unescape, TokText;
    ScanTokGood(s, st2, keymode);
    EqualInBothModes(s, st2.cur);
  }
}
