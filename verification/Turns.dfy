/** The recursive functions of the parser, unrolled once: one turn of each loop. */
module Turns {
  import opened Basics
  import opened Datum
  import opened Scanning
  import opened Documents
  import opened Parsing

  /** One turn of the loop of parse_key. */
  lemma KeyTurn(s: Input, st: State, keys: seq<Text>)
    requires Inside(s, st) && keys != []
    ensures KeyRest(s, st, keys) ==
            var x := ScanTok(s, st, true);
            if x.Err? then Err(x.error)
            else if x.value.0.typ != Dot then Ok((keys, Restored(st, x.value.1)))
            else
              var y := ScanTok(s, x.value.1, true);
              if y.Err? then Err(y.error)
              else if !IsKeyTok(y.value.0.typ) then Err(Syntax)
              else if |keys| >= KEYPART_MAX then Err(TooManyKeyParts)
              else
                var z := Norm(s, y.value.1, y.value.0);
                if z.Err? then Err(z.error) else KeyRest(s, z.value.1, keys + [z.value.0])
  {
    hide ScanTok, Norm;
  }

  lemma ArrayTurn(s: Input, st: State, xs: seq<Datum>, needComma: bool)
    requires Inside(s, st)
    ensures ArrayRest(s, st, xs, needComma) ==
            var x := ScanTok(s, st, false);
            if x.Err? then Err(x.error)
            else
              var (t, st1) := x.value;
              if t.typ == Endl then ArrayRest(s, st1, xs, needComma)
              else if t.typ == RBrack then Ok((Inline(Array(NO_FLAGS, xs)), st1))
              else if t.typ == Comma then if needComma then ArrayRest(s, st1, xs, false) else Err(Syntax)
              else if needComma then Err(Syntax)
              else
                var v := ParseVal(s, st1, t);
                if v.Err? then Err(v.error)
                else if |xs| >= ARRAY_MAX then Err(TooLarge)
                else ArrayRest(s, v.value.1, xs + [v.value.0], true)
  {
    hide ScanTok, Inline, ParseVal;
  }

  /** The equals sign and the value of a pair. */
  ghost function PairValue(s: Input, st: State): (r: Result<(Datum, State)>)
    requires Inside(s, st)
    ensures r.Ok? ==> Inside(s, r.value.1)
  {
    hide ScanTok, ParseVal;
    var (eq, st1) :- ScanTok(s, st, false);
    if eq.typ != Equal then Err(Syntax)
    else
      var (vt, st2) :- ScanTok(s, st1, false);
      ParseVal(s, st2, vt)
  }

  /** One key/value of an inline table. */
  ghost function Pair(s: Input, st: State, tab: Datum, t: Token): (r: Result<(Datum, State)>)
    requires Inside(s, st)
    ensures r.Ok? ==> Inside(s, r.value.1)
  {
    hide ScanTok, ParseKey, EnterInline, TabAdd, PairValue;
    var (keys, st2) :- ParseKey(s, st, t);
    var (d, p) :- EnterInline(tab, keys);
    var (v, st3) :- PairValue(s, st2);
    var d' :- TabAdd(d, p, keys[|keys| - 1], v);
    Ok((d', st3))
  }

  lemma {:induction false} TableTurn(s: Input, st: State, tab: Datum, needComma: bool)
    requires Inside(s, st)
    ensures TableRest(s, st, tab, needComma) ==
            var x := ScanTok(s, st, true);
            if x.Err? then Err(x.error)
            else
              var (t, st1) := x.value;
              if t.typ == RBrace then Ok((Inline(tab), st1))
              else if t.typ == Comma then if needComma then TableRest(s, st1, tab, false) else Err(Syntax)
              else if t.typ == Endl then TableRest(s, st1, tab, needComma)
              else if needComma then Err(Syntax)
              else
                var v := Pair(s, st1, tab, t);
                if v.Err? then Err(v.error) else TableRest(s, v.value.1, v.value.0, true)
  {
    hide ScanTok, Inline, ParseKey, ParseVal, EnterInline, TabAdd;
  }

  /** What toml_parse returns of the end of its loop. */
  ghost function Outcome(x: Result<(Doc, State, seq<Expr>)>): Result<(Datum, nat)> {
    if x.Ok? then Ok((x.value.0.top, x.value.1.top)) else Err(x.error)
  }

  lemma DocTurn(s: Input, st: State, doc: Doc)
    requires Inside(s, st)
    ensures Outcome(ParseDoc(s, st, doc)) ==
            var x := ScanTok(s, st, true);
            if x.Err? then Err(x.error)
            else
              var (t, st1) := x.value;
              if t.typ == Fin then Ok((doc.top, st1.top))
              else if t.typ == Endl then Outcome(ParseDoc(s, st1, doc))
              else
                var y := ParseExpr(s, st1, doc, t);
                if y.Err? then Err(y.error)
                else
                  var z := ScanTok(s, y.value.1, true);
                  if z.Err? then Err(z.error)
                  else if z.value.0.typ != Fin && z.value.0.typ != Endl then Err(Syntax)
                  else Outcome(ParseDoc(s, z.value.1, y.value.0))
  {
    hide ScanTok, ParseExpr;
  }
}
