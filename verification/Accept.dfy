/** Every text that toml_parse accepts is a document that can be written. */
module AcceptedTexts {
  import opened Basics
  import opened Datum
  import opened Trees
  import opened Scanning
  import opened Documents
  import opened Parsing
  import opened Turns
  import opened Nesting
  import opened Layouts
  import opened StringTexts
  import opened NumberTexts
  import opened StampTexts
  import opened ReadingStrings
  import opened Printing
  import opened ReadingBack
  import opened AcceptedStrings
  import opened AcceptedNumbers
  import opened AcceptedStamps

  // ---------- tokens

  /** The token that is scanned from i on starts at p, behind the tail t. */
  ghost predicate Behind(src: seq<byte>, i: nat, t: Tail, p: nat) {
    && i <= |src| && TokenStart(src, i) == Ok(p) && TailOk(t) && Spans(src, i, p, TailText(t)) && (t.comment.Some? ==> LineStops(src, p))
  }

  lemma {:induction false} TokenAt(s: Input, st: State, keymode: bool) returns (t: Tail, p: nat)
    requires Inside(s, st) && ScanTok(s, st, keymode).Ok?
    ensures Behind(s.src, st.cur, t, p) && st.cur <= p <= |s.src|
    ensures var x := ScanTok(s, st, keymode).value;
            ScanAt(s, p, keymode) == Ok((x.0, x.1.cur)) && x.1.cur <= |s.src| && x.1.top == st.top
  {
    hide ScanAt, TokenStart, CountLevel, TailText, Stands;
    TokenLies(s, st.cur, keymode);
    t := StartIsTail(s.src, st.cur);
    p := TokenStart(s.src, st.cur).value;
    StandsSpans(s.src, st.cur, TailText(t));
  }

  lemma {:induction false} StandsSpans(src: seq<byte>, i: nat, t: seq<byte>)
    requires Stands(src, i, t)
    ensures Spans(src, i, i + |t|, t)
  {}

  /** What a token of each kind looks like. */
  lemma {:induction false} TokenShape(s: Input, p: nat, keymode: bool, t: Token, q: nat)
    requires p <= |s.src| && ScanAt(s, p, keymode) == Ok((t, q))
    ensures t.typ == Fin ==> p == |s.src| && q == p
    ensures t.typ == Endl ==> p < |s.src| && GetChar(s.src, p) == LF && q == p + GetLen(s.src, p)
    ensures t.typ != Fin && t.typ != Endl ==> !LineStops(s.src, p)
    ensures t.typ == Dot ==> Spans(s.src, p, q, [DOT])
    ensures t.typ == Equal ==> Spans(s.src, p, q, [EQUALS])
    ensures t.typ == Comma ==> Spans(s.src, p, q, [COMMA])
    ensures t.typ == LBrace ==> Spans(s.src, p, q, [OPEN_BRACE])
    ensures t.typ == RBrace ==> Spans(s.src, p, q, [CLOSE_BRACE])
    ensures t.typ == LBrack ==> Spans(s.src, p, q, [OPEN])
    ensures t.typ == RBrack ==> Spans(s.src, p, q, [CLOSE])
  {
    hide ScanString, ScanLitString, ScanValue, BareEnd;
    if p < |s.src| {
      SpansOne(s.src, p, s.src[p]);
    }
    ShapeOfStrings(s, p);
  }

  /** The tokens that are none of these. */
  lemma {:induction false} ShapeOfStrings(s: Input, p: nat)
    requires p <= |s.src|
    ensures p < |s.src| && s.src[p] == QUOTE && ScanString(s.src, p).Ok? ==> IsQuoted(ScanString(s.src, p).value.0.typ)
    ensures p < |s.src| && s.src[p] == APOSTROPHE && ScanLitString(s.src, p).Ok? ==> IsQuoted(ScanLitString(s.src, p).value.0.typ)
    ensures ScanValue(s, p).Ok? ==> ScanValue(s, p).value.0.typ == Value
    ensures ScanLiteral(s.src, p).0.typ == Lit
  {
    hide StringEnd, MlStringEnd, LitStringEnd, MlLitStringEnd, FirstOf, ScalarAt, BareEnd;
  }

  lemma {:induction false} DoubleShape(s: Input, p: nat, t: Token, q: nat)
    requires p <= |s.src| && ScanAt(s, p, true) == Ok((t, q))
    ensures t.typ == LLBrack ==> Spans(s.src, p, q, [OPEN, OPEN])
    ensures t.typ == RRBrack ==> Spans(s.src, p, q, [CLOSE, CLOSE])
  {
    hide ScanString, ScanLitString, ScanValue, BareEnd;
    if p + 1 < |s.src| {
      SpansOne(s.src, p, s.src[p]);
      SpansOne(s.src, p + 1, s.src[p + 1]);
      SpansJoin(s.src, p, p + 1, p + 2, [s.src[p]], [s.src[p + 1]]);
    }
    ShapeOfStrings(s, p);
  }

  /** A token that is no newline and no end stands behind a blank. */
  lemma {:induction false} BlankBefore(src: seq<byte>, i: nat, t: Tail, p: nat)
    requires Behind(src, i, t, p) && !LineStops(src, p)
    ensures IsBlank(t.blank) && Spans(src, i, p, t.blank)
  {
    assert TailText(t) == t.blank + [];
    assert t.blank + [] == t.blank;
  }

  /** Its blank, and where it starts. */
  lemma {:induction false} BlankToken(s: Input, st: State, keymode: bool) returns (w: seq<byte>, p: nat)
    requires Inside(s, st) && ScanTok(s, st, keymode).Ok?
    requires var t := ScanTok(s, st, keymode).value.0; t.typ != Fin && t.typ != Endl
    ensures IsBlank(w) && Spans(s.src, st.cur, p, w) && TokenStart(s.src, st.cur) == Ok(p) && p <= |s.src|
    ensures var x := ScanTok(s, st, keymode).value;
            ScanAt(s, p, keymode) == Ok((x.0, x.1.cur)) && x.1.cur <= |s.src| && x.1.top == st.top
  {
    hide ScanTok, ScanAt, TokenStart, IsBlank, Spans, LineStops;
    var x := ScanTok(s, st, keymode).value;
    var t;
    t, p := TokenAt(s, st, keymode);
    TokenShape(s, p, keymode, x.0, x.1.cur);
    BlankBefore(s.src, st.cur, t, p);
    w := t.blank;
    BehindStarts(s.src, st.cur, t, p);
  }

  lemma {:induction false} BehindStarts(src: seq<byte>, i: nat, t: Tail, p: nat)
    requires Behind(src, i, t, p)
    ensures i <= |src| && TokenStart(src, i) == Ok(p) && TailOk(t)
  {}

  /** A newline with what stands before it. */
  lemma {:induction false} EndToken(s: Input, st: State, keymode: bool) returns (e: LineEnd)
    requires Inside(s, st) && ScanTok(s, st, keymode).Ok? && ScanTok(s, st, keymode).value.0.typ == Endl
    ensures TailOk(e.tail) && Spans(s.src, st.cur, ScanTok(s, st, keymode).value.1.cur, EndText(e))
  {
    hide ScanTok, ScanAt, TokenStart, TailOk, TailText, NewlineText, LineStops, GetLen;
    var x := ScanTok(s, st, keymode).value;
    var t, p := TokenAt(s, st, keymode);
    TokenShape(s, p, keymode, x.0, x.1.cur);
    var n := NewlineOf(s.src, p);
    SpansJoin(s.src, st.cur, p, x.1.cur, TailText(t), NewlineText(n));
    e := LineEnd(t, n);
  }

  /** The end of the text with what stands before it. */
  lemma {:induction false} FinToken(s: Input, st: State, keymode: bool) returns (t: Tail)
    requires Inside(s, st) && ScanTok(s, st, keymode).Ok? && ScanTok(s, st, keymode).value.0.typ == Fin
    ensures TailOk(t) && Spans(s.src, st.cur, |s.src|, TailText(t))
    ensures ScanTok(s, st, keymode).value.1.cur == |s.src|
  {
    hide ScanTok, ScanAt, TokenStart, TailOk, TailText, LineStops;
    var x := ScanTok(s, st, keymode).value;
    var p;
    t, p := TokenAt(s, st, keymode);
    TokenShape(s, p, keymode, x.0, x.1.cur);
  }

  // ---------- keys

  lemma {:induction false} BareIs(src: seq<byte>, i: nat)
    requires i <= |src|
    ensures forall c :: c in src[i..BareEnd(src, i)] ==> IsBareChar(c)
    decreases |src| - i
  {
    hide IsBareChar, IsBare;
    var j := BareEnd(src, i);
    if i < j {
      BareIs(src, i + 1);
      BareChars(src[i]);
      assert src[i..j] == [src[i]] + src[i + 1..j];
    }
  }

  /** A token that is a part of a key, where it starts. */
  lemma {:induction false} PartAt(s: Input, p: nat, t: Token, q: nat) returns (k: Part)
    requires p <= |s.src| && ScanAt(s, p, true) == Ok((t, q)) && IsKeyTok(t.typ) && (t.typ == Lit ==> t.len > 0)
    ensures PartOk(k) && Spans(s.src, p, q, PartText(k))
  {
    hide ScanString, ScanLitString, ScanValue, BareEnd, StrOk, StrText, IsBareChar, Spans;
    PartKinds(s, p, t, q);
    if t.typ == Lit {
      BareIs(s.src, p);
      SpansCut(s.src, p, q);
      k := Bare(s.src[p..q]);
    } else {
      var x := StringOf(s.src, p);
      OneLineString(x);
      k := Quoted(x);
    }
  }

  lemma {:induction false} OneLineString(x: Str)
    ensures TypeOfStr(x) == TokTyp.String || TypeOfStr(x) == LitString ==> x.Basic? || x.Literal?
  {}

  lemma {:induction false} PartKinds(s: Input, p: nat, t: Token, q: nat)
    requires p <= |s.src| && ScanAt(s, p, true) == Ok((t, q)) && IsKeyTok(t.typ)
    ensures if t.typ == Lit then q == BareEnd(s.src, p) && t.start == p && t.len == q - p
            else
              p < |s.src| && (s.src[p] == QUOTE || s.src[p] == APOSTROPHE) &&
              (if s.src[p] == QUOTE then ScanString(s.src, p) else ScanLitString(s.src, p)) == Ok((t, q))
  {
    hide ScanString, ScanLitString, ScanValue, BareEnd;
    ShapeOfStrings(s, p);
  }

  /** What ends a key. */
  predicate ClosesKey(t: TokTyp) { t == Equal || t == RBrack || t == RRBrack }

  ghost predicate KeyEnds(s: Input, st: State) {
    Inside(s, st) && ScanTok(s, st, true).Ok? && ClosesKey(ScanTok(s, st, true).value.0.typ)
  }

  /** The blank behind a part, and the parts that follow. */
  function RestText(trail: seq<byte>, rest: Key): seq<byte> {
    trail + if rest == [] then [] else [DOT] + KeyText(rest, 0)
  }

  lemma {:induction false} KeyAt(ks: Key, n: nat)
    requires n < |ks|
    ensures KeyText(ks, n) == ks[n].lead + (PartText(ks[n].part) + (ks[n].trail + DottedText(ks, n + 1)))
    ensures DottedText(ks, n) == [DOT] + KeyText(ks, n)
  {
    hide PartText;
  }

  lemma {:induction false} KeyEnd(ks: Key)
    ensures KeyText(ks, |ks|) == [] && DottedText(ks, |ks|) == []
  {}

  lemma {:induction false} KeyShift(k: KeyPart, rest: Key, n: nat)
    requires n <= |rest|
    ensures KeyText([k] + rest, n + 1) == KeyText(rest, n)
    ensures DottedText([k] + rest, n + 1) == DottedText(rest, n)
    decreases |rest| - n
  {
    hide PartText, KeyText, DottedText;
    var ks := [k] + rest;
    if n == |rest| {
      KeyEnd(ks);
      KeyEnd(rest);
    } else {
      KeyShift(k, rest, n + 1);
      assert ks[n + 1] == rest[n];
      KeyAt(ks, n + 1);
      KeyAt(rest, n);
    }
  }

  lemma {:induction false} FirstPart(k: KeyPart, rest: Key)
    ensures KeyText([k] + rest, 0) == k.lead + (PartText(k.part) + RestText(k.trail, rest))
  {
    hide PartText;
    KeyShift(k, rest, 0);
    var ks := [k] + rest;
    assert KeyText(ks, 0) == k.lead + (PartText(k.part) + (k.trail + DottedText(ks, 1)));
    assert DottedText(ks, 1) == if rest == [] then [] else [DOT] + KeyText(rest, 0);
  }

  lemma {:induction false} PartsOk(k: KeyPart, rest: Key)
    requires IsBlank(k.lead) && PartOk(k.part) && IsBlank(k.trail) && (rest == [] || KeyOk(rest))
    ensures KeyOk([k] + rest)
  {
    hide PartOk, IsBlank;
  }

  /** The parts after one that has been read, up to what ends the key at e. */
  lemma {:induction false} KeyRestFrom(s: Input, st: State, keys: seq<Text>) returns (trail: seq<byte>, rest: Key, e: nat)
    requires Inside(s, st) && keys != [] && KeyRest(s, st, keys).Ok? && KeyEnds(s, KeyRest(s, st, keys).value.1)
    ensures IsBlank(trail) && (rest == [] || KeyOk(rest)) && Spans(s.src, st.cur, e, RestText(trail, rest))
    ensures var end := KeyRest(s, st, keys).value.1; end.cur <= e <= |s.src| && TokenStart(s.src, end.cur) == Ok(e)
    decreases |s.src| - st.cur
  {
    hide ScanTok, ScanAt, Norm, KeyRest, TokenStart, IsBlank, KeyOk, KeyText, PartOk, PartText, Spans;
    KeyTurn(s, st, keys);
    var (dot, st1) := ScanTok(s, st, true).value;
    var p;
    if dot.typ != Dot {
      SameToken(s, st, Restored(st, st1));
      trail, p := BlankToken(s, st, true);
      rest, e := [], p;
      assert RestText(trail, []) == trail;
    } else {
      trail, p := BlankToken(s, st, true);
      TokenShape(s, p, true, dot, st1.cur);
      var (t, st2) := ScanTok(s, st1, true).value;
      var (x, st3) := Norm(s, st2, t).value;
      var w, i := PartToken(s, st1, keys + [x], st3);
      var k := PartAt(s, i, t, st2.cur);
      var more, others;
      more, others, e := KeyRestFrom(s, st3, keys + [x]);
      rest := MoreParts(s.src, st1.cur, w, i, k, st2.cur, more, others, e);
      SpansJoin(s.src, p, st1.cur, e, [DOT], KeyText(rest, 0));
      SpansJoin(s.src, st.cur, p, e, trail, [DOT] + KeyText(rest, 0));
    }
  }

  /** The same token from the same position, whatever has been counted. */
  lemma {:induction false} SameToken(s: Input, st: State, again: State)
    requires Inside(s, st) && ScanTok(s, st, true).Ok? && again.cur == st.cur && ScanTok(s, again, true).Ok?
    ensures ScanTok(s, again, true).value.0 == ScanTok(s, st, true).value.0
  {
    hide ScanNext;
  }

  /** A part, all that follows it, and the place where they stand. */
  lemma {:induction false} MoreParts(src: seq<byte>, i: nat, w: seq<byte>, p: nat, k: Part, q: nat, trail: seq<byte>, rest: Key, e: nat)
    returns (ks: Key)
    requires IsBlank(w) && Spans(src, i, p, w) && PartOk(k) && Spans(src, p, q, PartText(k))
    requires IsBlank(trail) && (rest == [] || KeyOk(rest)) && Spans(src, q, e, RestText(trail, rest))
    ensures KeyOk(ks) && ks != [] && Spans(src, i, e, KeyText(ks, 0))
  {
    hide IsBlank, KeyOk, PartOk, PartText, Spans, KeyText, RestText;
    ks := [KeyPart(w, k, trail)] + rest;
    PartsOk(ks[0], rest);
    FirstPart(ks[0], rest);
    SpansJoin(src, p, q, e, PartText(k), RestText(trail, rest));
    SpansJoin(src, i, p, e, w, PartText(k) + RestText(trail, rest));
  }

  /** The token of a part, which has characters because the key goes on and ends. */
  lemma {:induction false} PartToken(s: Input, st: State, keys: seq<Text>, after: State) returns (w: seq<byte>, p: nat)
    requires Inside(s, st) && ScanTok(s, st, true).Ok? && IsKeyTok(ScanTok(s, st, true).value.0.typ) && keys != []
    requires Inside(s, after) && after == ScanTok(s, st, true).value.1.(top := after.top)
    requires KeyRest(s, after, keys).Ok? && KeyEnds(s, KeyRest(s, after, keys).value.1)
    ensures IsBlank(w) && Spans(s.src, st.cur, p, w) && p <= |s.src|
    ensures var (t, st1) := ScanTok(s, st, true).value;
            ScanAt(s, p, true) == Ok((t, st1.cur)) && (t.typ == Lit ==> t.len > 0)
  {
    hide ScanTok, ScanAt, TokenStart, IsBlank, KeyRest, Spans;
    var t := ScanTok(s, st, true).value.0;
    KeyTokHere(t);
    w, p := BlankToken(s, st, true);
    if t.typ == Lit {
      LitHasChars(s, st, keys, after);
    }
  }

  lemma {:induction false} KeyTokHere(t: Token)
    requires IsKeyTok(t.typ)
    ensures t.typ != Fin && t.typ != Endl
  {}

  lemma {:induction false} LitHasChars(s: Input, st: State, keys: seq<Text>, after: State)
    requires Inside(s, st) && ScanTok(s, st, true).Ok? && ScanTok(s, st, true).value.0.typ == Lit && keys != []
    requires Inside(s, after) && after == ScanTok(s, st, true).value.1.(top := after.top)
    requires KeyRest(s, after, keys).Ok? && KeyEnds(s, KeyRest(s, after, keys).value.1)
    ensures ScanTok(s, st, true).value.0.len > 0
  {
    hide ScanTok, ScanNext, KeyRest, KeyEnds;
    var t := ScanTok(s, st, true).value.0;
    ScansNext(s, st);
    if t.len == 0 {
      EmptyKeyAgain(s, st.cur, after.cur, t);
      LitEndsNoKey(s, after, keys, t);
    }
  }

  lemma {:induction false} LitEndsNoKey(s: Input, st: State, keys: seq<Text>, t: Token)
    requires Inside(s, st) && ScanNext(s, st.cur, true) == Ok((t, st.cur)) && t.typ == Lit && keys != []
    ensures KeyRest(s, st, keys) == Ok((keys, st)) && !KeyEnds(s, st)
  {
    hide ScanTok, KeyRest, ScanNext;
    LitAgain(s, st, t);
    KeyTurn(s, st, keys);
  }

  lemma {:induction false} ScansNext(s: Input, st: State)
    requires Inside(s, st) && ScanTok(s, st, true).Ok?
    ensures ScanNext(s, st.cur, true) == Ok((ScanTok(s, st, true).value.0, ScanTok(s, st, true).value.1.cur))
  {
    hide ScanNext;
    var x := ScanNext(s, st.cur, true);
    assert x.Ok? && x == Ok((x.value.0, x.value.1));
    TokenLies(s, st.cur, true);
    assert CountLevel(st.(cur := x.value.1), x.value.0.typ).Ok?;
  }

  lemma {:induction false} LitAgain(s: Input, st: State, t: Token)
    requires Inside(s, st) && ScanNext(s, st.cur, true) == Ok((t, st.cur)) && t.typ == Lit
    ensures ScanTok(s, st, true) == Ok((t, st))
  {
    hide ScanNext;
  }

  /** A key, from its first token to what ends it. */
  lemma {:induction false} KeyFrom(s: Input, st: State) returns (ks: Key, e: nat)
    requires Inside(s, st) && ScanTok(s, st, true).Ok?
    requires var (t, st1) := ScanTok(s, st, true).value;
             ParseKey(s, st1, t).Ok? && KeyEnds(s, ParseKey(s, st1, t).value.1)
    ensures KeyOk(ks) && ks != [] && Spans(s.src, st.cur, e, KeyText(ks, 0))
    ensures var (t, st1) := ScanTok(s, st, true).value;
            var end := ParseKey(s, st1, t).value.1;
            end.cur <= e <= |s.src| && TokenStart(s.src, end.cur) == Ok(e)
  {
    hide ScanTok, ScanAt, Norm, KeyRest, TokenStart, IsBlank, KeyOk, KeyText, PartOk, PartText, Spans;
    var (t, st1) := ScanTok(s, st, true).value;
    var (x, st2) := Norm(s, st1, t).value;
    var w, p := PartToken(s, st, [x], st2);
    var k := PartAt(s, p, t, st1.cur);
    var trail, rest;
    trail, rest, e := KeyRestFrom(s, st2, [x]);
    ks := MoreParts(s.src, st.cur, w, p, k, st1.cur, trail, rest, e);
  }

  // ---------- scalars

  /** The value v is written between p and q. */
  ghost predicate IsValue(s: Input, p: nat, q: nat, v: Val) {
    ValOk(v) && Converts(v, s.strtod) && Spans(s.src, p, q, Print(v))
  }

  lemma {:induction false} BoolFrom(src: seq<byte>, p: nat)
    requires p <= |src| && ScanBool(src, p).Ok?
    ensures var (x, n) := ScanBool(src, p).value; x.Boolean? && Spans(src, p, p + n, BoolText(x.b))
  {
    var w := Window(src, p, 9);
    var n := ScanBool(src, p).value.1;
    assert w[0..n] == w[..n];
    assert src[p..p + n] == w[..n];
  }

  lemma {:induction false} NumberWritten(s: Input, p: nat) returns (v: Val)
    requires p <= |s.src| && ScanNumber(s, p).Ok? && ReadsDecimals(s.strtod)
    ensures IsValue(s, p, p + ScanNumber(s, p).value.1, v)
  {
    hide NumberOf, Window, ReadsDecimals, IntegerText, IntegerOk, FloatText, FloatOk, PlainFloat, Spans;
    var w := Window(s.src, p, NUMBER_WINDOW);
    var n := ScanNumber(s, p).value.1;
    var i, x := NumberFrom(s, w);
    WindowSpans(s.src, p, n);
    v := if i.Some? then VInt(i.value) else VFloat(x.value, s.strtod(PlainFloat(x.value)));
  }

  lemma {:induction false} WindowSpans(src: seq<byte>, p: nat, n: nat)
    requires p <= |src| && n <= |Window(src, p, NUMBER_WINDOW)|
    ensures Spans(src, p, p + n, Window(src, p, NUMBER_WINDOW)[..n])
  {
    assert src[p..p + n] == Window(src, p, NUMBER_WINDOW)[..n];
  }

  lemma {:induction false} ScalarWritten(s: Input, p: nat) returns (v: Val)
    requires p <= |s.src| && ScalarAt(s, p).Ok? && ReadsDecimals(s.strtod)
    ensures IsValue(s, p, p + ScalarAt(s, p).value.1, v)
  {
    hide ScanNumber, ScanBool, ScanStamp, LooksLikeStamp, LooksLikeNumber, ReadsDecimals, StampText, StampOkForm, Spans;
    if LooksLikeStamp(s.src, p) {
      var x := StampWritten(s.src, p);
      v := VStamp(x);
    } else if p < |s.src| && (s.src[p] == 116 || s.src[p] == 102) {
      BoolFrom(s.src, p);
      v := VBool(ScanBool(s.src, p).value.0.b);
    } else {
      v := NumberWritten(s, p);
    }
  }

  /** A token that is a value of itself. */
  lemma {:induction false} SimpleValue(s: Input, p: nat, t: Token, q: nat) returns (v: Val)
    requires p <= |s.src| && ScanAt(s, p, false) == Ok((t, q)) && (IsQuoted(t.typ) || t.typ == Value) && ReadsDecimals(s.strtod)
    ensures IsValue(s, p, q, v)
  {
    hide ScanString, ScanLitString, ScalarAt, ReadsDecimals, StrOk, StrText, IsValue, Spans;
    ValueKinds(s, p, t, q);
    if IsQuoted(t.typ) {
      var x := StringOf(s.src, p);
      v := VStr(x);
      StringIsValue(s, p, q, x);
    } else {
      v := ScalarWritten(s, p);
    }
  }

  lemma {:induction false} StringIsValue(s: Input, p: nat, q: nat, x: Str)
    requires StrOk(x) && Spans(s.src, p, q, StrText(x))
    ensures IsValue(s, p, q, VStr(x))
  {
    hide StrOk, StrText, Spans;
  }

  lemma {:induction false} ValueKinds(s: Input, p: nat, t: Token, q: nat)
    requires p <= |s.src| && ScanAt(s, p, false) == Ok((t, q)) && (IsQuoted(t.typ) || t.typ == Value)
    ensures if t.typ == Value then ScalarAt(s, p).Ok? && q == p + ScalarAt(s, p).value.1
            else
              p < |s.src| && (s.src[p] == QUOTE || s.src[p] == APOSTROPHE) &&
              (if s.src[p] == QUOTE then ScanString(s.src, p) else ScanLitString(s.src, p)) == Ok((t, q))
  {
    hide ScanString, ScanLitString, ScalarAt;
    ShapeOfStrings(s, p);
  }
}
