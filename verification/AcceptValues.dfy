/** Every value that is accepted is one that can be written: arrays and inline tables. */
module AcceptedValues {
  import opened Basics
  import opened Datum
  import opened Trees
  import opened Scanning
  import opened Documents
  import opened Parsing
  import opened ParseLaws
  import opened Turns
  import opened Layouts
  import opened StringTexts
  import opened Printing
  import opened AcceptedStrings
  import opened AcceptedNumbers
  import opened AcceptedTexts

  // ---------- gaps

  function MoreGap(e: LineEnd, g: Gap): Gap { Gap([e] + g.ends, g.blank) }

  lemma {:induction false} MoreEnds(e: LineEnd, es: seq<LineEnd>)
    requires TailOk(e.tail) && EndsOk(es)
    ensures EndsOk([e] + es) && EndsText([e] + es) == EndText(e) + EndsText(es)
  {
    hide TailOk, EndText;
    assert ([e] + es)[1..] == es;
  }

  lemma {:induction false} MoreGapOk(e: LineEnd, g: Gap)
    requires TailOk(e.tail) && GapOk(g)
    ensures GapOk(MoreGap(e, g)) && GapText(MoreGap(e, g)) == EndText(e) + GapText(g)
  {
    hide TailOk, EndText, EndsText, EndsOk;
    MoreEnds(e, g.ends);
  }

  lemma {:induction false} BlankGap(w: seq<byte>)
    requires IsBlank(w)
    ensures GapOk(Gap([], w)) && GapText(Gap([], w)) == w
  {
    assert [] + w == w;
  }

  // ---------- the text of arrays

  ghost predicate ElemsGiven(s: Input, es: seq<Elem>) { ElemsOk(es) && forall x :: x in es ==> Converts(x.val, s.strtod) }

  function ArrayText(es: seq<Elem>, comma: bool, end: Gap): seq<byte> {
    PrintElems(es, 0, comma) + (GapText(end) + [CLOSE])
  }

  /** What may follow an element: the end of the array, or a comma and the rest of it. */
  datatype After<T> = Closed | More(items: seq<T>, comma: bool, end: Gap)

  function AfterText(after: Gap, a: After<Elem>): seq<byte> {
    GapText(after) + match a case Closed => [CLOSE] case More(es, comma, end) => [COMMA] + ArrayText(es, comma, end)
  }

  ghost predicate AfterOk(s: Input, a: After<Elem>) { a.More? ==> ElemsGiven(s, a.items) && GapOk(a.end) }

  /** The n-th element and those behind it. */
  lemma {:induction false} ElemAt(xs: seq<Elem>, n: nat, comma: bool)
    requires n < |xs|
    ensures PrintElems(xs, n, comma) ==
            GapText(xs[n].before) +
            (Print(xs[n].val) + (GapText(xs[n].after) + (CommaText(n, |xs|, comma) + PrintElems(xs, n + 1, comma))))
  {
    hide Print, GapText, CommaText;
  }

  lemma {:induction false} NoMoreElems(xs: seq<Elem>, comma: bool)
    ensures PrintElems(xs, |xs|, comma) == []
  {}

  lemma {:induction false} ElemShift(x: Elem, xs: seq<Elem>, n: nat, comma: bool)
    requires n <= |xs|
    ensures PrintElems([x] + xs, n + 1, comma) == PrintElems(xs, n, comma)
    decreases |xs| - n
  {
    if n == |xs| {
      NoMoreElems([x] + xs, comma);
      NoMoreElems(xs, comma);
    } else {
      hide Print, GapText, PrintElems;
      ElemShift(x, xs, n + 1, comma);
      assert ([x] + xs)[n + 1] == xs[n];
      ElemAt([x] + xs, n + 1, comma);
      ElemAt(xs, n, comma);
    }
  }

  lemma {:induction false} FirstElem(x: Elem, xs: seq<Elem>, comma: bool)
    ensures PrintElems([x] + xs, 0, comma) ==
            GapText(x.before) + (Print(x.val) + (GapText(x.after) + (CommaText(0, |xs| + 1, comma) + PrintElems(xs, 0, comma))))
  {
    hide Print, GapText, PrintElems;
    ElemShift(x, xs, 0, comma);
    assert ([x] + xs)[0] == x;
    ElemAt([x] + xs, 0, comma);
  }

  lemma {:induction false} MoreElemsGiven(s: Input, x: Elem, xs: seq<Elem>)
    requires ValOk(x.val) && Converts(x.val, s.strtod) && GapOk(x.before) && GapOk(x.after) && ElemsGiven(s, xs)
    ensures ElemsGiven(s, [x] + xs)
  {
    hide ValOk, Converts, GapOk;
  }

  lemma {:induction false} NoElemsGiven(s: Input)
    ensures ElemsGiven(s, []) && GapOk(NO_GAP) && GapText(NO_GAP) == []
    ensures forall comma :: PrintElems([], 0, comma) == []
  {}

  /** An element, with what follows it. */
  lemma {:induction false} ElemThen(s: Input, before: Gap, v: Val, after: Gap, a: After<Elem>)
    returns (es: seq<Elem>, comma: bool, end: Gap)
    requires GapOk(before) && ValOk(v) && Converts(v, s.strtod) && GapOk(after) && AfterOk(s, a)
    ensures ElemsGiven(s, es) && GapOk(end)
    ensures ArrayText(es, comma, end) == GapText(before) + (Print(v) + AfterText(after, a))
  {
    hide ValOk, Converts, GapOk, GapText, Print, ElemsGiven, PrintElems;
    NoElemsGiven(s);
    var x := Elem(before, v, after);
    var rest: seq<Elem> := [];
    match a {
      case Closed =>
        comma, end := false, NO_GAP;
      case More(xs, c, g) =>
        rest, end := xs, g;
        comma := xs == [] || c;
        if xs == [] {
          assert PrintElems(xs, 0, comma) == PrintElems(xs, 0, c) == [];
        } else {
          comma := c;
        }
    }
    FirstElem(x, rest, comma);
    MoreElemsGiven(s, x, rest);
    es := [x] + rest;
    ThenText(before, v, after, a, rest, comma, end);
  }

  /** The same text, with its parts taken together in another way. */
  lemma {:induction false} ThenText(before: Gap, v: Val, after: Gap, a: After<Elem>, rest: seq<Elem>, comma: bool, end: Gap)
    requires match a
             case Closed => rest == [] && !comma && end == NO_GAP
             case More(xs, c, g) => rest == xs && end == g && (if xs == [] then comma else comma == c)
    ensures (GapText(before) + (Print(v) + (GapText(after) + (CommaText(0, |rest| + 1, comma) + PrintElems(rest, 0, comma)))))
            + (GapText(end) + [CLOSE]) == GapText(before) + (Print(v) + AfterText(after, a))
  {
    hide Print, GapText, PrintElems;
    NothingPrinted(comma);
    if a.More? {
      NothingPrinted(a.comma);
    }
  }

  lemma {:induction false} NothingPrinted(comma: bool)
    ensures PrintElems([], 0, comma) == [] && GapText(NO_GAP) == []
  {}

  /** A line end in front of an array's rest. */
  lemma {:induction false} EndThenArray(s: Input, e: LineEnd, es: seq<Elem>, comma: bool, end: Gap)
    returns (fs: seq<Elem>, end': Gap)
    requires TailOk(e.tail) && ElemsGiven(s, es) && GapOk(end)
    ensures ElemsGiven(s, fs) && GapOk(end') && ArrayText(fs, comma, end') == EndText(e) + ArrayText(es, comma, end)
  {
    hide TailOk, GapOk, GapText, EndText, ElemsGiven, PrintElems, ElemsOk, ValOk, Converts;
    NoElemsGiven(s);
    if es == [] {
      fs, end' := [], MoreGap(e, end);
      MoreGapOk(e, end);
    } else {
      var x := es[0];
      FirstGiven(s, es);
      MoreGapOk(e, x.before);
      var y := Elem(MoreGap(e, x.before), x.val, x.after);
      fs, end' := [y] + es[1..], end;
      assert es == [x] + es[1..];
      MoreElemsGiven(s, y, es[1..]);
      LedElem(e, x, es[1..], comma);
      assert EndText(e) + ArrayText(es, comma, end) == EndText(e) + PrintElems(es, 0, comma) + (GapText(end) + [CLOSE]);
    }
  }

  /** A line end in front of the first element. */
  lemma {:induction false} LedElem(e: LineEnd, x: Elem, xs: seq<Elem>, comma: bool)
    requires TailOk(e.tail) && GapOk(x.before)
    ensures PrintElems([Elem(MoreGap(e, x.before), x.val, x.after)] + xs, 0, comma) == EndText(e) + PrintElems([x] + xs, 0, comma)
  {
    hide TailOk, GapOk, GapText, EndText, PrintElems, MoreGap;
    MoreGapOk(e, x.before);
    FirstElem(x, xs, comma);
    FirstElem(Elem(MoreGap(e, x.before), x.val, x.after), xs, comma);
  }

  lemma {:induction false} FirstGiven(s: Input, es: seq<Elem>)
    requires ElemsGiven(s, es) && es != []
    ensures ValOk(es[0].val) && Converts(es[0].val, s.strtod) && GapOk(es[0].before) && GapOk(es[0].after) && ElemsGiven(s, es[1..])
  {
    hide ValOk, Converts, GapOk;
    assert es[0] in es;
  }

  // ---------- the text of inline tables

  ghost predicate PairsGiven(s: Input, ps: seq<Binding>) { PairsOk(ps) && forall p :: p in ps ==> Converts(p.val, s.strtod) }

  ghost predicate PairGiven(s: Input, p: Binding) {
    ValOk(p.val) && EndsOk(p.before) && KeyOk(p.key) && IsBlank(p.lead) && GapOk(p.after) && Converts(p.val, s.strtod)
  }

  /** A pair without what stands before and behind it. */
  function PairText(key: Key, lead: seq<byte>, v: Val): seq<byte> { KeyText(key, 0) + ([EQUALS] + (lead + Print(v))) }

  function TableText(ps: seq<Binding>, comma: bool, end: Gap): seq<byte> {
    PrintPairs(ps, 0, comma) + (GapText(end) + [CLOSE_BRACE])
  }

  function BehindText(after: Gap, a: After<Binding>): seq<byte> {
    GapText(after) + match a case Closed => [CLOSE_BRACE] case More(ps, comma, end) => [COMMA] + TableText(ps, comma, end)
  }

  ghost predicate BehindOk(s: Input, a: After<Binding>) { a.More? ==> PairsGiven(s, a.items) && GapOk(a.end) }

  /** The n-th pair and those behind it. */
  lemma {:induction false} PairAt(ps: seq<Binding>, n: nat, comma: bool)
    requires n < |ps|
    ensures PrintPairs(ps, n, comma) ==
            EndsText(ps[n].before) + (KeyText(ps[n].key, 0) + ([EQUALS] + (ps[n].lead +
            (Print(ps[n].val) + (GapText(ps[n].after) + (CommaText(n, |ps|, comma) + PrintPairs(ps, n + 1, comma)))))))
  {
    hide Print, GapText, KeyText, EndsText, CommaText;
  }

  lemma {:induction false} PairShift(p: Binding, ps: seq<Binding>, n: nat, comma: bool)
    requires n <= |ps|
    ensures PrintPairs([p] + ps, n + 1, comma) == PrintPairs(ps, n, comma)
    decreases |ps| - n
  {
    if n == |ps| {
      NoMorePairs([p] + ps, comma);
      NoMorePairs(ps, comma);
    } else {
      hide Print, GapText, KeyText, EndsText, PrintPairs;
      PairShift(p, ps, n + 1, comma);
      assert ([p] + ps)[n + 1] == ps[n];
      PairAt([p] + ps, n + 1, comma);
      PairAt(ps, n, comma);
    }
  }

  lemma {:induction false} NoMorePairs(ps: seq<Binding>, comma: bool)
    ensures PrintPairs(ps, |ps|, comma) == []
  {}

  lemma {:induction false} FirstPair(p: Binding, ps: seq<Binding>, comma: bool)
    ensures PrintPairs([p] + ps, 0, comma) ==
            EndsText(p.before) + (PairText(p.key, p.lead, p.val) +
            (GapText(p.after) + (CommaText(0, |ps| + 1, comma) + PrintPairs(ps, 0, comma))))
  {
    hide Print, GapText, KeyText, EndsText, PrintPairs;
    PairShift(p, ps, 0, comma);
    var qs := [p] + ps;
    assert qs[0] == p;
    PairAt(qs, 0, comma);
    var rest := GapText(p.after) + (CommaText(0, |ps| + 1, comma) + PrintPairs(ps, 0, comma));
    assert KeyText(p.key, 0) + ([EQUALS] + (p.lead + (Print(p.val) + rest))) == PairText(p.key, p.lead, p.val) + rest;
  }

  lemma {:induction false} MorePairsGiven(s: Input, p: Binding, ps: seq<Binding>)
    requires PairGiven(s, p) && PairsGiven(s, ps)
    ensures PairsGiven(s, [p] + ps)
  {
    hide ValOk, Converts, GapOk, KeyOk, EndsOk, IsBlank;
  }

  lemma {:induction false} NoPairsGiven(s: Input)
    ensures PairsGiven(s, []) && GapOk(NO_GAP) && GapText(NO_GAP) == []
    ensures forall comma :: PrintPairs([], 0, comma) == []
  {}

  lemma {:induction false} PairThen(s: Input, p: Binding, a: After<Binding>)
    returns (ps: seq<Binding>, comma: bool, end: Gap)
    requires PairGiven(s, p) && BehindOk(s, a)
    ensures PairsGiven(s, ps) && GapOk(end)
    ensures TableText(ps, comma, end) == EndsText(p.before) + (PairText(p.key, p.lead, p.val) + BehindText(p.after, a))
  {
    hide PairGiven, PairsGiven, GapOk, GapText, Print, PrintPairs, PairText, EndsText;
    NoPairsGiven(s);
    var rest: seq<Binding> := [];
    match a {
      case Closed =>
        comma, end := false, NO_GAP;
      case More(qs, c, g) =>
        rest, end := qs, g;
        comma := if qs == [] then true else c;
    }
    FirstPair(p, rest, comma);
    MorePairsGiven(s, p, rest);
    ps := [p] + rest;
    BehindPair(EndsText(p.before), PairText(p.key, p.lead, p.val), p.after, a, rest, comma, end);
  }

  lemma {:induction false} BehindPair(before: seq<byte>, t: seq<byte>, after: Gap, a: After<Binding>, rest: seq<Binding>, comma: bool, end: Gap)
    requires match a
             case Closed => rest == [] && !comma && end == NO_GAP
             case More(ps, c, g) => rest == ps && end == g && (if ps == [] then comma else comma == c)
    ensures (before + (t + (GapText(after) + (CommaText(0, |rest| + 1, comma) + PrintPairs(rest, 0, comma)))))
            + (GapText(end) + [CLOSE_BRACE]) == before + (t + BehindText(after, a))
  {
    hide GapText, PrintPairs;
    NoPairPrinted(comma);
    if a.More? {
      NoPairPrinted(a.comma);
    }
  }

  lemma {:induction false} NoPairPrinted(comma: bool)
    ensures PrintPairs([], 0, comma) == [] && GapText(NO_GAP) == []
  {}

  /** A line end in front of an inline table's rest. */
  lemma {:induction false} EndThenTable(s: Input, e: LineEnd, ps: seq<Binding>, comma: bool, end: Gap)
    returns (qs: seq<Binding>, end': Gap)
    requires TailOk(e.tail) && PairsGiven(s, ps) && GapOk(end)
    ensures PairsGiven(s, qs) && GapOk(end') && TableText(qs, comma, end') == EndText(e) + TableText(ps, comma, end)
  {
    hide TailOk, GapOk, GapText, EndText, EndsText, PairGiven, PairsGiven, PrintPairs, PairText;
    NoPairsGiven(s);
    if ps == [] {
      qs, end' := [], MoreGap(e, end);
      MoreGapOk(e, end);
    } else {
      var p := ps[0];
      FirstPairGiven(s, ps);
      var q := p.(before := [e] + p.before);
      LedPair(s, e, p);
      qs, end' := [q] + ps[1..], end;
      assert ps == [p] + ps[1..];
      FirstPair(p, ps[1..], comma);
      FirstPair(q, ps[1..], comma);
      MorePairsGiven(s, q, ps[1..]);
    }
  }

  lemma {:induction false} LedPair(s: Input, e: LineEnd, p: Binding)
    requires TailOk(e.tail) && PairGiven(s, p)
    ensures PairGiven(s, p.(before := [e] + p.before)) && EndsText([e] + p.before) == EndText(e) + EndsText(p.before)
  {
    hide TailOk, EndText, EndsText, ValOk, KeyOk, GapOk, Converts, EndsOk, IsBlank;
    MoreEnds(e, p.before);
  }

  lemma {:induction false} FirstPairGiven(s: Input, ps: seq<Binding>)
    requires PairsGiven(s, ps) && ps != []
    ensures PairGiven(s, ps[0]) && PairsGiven(s, ps[1..])
  {
    hide ValOk, Converts, GapOk, KeyOk, EndsOk, IsBlank;
    assert ps[0] in ps;
  }

  // ---------- reading them

  /** The value v is written behind the blank w, up to where the parser has stopped. */
  ghost predicate ValueAt(s: Input, i: nat, w: seq<byte>, p: nat, q: nat, v: Val) {
    IsBlank(w) && Spans(s.src, i, p, w) && IsValue(s, p, q, v)
  }

  lemma {:induction false} ValueParts(s: Input, i: nat, w: seq<byte>, p: nat, q: nat, v: Val)
    requires ValueAt(s, i, w, p, q, v)
    ensures IsBlank(w) && Spans(s.src, i, p, w) && Spans(s.src, p, q, Print(v)) && ValOk(v) && Converts(v, s.strtod)
    ensures Spans(s.src, i, q, w + Print(v))
  {
    hide IsBlank, Print, ValOk, Converts, Spans;
    SpansJoin(s.src, i, p, q, w, Print(v));
  }

  ghost predicate IsArray(s: Input, i: nat, q: nat, es: seq<Elem>, comma: bool, end: Gap) {
    ElemsGiven(s, es) && GapOk(end) && Spans(s.src, i, q, ArrayText(es, comma, end))
  }

  ghost predicate IsTable(s: Input, i: nat, q: nat, ps: seq<Binding>, comma: bool, end: Gap) {
    PairsGiven(s, ps) && GapOk(end) && Spans(s.src, i, q, TableText(ps, comma, end))
  }

  lemma {:induction false} ArrayIsValue(s: Input, p: nat, i: nat, q: nat, es: seq<Elem>, comma: bool, end: Gap)
    requires Spans(s.src, p, i, [OPEN]) && IsArray(s, i, q, es, comma, end)
    ensures IsValue(s, p, q, VArr(es, comma, end))
  {
    hide Spans, GapOk, GapText, ElemsOk, PrintElems;
    SpansJoin(s.src, p, i, q, [OPEN], ArrayText(es, comma, end));
  }

  lemma {:induction false} TableIsValue(s: Input, p: nat, i: nat, q: nat, ps: seq<Binding>, comma: bool, end: Gap)
    requires Spans(s.src, p, i, [OPEN_BRACE]) && IsTable(s, i, q, ps, comma, end)
    ensures IsValue(s, p, q, VTab(ps, comma, end))
  {
    hide Spans, GapOk, GapText, PairsOk, PrintPairs;
    SpansJoin(s.src, p, i, q, [OPEN_BRACE], TableText(ps, comma, end));
  }

  /** What the kinds of tokens lead to. */
  lemma {:induction false} ValueBranches(s: Input, st: State, t: Token)
    requires Inside(s, st) && ParseVal(s, st, t).Ok?
    ensures t.typ != Fin && t.typ != Endl && (IsQuoted(t.typ) || t.typ == Value || t.typ == LBrack || t.typ == LBrace)
    ensures IsQuoted(t.typ) || t.typ == Value ==> ParseVal(s, st, t).value.1.cur == st.cur
    ensures t.typ == LBrack ==> ArrayRest(s, st, [], false) == ParseVal(s, st, t)
    ensures t.typ == LBrace ==> TableRest(s, st, EMPTY_TABLE, false) == ParseVal(s, st, t)
  {
    hide Norm, ArrayRest, TableRest;
  }

  lemma {:induction false} ValueFrom(s: Input, st: State) returns (v: Val, w: seq<byte>, p: nat)
    requires Inside(s, st) && ReadsDecimals(s.strtod) && ScanTok(s, st, false).Ok?
    requires var (t, st1) := ScanTok(s, st, false).value; ParseVal(s, st1, t).Ok?
    ensures var (t, st1) := ScanTok(s, st, false).value;
            ValueAt(s, st.cur, w, p, ParseVal(s, st1, t).value.1.cur, v)
    decreases |s.src| - st.cur, 0
  {
    hide ScanTok, ScanAt, ParseVal, ArrayRest, TableRest, ReadsDecimals, TokenStart, IsBlank, Spans, IsValue, IsArray, IsTable;
    var (t, st1) := ScanTok(s, st, false).value;
    ValueBranches(s, st1, t);
    w, p := BlankToken(s, st, false);
    TokenShape(s, p, false, t, st1.cur);
    if t.typ == LBrack {
      var es, comma, end := ArrayFrom(s, st1, []);
      v := VArr(es, comma, end);
      ArrayIsValue(s, p, st1.cur, ArrayRest(s, st1, [], false).value.1.cur, es, comma, end);
    } else if t.typ == LBrace {
      var ps, comma, end := TableFrom(s, st1, EMPTY_TABLE);
      v := VTab(ps, comma, end);
      TableIsValue(s, p, st1.cur, TableRest(s, st1, EMPTY_TABLE, false).value.1.cur, ps, comma, end);
    } else {
      v := SimpleValue(s, p, t, st1.cur);
    }
  }

  // ---------- arrays

  /** The rest of an array behind a line end. */
  lemma {:induction false} ArrayBehindEnd(s: Input, i: nat, j: nat, q: nat, e: LineEnd, es: seq<Elem>, comma: bool, end: Gap)
    returns (fs: seq<Elem>, end': Gap)
    requires TailOk(e.tail) && Spans(s.src, i, j, EndText(e)) && IsArray(s, j, q, es, comma, end)
    ensures IsArray(s, i, q, fs, comma, end')
  {
    hide Spans, TailOk, GapOk, EndText, ElemsGiven, ArrayText;
    fs, end' := EndThenArray(s, e, es, comma, end);
    SpansJoin(s.src, i, j, q, EndText(e), ArrayText(es, comma, end));
  }

  lemma {:induction false} ArrayCloses(s: Input, i: nat, w: seq<byte>, p: nat, q: nat)
    requires IsBlank(w) && Spans(s.src, i, p, w) && Spans(s.src, p, q, [CLOSE])
    ensures IsArray(s, i, q, [], false, Gap([], w))
  {
    hide Spans, IsBlank;
    BlankGap(w);
    NoElemsGiven(s);
    SpansJoin(s.src, i, p, q, w, [CLOSE]);
    assert ArrayText([], false, Gap([], w)) == w + [CLOSE];
  }

  lemma {:induction false} ArrayFrom(s: Input, st: State, xs: seq<Datum>) returns (es: seq<Elem>, comma: bool, end: Gap)
    requires Inside(s, st) && ReadsDecimals(s.strtod) && ArrayRest(s, st, xs, false).Ok?
    ensures IsArray(s, st.cur, ArrayRest(s, st, xs, false).value.1.cur, es, comma, end)
    decreases |s.src| - st.cur, 1
  {
    hide ScanTok, ScanAt, ParseVal, ArrayRest, ReadsDecimals, TokenStart, IsBlank, Spans, IsArray, ValueAt, AfterIs, TailOk, EndText;
    ArrayTurn(s, st, xs, false);
    var (t, st1) := ScanTok(s, st, false).value;
    var q := ArrayRest(s, st, xs, false).value.1.cur;
    if t.typ == Endl {
      var e := EndToken(s, st, false);
      var fs, g;
      fs, comma, g := ArrayFrom(s, st1, xs);
      es, end := ArrayBehindEnd(s, st.cur, st1.cur, q, e, fs, comma, g);
    } else if t.typ == RBrack {
      var w, p := BlankToken(s, st, false);
      TokenShape(s, p, false, t, st1.cur);
      ArrayCloses(s, st.cur, w, p, q);
      es, comma, end := [], false, Gap([], w);
    } else {
      var v, w, p := ValueFrom(s, st);
      var (d, st2) := ParseVal(s, st1, t).value;
      var after, a := ArrayAfter(s, st2, xs + [d]);
      es, comma, end := ArrayOfElem(s, st.cur, w, p, st2.cur, v, q, after, a);
    }
  }

  ghost predicate AfterIs(s: Input, i: nat, q: nat, after: Gap, a: After<Elem>) {
    GapOk(after) && AfterOk(s, a) && Spans(s.src, i, q, AfterText(after, a))
  }

  lemma {:induction false} ArrayOfElem(s: Input, i: nat, w: seq<byte>, p: nat, j: nat, v: Val, q: nat, after: Gap, a: After<Elem>)
    returns (es: seq<Elem>, comma: bool, end: Gap)
    requires ValueAt(s, i, w, p, j, v) && AfterIs(s, j, q, after, a)
    ensures IsArray(s, i, q, es, comma, end)
  {
    hide Spans, IsBlank, GapOk, AfterOk, AfterText, ArrayText, Print, ValOk, Converts, ElemsGiven, ValueAt, GapText;
    ValueParts(s, i, w, p, j, v);
    BlankGap(w);
    es, comma, end := ElemThen(s, Gap([], w), v, after, a);
    SpansJoin(s.src, p, j, q, Print(v), AfterText(after, a));
    SpansJoin(s.src, i, p, q, w, Print(v) + AfterText(after, a));
  }

  /** Behind an element. */
  lemma {:induction false} ArrayAfter(s: Input, st: State, xs: seq<Datum>) returns (after: Gap, a: After<Elem>)
    requires Inside(s, st) && ReadsDecimals(s.strtod) && ArrayRest(s, st, xs, true).Ok?
    ensures AfterIs(s, st.cur, ArrayRest(s, st, xs, true).value.1.cur, after, a)
    decreases |s.src| - st.cur, 1
  {
    hide ScanTok, ScanAt, ParseVal, ArrayRest, ReadsDecimals, TokenStart, IsBlank, Spans, IsArray, AfterIs, TailOk, EndText;
    ArrayTurn(s, st, xs, true);
    var (t, st1) := ScanTok(s, st, false).value;
    var q := ArrayRest(s, st, xs, true).value.1.cur;
    if t.typ == Endl {
      var e := EndToken(s, st, false);
      var g;
      g, a := ArrayAfter(s, st1, xs);
      after := MoreGap(e, g);
      AfterBehindEnd(s, st.cur, st1.cur, q, e, g, a);
    } else {
      var w, p := BlankToken(s, st, false);
      TokenShape(s, p, false, t, st1.cur);
      after := Gap([], w);
      if t.typ == RBrack {
        a := Closed;
        AfterCloses(s, st.cur, w, p, q);
      } else {
        var es, comma, end := ArrayFrom(s, st1, xs);
        a := More(es, comma, end);
        AfterComma(s, st.cur, w, p, st1.cur, q, es, comma, end);
      }
    }
  }

  lemma {:induction false} AfterBehindEnd(s: Input, i: nat, j: nat, q: nat, e: LineEnd, g: Gap, a: After<Elem>)
    requires TailOk(e.tail) && Spans(s.src, i, j, EndText(e)) && AfterIs(s, j, q, g, a)
    ensures AfterIs(s, i, q, MoreGap(e, g), a)
  {
    hide Spans, TailOk, GapOk, GapText, EndText, AfterOk, ArrayText, MoreGap;
    MoreGapOk(e, g);
    SpansJoin(s.src, i, j, q, EndText(e), AfterText(g, a));
    var rest := match a case Closed => [CLOSE] case More(es, comma, end) => [COMMA] + ArrayText(es, comma, end);
    assert EndText(e) + (GapText(g) + rest) == (EndText(e) + GapText(g)) + rest;
  }

  lemma {:induction false} AfterCloses(s: Input, i: nat, w: seq<byte>, p: nat, q: nat)
    requires IsBlank(w) && Spans(s.src, i, p, w) && Spans(s.src, p, q, [CLOSE])
    ensures AfterIs(s, i, q, Gap([], w), Closed)
  {
    hide Spans, IsBlank;
    BlankGap(w);
    SpansJoin(s.src, i, p, q, w, [CLOSE]);
  }

  lemma {:induction false} AfterComma(s: Input, i: nat, w: seq<byte>, p: nat, j: nat, q: nat, es: seq<Elem>, comma: bool, end: Gap)
    requires IsBlank(w) && Spans(s.src, i, p, w) && Spans(s.src, p, j, [COMMA]) && IsArray(s, j, q, es, comma, end)
    ensures AfterIs(s, i, q, Gap([], w), More(es, comma, end))
  {
    hide Spans, IsBlank, ArrayText, ElemsGiven;
    BlankGap(w);
    SpansJoin(s.src, p, j, q, [COMMA], ArrayText(es, comma, end));
    SpansJoin(s.src, i, p, q, w, [COMMA] + ArrayText(es, comma, end));
  }

  // ---------- inline tables

  lemma {:induction false} TableBehindEnd(s: Input, i: nat, j: nat, q: nat, e: LineEnd, ps: seq<Binding>, comma: bool, end: Gap)
    returns (qs: seq<Binding>, end': Gap)
    requires TailOk(e.tail) && Spans(s.src, i, j, EndText(e)) && IsTable(s, j, q, ps, comma, end)
    ensures IsTable(s, i, q, qs, comma, end')
  {
    hide Spans, TailOk, GapOk, EndText, PairsGiven, TableText;
    qs, end' := EndThenTable(s, e, ps, comma, end);
    SpansJoin(s.src, i, j, q, EndText(e), TableText(ps, comma, end));
  }

  lemma {:induction false} TableCloses(s: Input, i: nat, w: seq<byte>, p: nat, q: nat)
    requires IsBlank(w) && Spans(s.src, i, p, w) && Spans(s.src, p, q, [CLOSE_BRACE])
    ensures IsTable(s, i, q, [], false, Gap([], w))
  {
    hide Spans, IsBlank;
    BlankGap(w);
    NoPairsGiven(s);
    SpansJoin(s.src, i, p, q, w, [CLOSE_BRACE]);
    assert TableText([], false, Gap([], w)) == w + [CLOSE_BRACE];
  }

  lemma {:induction false} TableFrom(s: Input, st: State, tab: Datum) returns (ps: seq<Binding>, comma: bool, end: Gap)
    requires Inside(s, st) && ReadsDecimals(s.strtod) && TableRest(s, st, tab, false).Ok?
    ensures IsTable(s, st.cur, TableRest(s, st, tab, false).value.1.cur, ps, comma, end)
    decreases |s.src| - st.cur, 1
  {
    hide ScanTok, ScanAt, TableRest, Pair, ReadsDecimals, TokenStart, IsBlank, Spans, IsTable, PairIs, BehindIs, TailOk, EndText;
    TableTurn(s, st, tab, false);
    var (t, st1) := ScanTok(s, st, true).value;
    var q := TableRest(s, st, tab, false).value.1.cur;
    if t.typ == Endl {
      var e := EndToken(s, st, true);
      var qs, g;
      qs, comma, g := TableFrom(s, st1, tab);
      ps, end := TableBehindEnd(s, st.cur, st1.cur, q, e, qs, comma, g);
    } else if t.typ == RBrace {
      var w, p := BlankToken(s, st, true);
      TokenShape(s, p, true, t, st1.cur);
      TableCloses(s, st.cur, w, p, q);
      ps, comma, end := [], false, Gap([], w);
    } else {
      var key, lead, v := PairFrom(s, st, tab);
      var (d, st2) := Pair(s, st1, tab, t).value;
      var after, a := TableAfter(s, st2, d);
      ps, comma, end := TableOfPair(s, st.cur, st2.cur, q, key, lead, v, after, a);
    }
  }

  /** A pair, with the blank that its key may start with. */
  ghost predicate PairIs(s: Input, i: nat, q: nat, key: Key, lead: seq<byte>, v: Val) {
    KeyOk(key) && IsBlank(lead) && ValOk(v) && Converts(v, s.strtod) && Spans(s.src, i, q, PairText(key, lead, v))
  }

  ghost predicate BehindIs(s: Input, i: nat, q: nat, after: Gap, a: After<Binding>) {
    GapOk(after) && BehindOk(s, a) && Spans(s.src, i, q, BehindText(after, a))
  }

  lemma {:induction false} TableOfPair(s: Input, i: nat, j: nat, q: nat, key: Key, lead: seq<byte>, v: Val, after: Gap, a: After<Binding>)
    returns (ps: seq<Binding>, comma: bool, end: Gap)
    requires PairIs(s, i, j, key, lead, v) && BehindIs(s, j, q, after, a)
    ensures IsTable(s, i, q, ps, comma, end)
  {
    hide Spans, IsBlank, GapOk, BehindOk, BehindText, TableText, PairText, ValOk, Converts, PairsGiven, KeyOk;
    var p := Binding([], key, lead, v, after);
    assert EndsOk([]) && EndsText([]) == [];
    ps, comma, end := PairThen(s, p, a);
    SpansJoin(s.src, i, j, q, PairText(key, lead, v), BehindText(after, a));
    assert [] + (PairText(key, lead, v) + BehindText(after, a)) == PairText(key, lead, v) + BehindText(after, a);
  }

  lemma {:induction false} PairFrom(s: Input, st: State, tab: Datum) returns (key: Key, lead: seq<byte>, v: Val)
    requires Inside(s, st) && ReadsDecimals(s.strtod) && ScanTok(s, st, true).Ok?
    requires var (t, st1) := ScanTok(s, st, true).value;
             t.typ !in {RBrace, Comma, Endl} && st.cur <= st1.cur && Pair(s, st1, tab, t).Ok?
    ensures var (t, st1) := ScanTok(s, st, true).value;
            PairIs(s, st.cur, Pair(s, st1, tab, t).value.1.cur, key, lead, v) && st.cur < Pair(s, st1, tab, t).value.1.cur
    decreases |s.src| - st.cur, 0
  {
    hide ScanTok, ScanAt, ParseKey, ParseVal, EnterInline, TabAdd, ReadsDecimals, TokenStart, IsBlank, Spans, KeyOk, KeyText,
         PairIs, ValueAt, KeyEnds;
    var (t, st1) := ScanTok(s, st, true).value;
    var (keys, st2) := ParseKey(s, st1, t).value;
    var (eq, st3) := ScanTok(s, st2, false).value;
    var (vt, st4) := ScanTok(s, st3, false).value;
    EqualEndsKey(s, st2);
    var e;
    key, e := KeyFrom(s, st);
    var blank, p := BlankToken(s, st2, false);
    TokenShape(s, p, false, eq, st3.cur);
    var w, i;
    v, w, i := ValueFrom(s, st3);
    lead := w;
    PairSpans(s, st.cur, e, key, st3.cur, w, i, ParseVal(s, st4, vt).value.1.cur, v);
  }

  lemma {:induction false} EqualEndsKey(s: Input, st: State)
    requires Inside(s, st) && ScanTok(s, st, false).Ok? && ScanTok(s, st, false).value.0.typ == Equal
    ensures KeyEnds(s, st)
  {
    hide ScanNext;
    EqualInBothModes(s, st.cur);
  }

  lemma {:induction false} PairSpans(s: Input, i: nat, e: nat, key: Key, j: nat, w: seq<byte>, p: nat, q: nat, v: Val)
    requires KeyOk(key) && Spans(s.src, i, e, KeyText(key, 0)) && Spans(s.src, e, j, [EQUALS]) && ValueAt(s, j, w, p, q, v)
    ensures PairIs(s, i, q, key, w, v)
  {
    hide Spans, KeyOk, KeyText, IsBlank, ValOk, Converts, Print, ValueAt;
    ValueParts(s, j, w, p, q, v);
    SpansJoin(s.src, e, j, q, [EQUALS], w + Print(v));
    SpansJoin(s.src, i, e, q, KeyText(key, 0), [EQUALS] + (w + Print(v)));
  }

  /** Behind a pair. */
  lemma {:induction false} TableAfter(s: Input, st: State, tab: Datum) returns (after: Gap, a: After<Binding>)
    requires Inside(s, st) && ReadsDecimals(s.strtod) && TableRest(s, st, tab, true).Ok?
    ensures BehindIs(s, st.cur, TableRest(s, st, tab, true).value.1.cur, after, a)
    decreases |s.src| - st.cur, 1
  {
    hide ScanTok, ScanAt, TableRest, Pair, ReadsDecimals, TokenStart, IsBlank, Spans, IsTable, BehindIs, TailOk, EndText;
    TableTurn(s, st, tab, true);
    var (t, st1) := ScanTok(s, st, true).value;
    var q := TableRest(s, st, tab, true).value.1.cur;
    if t.typ == Endl {
      var e := EndToken(s, st, true);
      var g;
      g, a := TableAfter(s, st1, tab);
      after := MoreGap(e, g);
      BehindBehindEnd(s, st.cur, st1.cur, q, e, g, a);
    } else {
      var w, p := BlankToken(s, st, true);
      TokenShape(s, p, true, t, st1.cur);
      after := Gap([], w);
      if t.typ == RBrace {
        a := Closed;
        BehindCloses(s, st.cur, w, p, q);
      } else {
        var ps, comma, end := TableFrom(s, st1, tab);
        a := More(ps, comma, end);
        BehindComma(s, st.cur, w, p, st1.cur, q, ps, comma, end);
      }
    }
  }

  lemma {:induction false} BehindBehindEnd(s: Input, i: nat, j: nat, q: nat, e: LineEnd, g: Gap, a: After<Binding>)
    requires TailOk(e.tail) && Spans(s.src, i, j, EndText(e)) && BehindIs(s, j, q, g, a)
    ensures BehindIs(s, i, q, MoreGap(e, g), a)
  {
    hide Spans, TailOk, GapOk, GapText, EndText, BehindOk, TableText, MoreGap;
    MoreGapOk(e, g);
    SpansJoin(s.src, i, j, q, EndText(e), BehindText(g, a));
    var rest := match a case Closed => [CLOSE_BRACE] case More(ps, comma, end) => [COMMA] + TableText(ps, comma, end);
    assert EndText(e) + (GapText(g) + rest) == (EndText(e) + GapText(g)) + rest;
  }

  lemma {:induction false} BehindCloses(s: Input, i: nat, w: seq<byte>, p: nat, q: nat)
    requires IsBlank(w) && Spans(s.src, i, p, w) && Spans(s.src, p, q, [CLOSE_BRACE])
    ensures BehindIs(s, i, q, Gap([], w), Closed)
  {
    hide Spans, IsBlank;
    BlankGap(w);
    SpansJoin(s.src, i, p, q, w, [CLOSE_BRACE]);
  }

  lemma {:induction false} BehindComma(s: Input, i: nat, w: seq<byte>, p: nat, j: nat, q: nat, ps: seq<Binding>, comma: bool, end: Gap)
    requires IsBlank(w) && Spans(s.src, i, p, w) && Spans(s.src, p, j, [COMMA]) && IsTable(s, j, q, ps, comma, end)
    ensures BehindIs(s, i, q, Gap([], w), More(ps, comma, end))
  {
    hide Spans, IsBlank, TableText, PairsGiven;
    BlankGap(w);
    SpansJoin(s.src, p, j, q, [COMMA], TableText(ps, comma, end));
    SpansJoin(s.src, i, p, q, w, [COMMA] + TableText(ps, comma, end));
  }
}
