/** The flag that marks what headers have made is on no part of a value that has been read. */
module PlainValues {
  import opened Basics
  import opened Datum
  import opened Scanning
  import opened Trees
  import opened Documents
  import opened Parsing
  import opened Turns

  /** FLAG_STDEXPR is nowhere in the tree. */
  ghost predicate Plain(d: Datum)
    decreases d
  {
    && !d.flag.stdexpr
    && match d
       case Leaf(_, _) => true
       case Array(_, xs) => AllPlain(xs)
       case Table(_, es) => forall e :: e in es ==> Plain(e.val)
  }

  ghost predicate AllPlain(xs: seq<Datum>)
    decreases xs
  {
    forall x :: x in xs ==> Plain(x)
  }

  lemma {:induction false} ChildPlain(d: Datum, s: Step)
    requires Plain(d) && Child(d, s).Some?
    ensures Plain(Child(d, s).value)
  {
    match s
    case K(k) => assert d.entries[Find(d.entries, k)] in d.entries;
    case I(i) => assert d.elems[i] in d.elems;
  }

  lemma {:induction false} AtPlain(d: Datum, p: Path)
    requires Plain(d) && At(d, p).Some?
    ensures Plain(At(d, p).value)
    decreases |p|
  {
    hide Plain, Child;
    if p != [] {
      ChildPlain(d, p[0]);
      AtPlain(Child(d, p[0]).value, p[1..]);
    }
  }

  lemma {:induction false} PutChildPlain(d: Datum, s: Step, v: Datum)
    requires Plain(d) && Plain(v) && Child(d, s).Some?
    ensures Plain(PutChild(d, s, v))
  {
    match s
    case K(k) =>
      var j := Find(d.entries, k);
      assert forall e :: e in d.entries[j := Entry(k, v)] ==> e in d.entries || e == Entry(k, v);
    case I(i) =>
      assert forall x :: x in d.elems[i := v] ==> x in d.elems || x == v;
  }

  lemma {:induction false} PutPlain(d: Datum, p: Path, v: Datum)
    requires Plain(d) && Plain(v) && At(d, p).Some?
    ensures Plain(Put(d, p, v))
    decreases |p|
  {
    hide Plain, Child, PutChild;
    if p != [] {
      var c := Child(d, p[0]).value;
      ChildPlain(d, p[0]);
      PutPlain(c, p[1..], v);
      PutChildPlain(d, p[0], Put(c, p[1..], v));
    }
  }

  lemma {:induction false} EntryAddedPlain(t: Datum, e: Entry)
    requires Plain(t) && t.Table? && Plain(e.val)
    ensures Plain(Table(t.flag, t.entries + [e])) && Plain(Table(t.flag.(explicit := true), t.entries))
  {}

  lemma {:induction false} EntryFilledPlain(t: Datum, j: nat, e: Entry)
    requires Plain(t) && t.Table? && j < |t.entries| && Plain(e.val)
    ensures Plain(Table(t.flag, t.entries[j := e]))
  {
    assert forall x :: x in t.entries[j := e] ==> x in t.entries || x == e;
  }

  lemma {:induction false} TabAddPlain(d: Datum, p: Path, k: Text, v: Datum)
    requires Plain(d) && Plain(v) && IsTableAt(d, p) && TabAdd(d, p, k, v).Ok?
    ensures Plain(TabAdd(d, p, k, v).value)
  {
    hide Plain, Put, At;
    var t := At(d, p).value;
    AtPlain(d, p);
    var j := Find(t.entries, k);
    if j >= 0 {
      EntryFilledPlain(t, j, Entry(k, v));
      PutPlain(d, p, t.(entries := t.entries[j := Entry(k, v)]));
    } else {
      EntryAddedPlain(t, Entry(k, v));
      PutPlain(d, p, t.(entries := t.entries + [Entry(k, v)]));
    }
  }

  lemma {:induction false} NothingPlain(v: Scalar)
    ensures Plain(EMPTY_TABLE) && Plain(Leaf(NO_FLAGS, v)) && Plain(Implicit(InlineKey)) && AllPlain([])
  {}

  lemma {:induction false} WalkPlain(d: Datum, p: Path, keys: seq<Text>, i: nat)
    requires Plain(d) && Walk(d, p, keys, InlineKey, i).Ok?
    ensures Plain(Walk(d, p, keys, InlineKey, i).value.0)
    decreases |keys|
  {
    hide Plain, TabAdd;
    if keys != [] {
      NothingPlain(Unknown);
      if TabAdd(d, p, keys[0], Implicit(InlineKey)).Ok? {
        TabAddPlain(d, p, keys[0], Implicit(InlineKey));
      }
      var (d', p') := WalkStep(d, p, keys[0], InlineKey, i).value;
      WalkPlain(d', p', keys[1..], i + 1);
    }
  }

  lemma {:induction false} EnterInlinePlain(tab: Datum, keys: seq<Text>)
    requires Plain(tab) && keys != [] && EnterInline(tab, keys).Ok?
    ensures Plain(EnterInline(tab, keys).value.0)
  {
    hide Plain, Walk, Put, At;
    WalkPlain(tab, [], keys[..|keys| - 1], 0);
    var (d, p) := Walk(tab, [], keys[..|keys| - 1], InlineKey, 0).value;
    AtPlain(d, p);
    NothingPlain(Unknown);
    EntryAddedPlain(At(d, p).value, Entry([], EMPTY_TABLE));
    PutPlain(d, p, Table(At(d, p).value.flag.(explicit := true), At(d, p).value.entries));
  }

  lemma {:induction false} InlinePlain(d: Datum)
    requires Plain(d)
    ensures Plain(Inline(d))
    decreases d
  {
    match d
    case Leaf(_, _) =>
    case Array(_, xs) =>
      forall x | x in InlineElems(xs) ensures Plain(x) {
        var i :| 0 <= i < |xs| && InlineElems(xs)[i] == x;
        InlinePlain(xs[i]);
      }
    case Table(_, es) =>
      forall e | e in InlineEntries(es) ensures Plain(e.val) {
        var i :| 0 <= i < |es| && InlineEntries(es)[i] == e;
        assert es[i] in es;
        InlinePlain(es[i].val);
      }
  }

  /** Every value the parser reads. */
  lemma {:induction false} ParsedPlain(s: Input, st: State, t: Token)
    requires Inside(s, st) && ParseVal(s, st, t).Ok?
    ensures Plain(ParseVal(s, st, t).value.0)
    decreases |s.src| - st.cur, if t.typ == LBrack || t.typ == LBrace then 2 else 0
  {
    hide Plain, ScanTok, Norm, ArrayRest, TableRest;
    var v := ParseVal(s, st, t).value.0;
    if t.typ == LBrack {
      NothingPlain(Unknown);
      ArrayPlain(s, st, [], false);
    } else if t.typ == LBrace {
      NothingPlain(Unknown);
      TablePlain(s, st, EMPTY_TABLE, false);
    } else {
      NothingPlain(v.scalar);
    }
  }

  lemma {:induction false} ArrayPlain(s: Input, st: State, xs: seq<Datum>, needComma: bool)
    requires Inside(s, st) && AllPlain(xs) && ArrayRest(s, st, xs, needComma).Ok?
    ensures Plain(ArrayRest(s, st, xs, needComma).value.0)
    decreases |s.src| - st.cur, 1
  {
    hide ScanTok, ParseVal, Inline, ArrayRest, Plain;
    ArrayTurn(s, st, xs, needComma);
    var (t, st1) := ScanTok(s, st, false).value;
    if t.typ == Endl {
      ArrayPlain(s, st1, xs, needComma);
    } else if t.typ == RBrack {
      ClosedPlain(xs);
    } else if t.typ == Comma {
      ArrayPlain(s, st1, xs, false);
    } else {
      ParsedPlain(s, st1, t);
      var (v, st2) := ParseVal(s, st1, t).value;
      ArrayPlain(s, st2, xs + [v], true);
    }
  }

  lemma {:induction false} ClosedPlain(xs: seq<Datum>)
    requires AllPlain(xs)
    ensures Plain(Inline(Array(NO_FLAGS, xs)))
  {
    InlinePlain(Array(NO_FLAGS, xs));
  }

  lemma {:induction false} TablePlain(s: Input, st: State, tab: Datum, needComma: bool)
    requires Inside(s, st) && Plain(tab) && TableRest(s, st, tab, needComma).Ok?
    ensures Plain(TableRest(s, st, tab, needComma).value.0)
    decreases |s.src| - st.cur, 1
  {
    hide ScanTok, Inline, TableRest, Plain, Pair;
    TableTurn(s, st, tab, needComma);
    var (t, st1) := ScanTok(s, st, true).value;
    if t.typ == RBrace {
      InlinePlain(tab);
    } else if t.typ == Comma {
      TablePlain(s, st1, tab, false);
    } else if t.typ == Endl {
      TablePlain(s, st1, tab, needComma);
    } else {
      PairPlain(s, st1, tab, t);
      var (d, st2) := Pair(s, st1, tab, t).value;
      TablePlain(s, st2, d, true);
    }
  }

  lemma {:induction false} PairPlain(s: Input, st: State, tab: Datum, t: Token)
    requires Inside(s, st) && Plain(tab) && Pair(s, st, tab, t).Ok?
    ensures Plain(Pair(s, st, tab, t).value.0) && st.cur < Pair(s, st, tab, t).value.1.cur
    decreases |s.src| - st.cur, 0
  {
    hide ScanTok, ParseKey, ParseVal, EnterInline, TabAdd, Plain;
    var (keys, st2) := ParseKey(s, st, t).value;
    EnterInlinePlain(tab, keys);
    var (d, p) := EnterInline(tab, keys).value;
    var (eq, st3) := ScanTok(s, st2, false).value;
    var (vt, st4) := ScanTok(s, st3, false).value;
    ParsedPlain(s, st4, vt);
    TabAddPlain(d, p, keys[|keys| - 1], ParseVal(s, st4, vt).value.0);
  }

  ghost predicate PlainExpr(e: Expr) { e.KeyVal? ==> Plain(e.val) }

  lemma {:induction false} ExprPlain(s: Input, st: State, doc: Doc, t: Token)
    requires Inside(s, st) && ParseExpr(s, st, doc, t).Ok?
    ensures PlainExpr(ParseExpr(s, st, doc, t).value.2)
  {
    hide ScanTok, ParseKey, ParseVal, OpenTable, OpenElement, Locate, TabAdd, Plain;
    if t.typ != LBrack && t.typ != LLBrack {
      var st2 := ScanTok(s, ParseKey(s, st, t).value.1, true).value.1;
      var (vt, st3) := ScanTok(s, st2, false).value;
      ParsedPlain(s, st3, vt);
    }
  }

  /** So the key/values of a document that has been read assign such values only. */
  lemma {:induction false} ExprsPlain(s: Input, st: State, doc: Doc)
    requires Inside(s, st) && ParseDoc(s, st, doc).Ok?
    ensures forall e :: e in ParseDoc(s, st, doc).value.2 ==> PlainExpr(e)
    decreases |s.src| - st.cur
  {
    hide ScanTok, ParseExpr, PlainExpr;
    var (t, st1) := ScanTok(s, st, true).value;
    if t.typ == Endl {
      ExprsPlain(s, st1, doc);
    } else if t.typ != Fin {
      ExprPlain(s, st1, doc, t);
      var (next, st2, e) := ParseExpr(s, st1, doc, t).value;
      var (_, st3) := ScanTok(s, st2, true).value;
      ExprsPlain(s, st3, next);
    }
  }

  // ---------- tables in values are inlined

  ghost predicate TablesInlined(d: Datum) {
    forall x: Path :: IsTableAt(d, x) ==> At(d, x).value.flag.inlined
  }

  lemma {:induction false} InlinedAt(d: Datum, x: Path)
    requires At(Inline(d), x).Some?
    ensures At(Inline(d), x).value.flag.inlined
    decreases |x|
  {
    if x != [] {
      match d {
        case Array(_, xs) =>
          var i := x[0].idx;
          assert InlineElems(xs)[i] == Inline(xs[i]);
          InlinedAt(xs[i], x[1..]);
        case Table(_, es) =>
          var j := Find(InlineEntries(es), x[0].key);
          assert InlineEntries(es)[j] == Entry(es[j].key, Inline(es[j].val));
          InlinedAt(es[j].val, x[1..]);
        case Leaf(_, _) =>
      }
    }
  }

  lemma {:induction false} InlinedAll(d: Datum)
    ensures TablesInlined(Inline(d))
  {
    forall x: Path | IsTableAt(Inline(d), x) ensures At(Inline(d), x).value.flag.inlined {
      InlinedAt(d, x);
    }
  }

  lemma {:induction false} LeafHasNoTable(d: Datum)
    requires d.Leaf?
    ensures TablesInlined(d)
  {
    forall x: Path ensures !IsTableAt(d, x) {
      assert x != [] ==> Child(d, x[0]).None?;
    }
  }

  ghost predicate InlinedExpr(e: Expr) { e.KeyVal? ==> TablesInlined(e.val) }
}
