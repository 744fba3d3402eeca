/** Every key and every string of a tree parsed from valid UTF-8 is valid UTF-8. */
module TextTrees {
  import opened Basics
  import opened Datum
  import opened Utf8Cuts
  import opened Scanning
  import opened Trees
  import opened Documents
  import opened Merging
  import opened MergeLaws
  import opened Overriding
  import opened TomlMerge
  import opened Parsing
  import opened TomlLaws
  import opened Turns
  import opened TextLaws

  /** All keys and all strings of a tree are valid. */
  ghost predicate Clean(d: Datum)
    decreases d
  {
    match d
    case Leaf(_, v) => v.Str? ==> Valid(v.text)
    case Array(_, xs) => forall x :: x in xs ==> Clean(x)
    case Table(_, es) => CleanEntries(es)
  }

  ghost predicate CleanEntries(es: seq<Entry>)
    decreases es
  {
    forall e :: e in es ==> Valid(e.key) && Clean(e.val)
  }

  ghost predicate CleanKeys(keys: seq<Text>) { forall k :: k in keys ==> Valid(k) }

  // ---------- changes of a tree

  lemma {:induction false} ChildClean(d: Datum, s: Step)
    requires Clean(d) && Child(d, s).Some?
    ensures Clean(Child(d, s).value)
  {
    match s
    case K(k) => assert d.entries[Find(d.entries, k)] in d.entries;
    case I(i) => assert d.elems[i] in d.elems;
  }

  lemma {:induction false} AtClean(d: Datum, p: Path)
    requires Clean(d) && At(d, p).Some?
    ensures Clean(At(d, p).value)
    decreases |p|
  {
    hide Clean, Child;
    if p != [] {
      ChildClean(d, p[0]);
      AtClean(Child(d, p[0]).value, p[1..]);
    }
  }

  lemma {:induction false} PutChildClean(d: Datum, s: Step, v: Datum)
    requires Clean(d) && Clean(v) && Child(d, s).Some?
    ensures Clean(PutChild(d, s, v))
  {
    hide Valid;
    match s
    case K(k) =>
      var j := Find(d.entries, k);
      assert d.entries[j] in d.entries;
      assert forall e :: e in d.entries[j := Entry(k, v)] ==> e in d.entries || e == Entry(k, v);
    case I(i) =>
      assert forall x :: x in d.elems[i := v] ==> x in d.elems || x == v;
  }

  lemma {:induction false} PutClean(d: Datum, p: Path, v: Datum)
    requires Clean(d) && Clean(v) && At(d, p).Some?
    ensures Clean(Put(d, p, v))
    decreases |p|
  {
    hide Clean, Child, PutChild;
    if p != [] {
      var c := Child(d, p[0]).value;
      ChildClean(d, p[0]);
      PutClean(c, p[1..], v);
      PutChildClean(d, p[0], Put(c, p[1..], v));
    }
  }

  lemma {:induction false} EntryAdded(t: Datum, e: Entry)
    requires Clean(t) && t.Table? && Valid(e.key) && Clean(e.val)
    ensures Clean(Table(t.flag, t.entries + [e]))
  {}

  lemma {:induction false} EntryFilled(t: Datum, j: nat, e: Entry)
    requires Clean(t) && t.Table? && j < |t.entries| && Valid(e.key) && Clean(e.val)
    ensures Clean(Table(t.flag, t.entries[j := e]))
  {
    hide Valid;
    assert forall x :: x in t.entries[j := e] ==> x in t.entries || x == e;
  }

  lemma {:induction false} TabAddClean(d: Datum, p: Path, k: Text, v: Datum)
    requires Clean(d) && Clean(v) && Valid(k) && IsTableAt(d, p) && TabAdd(d, p, k, v).Ok?
    ensures Clean(TabAdd(d, p, k, v).value)
  {
    hide Clean, Valid, Put, At;
    var t := At(d, p).value;
    AtClean(d, p);
    var j := Find(t.entries, k);
    if j >= 0 {
      EntryFilled(t, j, Entry(k, v));
      PutClean(d, p, t.(entries := t.entries[j := Entry(k, v)]));
    } else {
      EntryAdded(t, Entry(k, v));
      PutClean(d, p, t.(entries := t.entries + [Entry(k, v)]));
    }
  }

  lemma {:induction false} EmptyClean(flag: Flags)
    ensures Clean(Table(flag, [])) && Clean(Array(flag, []))
  {}

  lemma {:induction false} SetExplicitClean(d: Datum, p: Path)
    requires Clean(d) && IsTableAt(d, p)
    ensures Clean(SetExplicit(d, p))
  {
    AtClean(d, p);
    var t := At(d, p).value;
    assert Clean(Table(t.flag.(explicit := true), t.entries));
    hide Clean, Put;
    PutClean(d, p, Table(t.flag.(explicit := true), t.entries));
  }

  lemma {:induction false} AddElemClean(d: Datum, p: Path)
    requires Clean(d) && At(d, p).Some? && At(d, p).value.Array?
    ensures Clean(AddElem(d, p, EMPTY_TABLE))
  {
    AtClean(d, p);
    EmptyClean(NO_FLAGS);
    var a := At(d, p).value;
    assert Clean(a.(elems := a.elems + [EMPTY_TABLE]));
    hide Clean, Put;
    PutClean(d, p, a.(elems := a.elems + [EMPTY_TABLE]));
  }

  lemma {:induction false} InlineClean(d: Datum)
    requires Clean(d)
    ensures Clean(Inline(d))
    decreases d
  {
    match d
    case Leaf(_, _) =>
    case Array(_, xs) =>
      forall x | x in InlineElems(xs) ensures Clean(x) {
        var i :| 0 <= i < |xs| && InlineElems(xs)[i] == x;
        assert xs[i] in xs;
        InlineClean(xs[i]);
      }
    case Table(_, es) =>
      forall e | e in InlineEntries(es) ensures Valid(e.key) && Clean(e.val) {
        var i :| 0 <= i < |es| && InlineEntries(es)[i] == e;
        assert es[i] in es;
        InlineClean(es[i].val);
      }
  }

  // ---------- expressions

  lemma {:induction false} StepClean(d: Datum, p: Path, k: Text, w: Walker, i: nat)
    requires Clean(d) && Valid(k) && WalkStep(d, p, k, w, i).Ok?
    ensures Clean(WalkStep(d, p, k, w, i).value.0)
  {
    hide Clean, Valid, TabAdd;
    EmptyClean(Implicit(w).flag);
    if IsTableAt(d, p) && TabAdd(d, p, k, Implicit(w)).Ok? {
      TabAddClean(d, p, k, Implicit(w));
    }
  }

  lemma {:induction false} WalkClean(d: Datum, p: Path, keys: seq<Text>, w: Walker, i: nat)
    requires Clean(d) && CleanKeys(keys) && Walk(d, p, keys, w, i).Ok?
    ensures Clean(Walk(d, p, keys, w, i).value.0)
    decreases |keys|
  {
    hide Clean, Valid, WalkStep;
    if keys != [] {
      assert keys[0] in keys;
      StepClean(d, p, keys[0], w, i);
      var (d', p') := WalkStep(d, p, keys[0], w, i).value;
      WalkClean(d', p', keys[1..], w, i + 1);
    }
  }

  lemma {:induction false} FrontClean(keys: seq<Text>)
    requires CleanKeys(keys) && keys != []
    ensures CleanKeys(keys[..|keys| - 1]) && Valid(keys[|keys| - 1])
  {
    assert keys[|keys| - 1] in keys;
  }

  lemma {:induction false} OpenTableClean(doc: Doc, keys: seq<Text>)
    requires Clean(doc.top) && CleanKeys(keys) && keys != [] && OpenTable(doc, keys).Ok?
    ensures Clean(OpenTable(doc, keys).value.top)
  {
    hide Clean, CleanKeys, Valid, Walk, TabAdd, SetExplicit;
    FrontClean(keys);
    var n := |keys| - 1;
    WalkClean(doc.top, [], keys[..n], TableHeader, 0);
    var (d, p) := Walk(doc.top, [], keys[..n], TableHeader, 0).value;
    if Find(At(d, p).value.entries, keys[n]) < 0 {
      EmptyClean(Flags(false, true, true));
      TabAddClean(d, p, keys[n], Table(Flags(false, true, true), []));
    } else {
      AtStep(d, p, K(keys[n]));
      SetExplicitClean(d, p + [K(keys[n])]);
    }
  }

  lemma {:induction false} OpenElementClean(doc: Doc, keys: seq<Text>)
    requires Clean(doc.top) && CleanKeys(keys) && keys != [] && OpenElement(doc, keys).Ok?
    ensures Clean(OpenElement(doc, keys).value.top)
  {
    hide Clean, CleanKeys, Valid, Walk, TabAdd, AddElem;
    FrontClean(keys);
    var n := |keys| - 1;
    WalkClean(doc.top, [], keys[..n], ArrayHeader, 0);
    var (d, p) := Walk(doc.top, [], keys[..n], ArrayHeader, 0).value;
    var q := p + [K(keys[n])];
    if Find(At(d, p).value.entries, keys[n]) < 0 {
      EmptyClean(NO_FLAGS);
      TabAddClean(d, p, keys[n], Array(NO_FLAGS, []));
      AddElemClean(TabAdd(d, p, keys[n], Array(NO_FLAGS, [])).value, q);
    } else {
      AddElemClean(d, q);
    }
  }

  lemma {:induction false} LocateClean(doc: Doc, keys: seq<Text>)
    requires Clean(doc.top) && CleanKeys(keys) && keys != [] && Locate(doc, keys).Ok?
    ensures Clean(Locate(doc, keys).value.0)
  {
    hide Clean, CleanKeys, Walk;
    FrontClean(keys);
    WalkClean(doc.top, doc.curtab, keys[..|keys| - 1], KeyValue, 0);
  }

  lemma {:induction false} EnterInlineClean(tab: Datum, keys: seq<Text>)
    requires Clean(tab) && CleanKeys(keys) && keys != [] && EnterInline(tab, keys).Ok?
    ensures Clean(EnterInline(tab, keys).value.0)
  {
    hide Clean, CleanKeys, Walk, SetExplicit;
    FrontClean(keys);
    WalkClean(tab, [], keys[..|keys| - 1], InlineKey, 0);
    var (d, p) := Walk(tab, [], keys[..|keys| - 1], InlineKey, 0).value;
    SetExplicitClean(d, p);
  }

  // ---------- reading

  lemma {:induction false} KeyRestClean(s: Input, st: State, keys: seq<Text>)
    requires Valid(s.src) && Inside(s, st) && keys != [] && CleanKeys(keys) && KeyRest(s, st, keys).Ok?
    ensures CleanKeys(KeyRest(s, st, keys).value.0)
    decreases |s.src| - st.cur
  {
    hide Valid, ScanTok, Norm, TokText, KeyRest;
    KeyTurn(s, st, keys);
    var (dot, st1) := ScanTok(s, st, true).value;
    if dot.typ == Dot {
      var (t, st2) := ScanTok(s, st1, true).value;
      TokenValid(s, st1, true);
      NormValid(s, st2, t);
      var (k, st3) := Norm(s, st2, t).value;
      KeyRestClean(s, st3, keys + [k]);
    }
  }

  lemma {:induction false} ParseKeyClean(s: Input, before: State, t: Token, st: State)
    requires Valid(s.src) && Inside(s, before) && Inside(s, st) && ScanTok(s, before, true) == Ok((t, st))
    ensures ParseKey(s, st, t).Ok? ==> CleanKeys(ParseKey(s, st, t).value.0)
  {
    hide Valid, ScanTok, Norm, TokText, KeyRest;
    if ParseKey(s, st, t).Ok? {
      TokenValid(s, before, true);
      NormValid(s, st, t);
      var (k, st1) := Norm(s, st, t).value;
      KeyRestClean(s, st1, [k]);
    }
  }

  lemma {:induction false} ParseValClean(s: Input, before: State, t: Token, st: State)
    requires Valid(s.src) && Inside(s, before) && Inside(s, st) && ScanTok(s, before, false) == Ok((t, st))
    requires ParseVal(s, st, t).Ok?
    ensures Clean(ParseVal(s, st, t).value.0)
    decreases |s.src| - st.cur, if t.typ == LBrack || t.typ == LBrace then 2 else 0
  {
    hide Valid, ScanTok, Norm, TokText, ArrayRest, TableRest;
    if IsQuoted(t.typ) {
      TokenValid(s, before, false);
      NormValid(s, st, t);
    } else if t.typ == LBrack {
      ArrayRestClean(s, st, [], false);
    } else if t.typ == LBrace {
      TableRestClean(s, st, EMPTY_TABLE, false);
    } else {
      ValueIsNoText(s, before);
    }
  }

  lemma {:induction false} ValueIsNoText(s: Input, st: State)
    requires Inside(s, st)
    ensures var r := ScanTok(s, st, false);
            r.Ok? && r.value.0.typ == Value ==> !r.value.0.scalar.Str?
  {
    hide ScanNext, CountLevel;
    TokenLies(s, st.cur, false);
  }

  ghost predicate CleanElems(xs: seq<Datum>) { forall x :: x in xs ==> Clean(x) }

  lemma {:induction false} ArrayRestClean(s: Input, st: State, xs: seq<Datum>, needComma: bool)
    requires Valid(s.src) && Inside(s, st) && CleanElems(xs) && ArrayRest(s, st, xs, needComma).Ok?
    ensures Clean(ArrayRest(s, st, xs, needComma).value.0)
    decreases |s.src| - st.cur, 1
  {
    hide Valid, ScanTok, ParseVal, Inline, ArrayRest, Clean;
    ArrayTurn(s, st, xs, needComma);
    var (t, st1) := ScanTok(s, st, false).value;
    if t.typ == Endl {
      ArrayRestClean(s, st1, xs, needComma);
    } else if t.typ == RBrack {
      ArrayClean(xs);
    } else if t.typ == Comma {
      ArrayRestClean(s, st1, xs, false);
    } else {
      ParseValClean(s, st, t, st1);
      var (v, st2) := ParseVal(s, st1, t).value;
      ArrayRestClean(s, st2, xs + [v], true);
    }
  }

  lemma {:induction false} ArrayClean(xs: seq<Datum>)
    requires CleanElems(xs)
    ensures Clean(Inline(Array(NO_FLAGS, xs)))
  {
    InlineClean(Array(NO_FLAGS, xs));
  }

  lemma {:induction false} TableRestClean(s: Input, st: State, tab: Datum, needComma: bool)
    requires Valid(s.src) && Inside(s, st) && Clean(tab) && TableRest(s, st, tab, needComma).Ok?
    ensures Clean(TableRest(s, st, tab, needComma).value.0)
    decreases |s.src| - st.cur, 1
  {
    hide Valid, ScanTok, Inline, TableRest, Clean, Pair;
    TableTurn(s, st, tab, needComma);
    var (t, st1) := ScanTok(s, st, true).value;
    if t.typ == RBrace {
      InlineClean(tab);
    } else if t.typ == Comma {
      TableRestClean(s, st1, tab, false);
    } else if t.typ == Endl {
      TableRestClean(s, st1, tab, needComma);
    } else {
      PairClean(s, st, tab, t, st1);
      var (d, st2) := Pair(s, st1, tab, t).value;
      TableRestClean(s, st2, d, true);
    }
  }

  /** One key/value of an inline table. */
  lemma {:induction false} PairClean(s: Input, before: State, tab: Datum, t: Token, st: State)
    requires Valid(s.src) && Inside(s, before) && Inside(s, st) && ScanTok(s, before, true) == Ok((t, st))
    requires Clean(tab) && Pair(s, st, tab, t).Ok?
    ensures Clean(Pair(s, st, tab, t).value.0) && before.cur < Pair(s, st, tab, t).value.1.cur
    decreases |s.src| - before.cur, 0
  {
    hide Valid, ScanTok, ParseKey, ParseVal, EnterInline, TabAdd, Clean, CleanKeys;
    var (keys, st2) := ParseKey(s, st, t).value;
    ParseKeyClean(s, before, t, st);
    EnterInlineClean(tab, keys);
    var (d, p) := EnterInline(tab, keys).value;
    var (eq, st3) := ScanTok(s, st2, false).value;
    var (vt, st4) := ScanTok(s, st3, false).value;
    ParseValClean(s, st3, vt, st4);
    var v := ParseVal(s, st4, vt).value.0;
    FrontClean(keys);
    TabAddClean(d, p, keys[|keys| - 1], v);
  }

  // ---------- documents

  lemma {:induction false} ExprClean(s: Input, before: State, doc: Doc, t: Token, st: State)
    requires Valid(s.src) && Inside(s, before) && Inside(s, st) && ScanTok(s, before, true) == Ok((t, st))
    requires Clean(doc.top) && ParseExpr(s, st, doc, t).Ok?
    ensures Clean(ParseExpr(s, st, doc, t).value.0.top)
  {
    hide Valid, ScanTok, ParseKey, ParseVal, OpenTable, OpenElement, Locate, TabAdd, Clean, CleanKeys;
    if t.typ == LBrack || t.typ == LLBrack {
      var (t1, st1) := ScanTok(s, st, true).value;
      ParseKeyClean(s, st, t1, st1);
      var keys := ParseKey(s, st1, t1).value.0;
      if t.typ == LBrack {
        OpenTableClean(doc, keys);
      } else {
        OpenElementClean(doc, keys);
      }
    } else {
      KeyValueClean(s, before, doc, t, st);
    }
  }

  lemma {:induction false} KeyValueClean(s: Input, before: State, doc: Doc, t: Token, st: State)
    requires Valid(s.src) && Inside(s, before) && Inside(s, st) && ScanTok(s, before, true) == Ok((t, st))
    requires Clean(doc.top) && KeyValueExpr(s, st, doc, t).Ok?
    ensures Clean(KeyValueExpr(s, st, doc, t).value.0.top)
  {
    hide Valid, ScanTok, ParseKey, ParseVal, Locate, TabAdd, Clean, CleanKeys;
    ParseKeyClean(s, before, t, st);
    var (keys, st1) := ParseKey(s, st, t).value;
    LocateClean(doc, keys);
    var (d, p) := Locate(doc, keys).value;
    var (eq, st2) := ScanTok(s, st1, true).value;
    var (vt, st3) := ScanTok(s, st2, false).value;
    ParseValClean(s, st2, vt, st3);
    FrontClean(keys);
    TabAddClean(d, p, keys[|keys| - 1], ParseVal(s, st3, vt).value.0);
  }

  lemma {:induction false} DocClean(s: Input, st: State, doc: Doc)
    requires Valid(s.src) && Inside(s, st) && Clean(doc.top) && ParseDoc(s, st, doc).Ok?
    ensures Clean(Outcome(ParseDoc(s, st, doc)).value.0)
    decreases |s.src| - st.cur
  {
    hide Valid, ScanTok, ParseExpr, ParseDoc, Clean;
    DocTurn(s, st, doc);
    var (t, st1) := ScanTok(s, st, true).value;
    if t.typ == Endl {
      DocClean(s, st1, doc);
    } else if t.typ != Fin {
      ExprClean(s, st, doc, t, st1);
      var (next, st2, _) := ParseExpr(s, st1, doc, t).value;
      var (_, st3) := ScanTok(s, st2, true).value;
      DocClean(s, st3, next);
    }
  }

  /** A document that the validation loop accepts and that parses yields no key and no string
      that the loop would refuse. */
  lemma {:induction false} ParsedTextsValid(s: Input)
    requires Valid(s.src) && TomlParse(s).Ok?
    ensures Clean(TomlParse(s).value.0)
  {
    hide Valid, ParseDoc;
    EmptyClean(NO_FLAGS);
    hide Clean;
    DocClean(s, START, EMPTY_DOC);
  }

  // ---------- merging

  lemma {:induction false} CopiedClean(d: Datum)
    requires Clean(d)
    ensures Clean(Copied(d))
    decreases d
  {
    hide Valid;
    match d
    case Leaf(_, _) =>
    case Array(_, xs) => CopiedElemsClean(xs);
    case Table(_, es) =>
      forall e | e in CopiedEntries(es) ensures Valid(e.key) && Clean(e.val) {
        var i :| 0 <= i < |es| && CopiedEntries(es)[i] == e;
        assert es[i] in es;
        CopiedClean(es[i].val);
      }
  }

  lemma {:induction false} CopiedElemsClean(xs: seq<Datum>)
    requires CleanElems(xs)
    ensures CleanElems(CopiedElems(xs))
    decreases xs
  {
    forall x | x in CopiedElems(xs) ensures Clean(x) {
      var i :| 0 <= i < |xs| && CopiedElems(xs)[i] == x;
      assert xs[i] in xs;
      CopiedClean(xs[i]);
    }
  }

  lemma {:induction false} OverrideClean(a: Datum, b: Datum)
    requires Clean(a) && Clean(b)
    ensures Clean(Override(a, b))
    decreases b, 1
  {
    hide Valid, Copied;
    if a.Table? && b.Table? {
      OverriddenClean(a.entries, b.entries);
      NewEntriesClean(a.entries, b.entries, |b.entries|);
    } else if a.Array? && IsArrayOfTables(b) {
      CopiedElemsClean(b.elems);
    } else {
      CopiedClean(b);
    }
  }

  lemma {:induction false} OverriddenClean(es: seq<Entry>, fs: seq<Entry>)
    requires CleanEntries(es) && CleanEntries(fs)
    ensures CleanEntries(Overridden(es, fs))
    decreases fs, 0
  {
    hide Valid, Override;
    var r := Overridden(es, fs);
    forall e | e in r ensures Valid(e.key) && Clean(e.val) {
      var i :| 0 <= i < |r| && r[i] == e;
      assert es[i] in es;
      var j := Find(fs, es[i].key);
      if j >= 0 {
        assert fs[j] in fs;
        OverrideClean(es[i].val, fs[j].val);
      }
    }
  }

  lemma {:induction false} NoneClean()
    ensures CleanEntries([])
  {}

  lemma {:induction false} EntryClean(es: seq<Entry>, j: nat)
    requires j < |es| && CleanEntries(es)
    ensures Valid(es[j].key) && Clean(es[j].val)
  {
    assert es[j] in es;
  }

  lemma {:induction false} OneMoreClean(es: seq<Entry>, e: Entry)
    requires CleanEntries(es) && Valid(e.key) && Clean(e.val)
    ensures CleanEntries(es + [e])
  {}

  lemma {:induction false} NewEntriesClean(es: seq<Entry>, fs: seq<Entry>, n: nat)
    requires n <= |fs| && CleanEntries(fs)
    ensures CleanEntries(NewEntries(es, fs, n))
    decreases n
  {
    hide Valid, Copied, Clean, CleanEntries, Find;
    if n > 0 {
      NewEntriesClean(es, fs, n - 1);
      EntryClean(fs, n - 1);
      CopiedClean(fs[n - 1].val);
      OneMoreClean(NewEntries(es, fs, n - 1), Entry(fs[n - 1].key, Copied(fs[n - 1].val)));
    } else {
      NoneClean();
    }
  }

  /** And so does a merge of two such documents. */
  lemma {:induction false} MergedTextsValid(s1: Input, s2: Input)
    requires Valid(s1.src) && TomlParse(s1).Ok? && Valid(s2.src) && TomlParse(s2).Ok?
    ensures var (t1, top1) := TomlParse(s1).value;
            var (t2, top2) := TomlParse(s2).value;
            var r := MergeResults(t1, top1, t2, top2);
            r.Ok? ==> Clean(r.value.0)
  {
    hide TomlParse, MergeResults, Clean, Valid, Override, Copied;
    var docs1, es1 := AcceptedIsRun(s1);
    var docs2, es2 := AcceptedIsRun(s2);
    var (t1, top1) := TomlParse(s1).value;
    var (t2, top2) := TomlParse(s2).value;
    MergeOfFinished(t1, top1, t2, top2);
    ParsedTextsValid(s1);
    ParsedTextsValid(s2);
    CopiedClean(t1);
    OverrideClean(Copied(t1), t2);
  }
}
