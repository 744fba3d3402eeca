/** Which [header] is refused, by what the document has done before. */
module HeaderHistory {
  import opened Basics
  import opened Datum
  import opened Trees
  import opened Documents
  import opened DocumentLaws
  import opened DocumentRuns
  import opened InlineTables
  import opened PlainValues
  import opened Refusals

  // ---------- the flags of tables, through one expression

  /** A node keeps its flag; a new table has the flag f. */
  ghost predicate MarkAt(d: Datum, r: Datum, x: Path, f: Flags) {
    match NodeAt(d, x)
    case Some(m) =>
      NodeAt(r, x).Some? && NodeAt(r, x).value.flag == m.flag && (NodeAt(r, x).value.TableNode? <==> m.TableNode?)
    case None => NodeAt(r, x).Some? && NodeAt(r, x).value.TableNode? ==> NodeAt(r, x).value.flag == f
  }

  lemma {:induction false} MarkTrans(d: Datum, r: Datum, s: Datum, x: Path, f: Flags)
    requires MarkAt(d, r, x, f) && MarkAt(r, s, x, f)
    ensures MarkAt(d, s, x, f)
  {}

  lemma {:induction false} AddedMark(d: Datum, p: Path, k: Text, f: Flags, x: Path)
    requires IsTableAt(d, p) && Find(At(d, p).value.entries, k) < 0
    ensures MarkAt(d, AddEntry(d, p, k, Table(f, [])), x, f)
  {
    hide Put;
    var v := Table(f, []);
    AddEntryEffect(d, p, k, v, x);
    if p + [K(k)] <= x {
      NoPlaceBelow(d, p, K(k), x);
      var y := x[|p| + 1..];
      assert y != [] ==> Child(v, y[0]).None?;
    }
  }

  /** The descent makes tables of one kind only. */
  lemma {:induction false} WalkMark(d: Datum, p: Path, keys: seq<Text>, w: Walker, i: nat, x: Path)
    requires Walk(d, p, keys, w, i).Ok?
    ensures MarkAt(d, Walk(d, p, keys, w, i).value.0, x, Implicit(w).flag)
    decreases |keys|
  {
    hide AddEntry, MarkAt;
    if keys == [] {
      SameMark(d, x, Implicit(w).flag);
    } else {
      var (d', p') := WalkStep(d, p, keys[0], w, i).value;
      WalkMark(d', p', keys[1..], w, i + 1, x);
      if Find(At(d, p).value.entries, keys[0]) < 0 {
        AddedMark(d, p, keys[0], Implicit(w).flag, x);
        MarkTrans(d, d', Walk(d, p, keys, w, i).value.0, x, Implicit(w).flag);
      }
    }
  }

  lemma {:induction false} SameMark(d: Datum, x: Path, f: Flags)
    ensures MarkAt(d, d, x, f)
  {}

  ghost predicate EndsInKey(x: Path) { x != [] && x[|x| - 1].K? }

  /** What an expression does to the flags of a table that is not an array element: it marks a
      new one as made by a header exactly when it is one, and it defines only the one it makes
      current. */
  ghost predicate Marked(doc: Doc, e: Expr, next: Doc, x: Path) {
    match NodeAt(doc.top, x)
    case Some(m) =>
      && NodeAt(next.top, x).Some? && NodeAt(next.top, x).value.flag.stdexpr == m.flag.stdexpr
      && (NodeAt(next.top, x).value.flag.explicit ==> m.flag.explicit || (!e.KeyVal? && x == next.curtab))
    case None =>
      NodeAt(next.top, x).Some? && NodeAt(next.top, x).value.TableNode? ==>
        var f := NodeAt(next.top, x).value.flag;
        f.stdexpr == !e.KeyVal? && (f.stdexpr && f.explicit ==> x == next.curtab)
  }

  lemma {:induction false} HeaderMarked(doc: Doc, keys: seq<Text>, x: Path)
    requires DocValid(doc) && keys != [] && OpenTable(doc, keys).Ok?
    ensures Marked(doc, Header(keys), OpenTable(doc, keys).value, x)
  {
    hide Walk, Put, WellFormed;
    var n := |keys| - 1;
    WalkMark(doc.top, [], keys[..n], TableHeader, 0, x);
    var (d, p) := Walk(doc.top, [], keys[..n], TableHeader, 0).value;
    var k := keys[n];
    if Find(At(d, p).value.entries, k) < 0 {
      AddedMark(d, p, k, Flags(false, true, true), x);
      AddEntryEffect(d, p, k, Table(Flags(false, true, true), []), x);
      if p + [K(k)] <= x && x != p + [K(k)] {
        var y := x[|p| + 1..];
        assert y != [] && Child(Table(Flags(false, true, true), []), y[0]).None?;
      }
    } else {
      StepInto(d, p, k);
      SetExplicitEffect(d, p + [K(k)], x);
    }
  }

  lemma {:induction false} ElementMarked(doc: Doc, keys: seq<Text>, x: Path)
    requires DocValid(doc) && keys != [] && OpenElement(doc, keys).Ok? && EndsInKey(x)
    ensures Marked(doc, ElementHeader(keys), OpenElement(doc, keys).value, x)
  {
    hide Walk, Put, WellFormed;
    var n := |keys| - 1;
    WalkMark(doc.top, [], keys[..n], ArrayHeader, 0, x);
    var (d, p) := Walk(doc.top, [], keys[..n], ArrayHeader, 0).value;
    var k := keys[n];
    var q := p + [K(k)];
    var e := d;
    if Find(At(d, p).value.entries, k) < 0 {
      e := AddEntry(d, p, k, Array(NO_FLAGS, []));
      ArrayMark(d, p, k, x);
    }
    ElementMark(e, q, x);
  }

  /** A new array is no table. */
  lemma {:induction false} ArrayMark(d: Datum, p: Path, k: Text, x: Path)
    requires IsTableAt(d, p) && Find(At(d, p).value.entries, k) < 0
    ensures MarkAt(d, AddEntry(d, p, k, Array(NO_FLAGS, [])), x, Implicit(ArrayHeader).flag)
  {
    hide Put;
    var v := Array(NO_FLAGS, []);
    AddEntryEffect(d, p, k, v, x);
    if p + [K(k)] <= x {
      NoPlaceBelow(d, p, K(k), x);
      var y := x[|p| + 1..];
      assert y != [] ==> Child(v, y[0]).None?;
    }
  }

  /** A new element of an array is at a place that ends in an index. */
  lemma {:induction false} ElementMark(d: Datum, q: Path, x: Path)
    requires At(d, q).Some? && At(d, q).value.Array? && EndsInKey(x)
    ensures MarkAt(d, AddElem(d, q, EMPTY_TABLE), x, Implicit(ArrayHeader).flag)
  {
    hide Put;
    var n := |At(d, q).value.elems|;
    AddElemEffect(d, q, EMPTY_TABLE, x);
    if q + [I(n)] <= x {
      NoPlaceBelow(d, q, I(n), x);
      var y := x[|q| + 1..];
      assert y != [] ==> Child(EMPTY_TABLE, y[0]).None?;
      assert x == q + [I(n)] + y;
    }
  }

  lemma {:induction false} KeyValueMarked(doc: Doc, keys: seq<Text>, v: Datum, x: Path)
    requires DocValid(doc) && keys != [] && WellFormed(v) && Plain(v) && Apply(doc, KeyVal(keys, v)).Ok?
    ensures Marked(doc, KeyVal(keys, v), Apply(doc, KeyVal(keys, v)).value, x)
  {
    hide Walk, Put, WellFormed, Plain, Grows, LeavesPlus, StrBytes, SameLeaves;
    var n := |keys| - 1;
    WalkMark(doc.top, doc.curtab, keys[..n], KeyValue, 0, x);
    WalkEffect(doc.top, doc.curtab, keys[..n], KeyValue, 0);
    var (d, p) := Walk(doc.top, doc.curtab, keys[..n], KeyValue, 0).value;
    TabAddEffect(d, p, keys[n], v);
    ValueMark(d, p, keys[n], v, x);
  }

  /** Nothing in a plain value is marked as made by a header. */
  lemma {:induction false} ValueMark(d: Datum, p: Path, k: Text, v: Datum, x: Path)
    requires IsTableAt(d, p) && Find(At(d, p).value.entries, k) < 0 && Plain(v)
    ensures var r := AddEntry(d, p, k, v);
            match NodeAt(d, x)
            case Some(m) =>
              && NodeAt(r, x).Some? && NodeAt(r, x).value.flag == m.flag
              && (NodeAt(r, x).value.TableNode? <==> m.TableNode?)
            case None => NodeAt(r, x).Some? ==> !NodeAt(r, x).value.flag.stdexpr
  {
    hide Put;
    AddEntryEffect(d, p, k, v, x);
    if p + [K(k)] <= x {
      NoPlaceBelow(d, p, K(k), x);
      if At(v, x[|p| + 1..]).Some? {
        AtPlain(v, x[|p| + 1..]);
      }
    }
  }

  lemma {:induction false} ApplyMarked(doc: Doc, e: Expr, x: Path)
    requires DocValid(doc) && GoodExpr(e) && PlainExpr(e) && Apply(doc, e).Ok? && EndsInKey(x)
    ensures Marked(doc, e, Apply(doc, e).value, x)
  {
    hide DocValid, WellFormed, OpenTable, OpenElement, Marked, Plain;
    match e
    case Header(keys) => HeaderMarked(doc, keys, x);
    case ElementHeader(keys) => ElementMarked(doc, keys, x);
    case KeyVal(keys, v) =>
      hide Apply;
      KeyValueMarked(doc, keys, v, x);
  }

  // ---------- through a run

  /** x has been the current table. */
  ghost predicate WasCurrent(docs: seq<Doc>, n: nat, x: Path) {
    exists i :: 0 <= i <= n < |docs| && docs[i].curtab == x
  }

  /** The i-th expression has made what is at x. */
  ghost predicate Makes(docs: seq<Doc>, i: nat, x: Path)
    requires i + 1 < |docs|
  {
    At(docs[i].top, x).None? && At(docs[i + 1].top, x).Some?
  }

  /** A key/value has made it: on its way, or as its value or a part of it. */
  ghost predicate MadeByKeyValue(docs: seq<Doc>, es: seq<Expr>, n: nat, x: Path)
    requires |docs| == |es| + 1 && n <= |es|
  {
    exists i :: 0 <= i < n && es[i].KeyVal? && Makes(docs, i, x)
  }

  lemma {:induction false} StaysThere(docs: seq<Doc>, es: seq<Expr>, i: nat, j: nat, x: Path)
    requires IsRun(docs, es) && i <= j <= |es| && At(docs[i].top, x).Some?
    ensures At(docs[j].top, x).Some? && (IsTableAt(docs[j].top, x) ==> IsTableAt(docs[i].top, x))
  {
    hide Apply, Grows, GoodExpr;
    RunGrows(docs, es, i, j);
    GrownThere(docs[i].top, docs[j].top, x);
  }

  lemma {:induction false} GrownThere(d: Datum, r: Datum, x: Path)
    requires Grows(d, r) && At(d, x).Some?
    ensures At(r, x).Some? && (IsTableAt(r, x) ==> IsTableAt(d, x))
  {
    assert GrowsAt(d, r, x);
  }

  lemma {:induction false} MadeNext(docs: seq<Doc>, es: seq<Expr>, n: nat, x: Path)
    requires IsRun(docs, es) && n < |es| && At(docs[n + 1].top, x).Some?
    ensures if At(docs[n].top, x).Some? then MadeByKeyValue(docs, es, n + 1, x) <==> MadeByKeyValue(docs, es, n, x)
            else MadeByKeyValue(docs, es, n + 1, x) <==> es[n].KeyVal?
  {
    hide Apply, GoodExpr;
    if At(docs[n].top, x).None? {
      forall i | 0 <= i < n && es[i].KeyVal? ensures !Makes(docs, i, x) {
        if Makes(docs, i, x) {
          StaysThere(docs, es, i + 1, n, x);
        }
      }
      assert Makes(docs, n, x);
    }
  }

  /** What the flags of a table that is not an array element remember: FLAG_STDEXPR that a header
      has made it and not a key/value, and then FLAG_EXPLICIT that it has been current. */
  lemma {:induction false} FlagsRemember(docs: seq<Doc>, es: seq<Expr>, n: nat, x: Path)
    requires IsRun(docs, es) && (forall e :: e in es ==> PlainExpr(e)) && n <= |es|
    requires EndsInKey(x) && IsTableAt(docs[n].top, x)
    ensures var f := At(docs[n].top, x).value.flag;
            && (f.stdexpr <==> !MadeByKeyValue(docs, es, n, x))
            && (f.stdexpr ==> (f.explicit <==> WasCurrent(docs, n, x)))
    decreases n
  {
    hide Apply, PlainExpr, GoodExpr, DocValid, MadeByKeyValue, WasCurrent;
    EmptyTop(x);
    if n > 0 {
      RunValid(docs, es, n - 1);
      StepOf(docs, es, n - 1);
      assert es[n - 1] in es;
      ApplyMarked(docs[n - 1], es[n - 1], x);
      MadeNext(docs, es, n - 1, x);
      CurrentNext(docs, n - 1, x);
      if At(docs[n - 1].top, x).Some? {
        StaysThere(docs, es, n - 1, n, x);
        FlagsRemember(docs, es, n - 1, x);
      }
      CurrentIsExplicit(docs, es, n, x);
    }
  }

  lemma {:induction false} EmptyTop(x: Path)
    requires x != []
    ensures At(EMPTY_TABLE, x).None?
  {
    assert Child(EMPTY_TABLE, x[0]).None?;
  }

  lemma {:induction false} CurrentNext(docs: seq<Doc>, n: nat, x: Path)
    requires n + 1 < |docs|
    ensures WasCurrent(docs, n + 1, x) <==> WasCurrent(docs, n, x) || docs[n + 1].curtab == x
  {
    if WasCurrent(docs, n, x) {
      var i :| 0 <= i <= n < |docs| && docs[i].curtab == x;
      assert 0 <= i <= n + 1;
    }
  }

  lemma {:induction false} CurrentIsExplicit(docs: seq<Doc>, es: seq<Expr>, n: nat, x: Path)
    requires IsRun(docs, es) && n <= |es| && EndsInKey(x) && IsTableAt(docs[n].top, x)
    ensures WasCurrent(docs, n, x) ==> At(docs[n].top, x).value.flag.explicit
  {
    hide Apply, GoodExpr;
    if i :| 0 <= i <= n < |docs| && docs[i].curtab == x {
      CurtabStaysClosed(docs, es, i, n);
    }
  }

  /** All parts of the key are there, and the last holds something that is no table, or a table
      that has been current before, or one that a key/value has made. */
  ghost predicate Occupied(docs: seq<Doc>, es: seq<Expr>, n: nat, keys: seq<Text>)
    requires |docs| == |es| + 1 && n <= |es| && keys != []
  {
    exists x: Path :: LandsOn(docs[n].top, keys, x)
      && (!IsTableAt(docs[n].top, x) || WasCurrent(docs, n, x) || MadeByKeyValue(docs, es, n, x))
  }

  /** Something is in the way of the [header] keys behind n expressions: its place is taken, one of
      its parts but the last runs into a value that leads no further, a table that has to take a
      new part is full, or the last part would be new in an inline table. */
  ghost predicate HeaderBarred(docs: seq<Doc>, es: seq<Expr>, n: nat, keys: seq<Text>)
    requires |docs| == |es| + 1 && n <= |es| && keys != []
  {
    var d := docs[n].top;
    || Occupied(docs, es, n, keys) || RunsInto(d, [], keys[..|keys| - 1], TableHeader) || NoRoom(d, [], keys)
    || IntoInline(d, keys)
  }

  /** A [header] is refused exactly then. */
  lemma {:induction false} HeaderRefusedExactly(docs: seq<Doc>, es: seq<Expr>, n: nat, keys: seq<Text>)
    requires IsRun(docs, es) && (forall e :: e in es ==> PlainExpr(e)) && n <= |es| && keys != []
    ensures OpenTable(docs[n], keys).Err? <==> HeaderBarred(docs, es, n, keys)
  {
    hide Apply, PlainExpr, GoodExpr, DocValid, OpenTable, RunsInto, NoRoom, IntoInline, Place,
         MadeByKeyValue, WasCurrent;
    RunValid(docs, es, n);
    HeaderRefused(docs[n], keys);
    forall x: Path | LandsOn(docs[n].top, keys, x)
      ensures Taken(docs[n].top, x) <==>
              !IsTableAt(docs[n].top, x) || WasCurrent(docs, n, x) || MadeByKeyValue(docs, es, n, x)
    {
      if IsTableAt(docs[n].top, x) {
        FlagsRemember(docs, es, n, x);
        CurrentIsExplicit(docs, es, n, x);
      } else {
        NoTableTaken(docs[n], x);
      }
    }
  }

  lemma {:induction false} NoTableTaken(doc: Doc, x: Path)
    requires DocValid(doc) && At(doc.top, x).Some? && !At(doc.top, x).value.Table?
    ensures Taken(doc.top, x)
  {
    AtWellFormed(doc.top, x);
  }
}
