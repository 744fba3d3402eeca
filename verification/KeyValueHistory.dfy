/** Which key/value is refused, by what the document has done before. */
module KeyValueHistory {
  import opened Basics
  import opened Datum
  import opened Trees
  import opened Documents
  import opened DocumentLaws
  import opened DocumentRuns
  import opened PlainValues
  import opened Refusals
  import opened HeaderHistory
  import opened KeyValueRefusals

  // ---------- FLAG_EXPLICIT

  /** Outside values, only what a header has made is marked as defined. */
  ghost predicate ByHeader(d: Datum, x: Path) {
    IsTableAt(d, x) ==> var f := At(d, x).value.flag; f.explicit && !f.inlined ==> f.stdexpr
  }

  /** A header makes a table current that it marks as its own. */
  lemma {:induction false} OpenedByHeader(doc: Doc, keys: seq<Text>)
    requires DocValid(doc) && keys != [] && OpenTable(doc, keys).Ok?
    ensures var next := OpenTable(doc, keys).value;
            IsTableAt(next.top, next.curtab) && At(next.top, next.curtab).value.flag.stdexpr
  {
    hide Walk, Put, WellFormed;
    var n := |keys| - 1;
    var (d, p) := Walk(doc.top, [], keys[..n], TableHeader, 0).value;
    var k := keys[n];
    var q := p + [K(k)];
    assert q[|q|..] == [];
    if Find(At(d, p).value.entries, k) < 0 {
      AddEntryEffect(d, p, k, Table(Flags(false, true, true), []), q);
      assert q[|p| + 1..] == [];
    } else {
      StepInto(d, p, k);
      SetExplicitEffect(d, q, q);
    }
  }

  /** A table that a key/value makes is not marked, or it is a value. */
  lemma {:induction false} MadeUnmarked(doc: Doc, keys: seq<Text>, v: Datum, x: Path)
    requires DocValid(doc) && keys != [] && Apply(doc, KeyVal(keys, v)).Ok? && WellFormed(v) && TablesInlined(v)
    requires At(doc.top, x).None? && IsTableAt(Apply(doc, KeyVal(keys, v)).value.top, x)
    ensures var f := At(Apply(doc, KeyVal(keys, v)).value.top, x).value.flag; f.explicit ==> f.inlined
  {
    hide Walk, Put, WellFormed, Grows, SameLeaves, StrBytes, LeavesPlus;
    var n := |keys| - 1;
    WalkMark(doc.top, doc.curtab, keys[..n], KeyValue, 0, x);
    WalkEffect(doc.top, doc.curtab, keys[..n], KeyValue, 0);
    var (d, p) := Walk(doc.top, doc.curtab, keys[..n], KeyValue, 0).value;
    TabAddEffect(d, p, keys[n], v);
    AddEntryEffect(d, p, keys[n], v, x);
    if p + [K(keys[n])] <= x {
      NoPlaceBelow(d, p, K(keys[n]), x);
      assert IsTableAt(v, x[|p| + 1..]);
    }
  }

  lemma {:induction false} ApplyByHeader(doc: Doc, e: Expr, x: Path)
    requires DocValid(doc) && GoodExpr(e) && PlainExpr(e) && InlinedExpr(e) && Apply(doc, e).Ok? && EndsInKey(x)
    requires ByHeader(doc.top, x)
    ensures ByHeader(Apply(doc, e).value.top, x)
  {
    hide DocValid, WellFormed, OpenTable, OpenElement, Plain, Apply, TablesInlined, Grows;
    var next := Apply(doc, e).value;
    ApplyMarked(doc, e, x);
    ApplyGrows(doc, e);
    if IsTableAt(next.top, x) {
      if At(doc.top, x).Some? {
        GrownThere(doc.top, next.top, x);
        GrownFlags(doc.top, next.top, x);
        if !e.KeyVal? && x == next.curtab {
          CurrentByHeader(doc, e, x);
        }
      } else if e.KeyVal? {
        MadeUnmarked(doc, e.keys, e.val, x);
      }
    }
  }

  lemma {:induction false} CurrentByHeader(doc: Doc, e: Expr, x: Path)
    requires DocValid(doc) && GoodExpr(e) && !e.KeyVal? && Apply(doc, e).Ok? && EndsInKey(x) && x == Apply(doc, e).value.curtab
    ensures IsTableAt(Apply(doc, e).value.top, x) && At(Apply(doc, e).value.top, x).value.flag.stdexpr
  {
    hide DocValid, WellFormed, OpenTable;
    if e.Header? {
      OpenedByHeader(doc, e.keys);
    }
  }

  lemma {:induction false} ApplyGrows(doc: Doc, e: Expr)
    requires DocValid(doc) && GoodExpr(e) && Apply(doc, e).Ok?
    ensures Grows(doc.top, Apply(doc, e).value.top)
  {
    hide Apply, DocValid, ClosedKept, LeavesPlus, SameLeaves, StrBytes, Closed, Grows;
    ApplyValid(doc, e);
  }

  lemma {:induction false} GrownFlags(d: Datum, r: Datum, x: Path)
    requires Grows(d, r) && IsTableAt(d, x) && IsTableAt(r, x)
    ensures At(d, x).value.flag.Within(At(r, x).value.flag)
  {
    assert GrowsAt(d, r, x);
  }

  lemma {:induction false} RunByHeader(docs: seq<Doc>, es: seq<Expr>, n: nat, x: Path)
    requires IsRun(docs, es) && (forall e :: e in es ==> PlainExpr(e) && InlinedExpr(e)) && n <= |es| && EndsInKey(x)
    ensures ByHeader(docs[n].top, x)
    decreases n
  {
    hide Apply, PlainExpr, InlinedExpr, GoodExpr, DocValid;
    EmptyTop(x);
    if n > 0 {
      RunValid(docs, es, n - 1);
      StepOf(docs, es, n - 1);
      assert es[n - 1] in es;
      RunByHeader(docs, es, n - 1, x);
      ApplyByHeader(docs[n - 1], es[n - 1], x);
    }
  }

  /** FLAG_EXPLICIT of a table that is neither an array element nor a value remembers that the
      table has been current. */
  lemma {:induction false} ExplicitRemembers(docs: seq<Doc>, es: seq<Expr>, n: nat, x: Path)
    requires IsRun(docs, es) && (forall e :: e in es ==> PlainExpr(e) && InlinedExpr(e)) && n <= |es|
    requires EndsInKey(x) && IsTableAt(docs[n].top, x) && !At(docs[n].top, x).value.flag.inlined
    ensures At(docs[n].top, x).value.flag.explicit <==> WasCurrent(docs, n, x)
  {
    hide Apply, PlainExpr, InlinedExpr, GoodExpr, DocValid, WasCurrent, MadeByKeyValue;
    RunByHeader(docs, es, n, x);
    FlagsRemember(docs, es, n, x);
    CurrentIsExplicit(docs, es, n, x);
  }

  // ---------- key/values

  /** The table at q has been current before, or it is a value and marked as defined. */
  ghost predicate Settled(docs: seq<Doc>, n: nat, q: Path)
    requires n < |docs| && IsTableAt(docs[n].top, q)
  {
    var f := At(docs[n].top, q).value.flag;
    if f.inlined then f.explicit else WasCurrent(docs, n, q)
  }

  ghost predicate DeniedNow(docs: seq<Doc>, n: nat, keys: seq<Text>, m: nat)
    requires n < |docs|
  {
    var d, p := docs[n].top, docs[n].curtab;
    && m < |keys| && IsTableAt(d, Spot(p, keys, m)) && Find(At(d, Spot(p, keys, m)).value.entries, keys[m]) < 0
    && (Full(d, Spot(p, keys, m)) || (m > 0 && Settled(docs, n, Spot(p, keys, m))))
  }

  /** Something is in the way of the key/value behind n expressions: a part but the last leads to
      something that is no table; a table that lacks a part is full, or is not the current one and
      has been current before, or is a value marked as defined; the parts but the last lead to a
      value, or to a table that is not the current one and has been; or there is something under
      the key already. */
  ghost predicate KeyValueBarred(docs: seq<Doc>, n: nat, keys: seq<Text>)
    requires n < |docs| && keys != []
  {
    var d, p := docs[n].top, docs[n].curtab;
    var q := Spot(p, keys, |keys| - 1);
    || (exists m: nat :: Obstructed(d, p, keys, m)) || (exists m: nat :: DeniedNow(docs, n, keys, m))
    || (IsTableAt(d, q) && (At(d, q).value.flag.inlined || (|keys| > 1 && WasCurrent(docs, n, q))))
    || At(d, Spot(p, keys, |keys|)).Some?
  }

  lemma {:induction false} SpotEndsInKey(p: Path, keys: seq<Text>, m: nat)
    requires 0 < m <= |keys|
    ensures EndsInKey(Spot(p, keys, m))
  {
    var q := Spot(p, keys, m);
    assert q[|q| - 1] == KeyPath(keys[..m])[m - 1];
  }

  lemma {:induction false} KeyValueRefusedExactly(docs: seq<Doc>, es: seq<Expr>, n: nat, keys: seq<Text>, v: Datum)
    requires IsRun(docs, es) && (forall e :: e in es ==> PlainExpr(e) && InlinedExpr(e)) && n <= |es| && keys != []
    ensures Apply(docs[n], KeyVal(keys, v)).Err? <==> KeyValueBarred(docs, n, keys)
  {
    hide Apply, PlainExpr, InlinedExpr, GoodExpr, DocValid, WasCurrent, Spot;
    RunValid(docs, es, n);
    KeyValueRefused(docs[n], keys, v);
    var d, p := docs[n].top, docs[n].curtab;
    forall m: nat | 0 < m < |keys| && IsTableAt(d, Spot(p, keys, m))
      ensures Settled(docs, n, Spot(p, keys, m)) <==> At(d, Spot(p, keys, m)).value.flag.explicit
    {
      SpotEndsInKey(p, keys, m);
      if !At(d, Spot(p, keys, m)).value.flag.inlined {
        ExplicitRemembers(docs, es, n, Spot(p, keys, m));
      }
    }
    SameBars(docs, n, keys);
  }

  lemma {:induction false} SameBars(docs: seq<Doc>, n: nat, keys: seq<Text>)
    requires n < |docs| && keys != []
    requires var d, p := docs[n].top, docs[n].curtab;
             forall m: nat :: 0 < m < |keys| && IsTableAt(d, Spot(p, keys, m)) ==>
               (Settled(docs, n, Spot(p, keys, m)) <==> At(d, Spot(p, keys, m)).value.flag.explicit)
    ensures Barred(docs[n].top, docs[n].curtab, keys, 0) <==> KeyValueBarred(docs, n, keys)
  {
    hide WasCurrent, Spot;
    var d, p := docs[n].top, docs[n].curtab;
    forall m: nat ensures Denied(d, p, keys, m, 0) <==> DeniedNow(docs, n, keys, m) {}
  }
}
