/** The entries of the root: what each expression of a document does to them, in order. */
module TopLevel {
  import opened Basics
  import opened Datum
  import opened Trees
  import opened Documents
  import opened DocumentLaws
  import opened DocumentRuns
  import opened HeaderPaths
  import opened InlineTables

  /** A leaf stays what it is, and nothing else becomes a leaf. */
  ghost predicate SameKind(v: Datum, w: Datum) { if v.Leaf? then w == v else !w.Leaf? }

  /** The keys of es come first in fs, over values of the same kind. */
  ghost predicate Continues(es: seq<Entry>, fs: seq<Entry>) {
    |es| <= |fs| && forall i :: 0 <= i < |es| ==> fs[i].key == es[i].key && SameKind(es[i].val, fs[i].val)
  }

  /** A new entry for the key k: its value is v, or a table or an array. */
  ghost predicate NewEntry(e: Entry, k: Text, v: Option<Datum>) {
    e.key == k && match v case Some(x) => e.val == x case None => !e.val.Leaf?
  }

  /** What a key/value of one part puts into the root itself. */
  function SoleValue(e: Expr): Option<Datum> { if e.KeyVal? && |e.keys| == 1 then Some(e.val) else None }

  /** Does the expression start at the root? */
  ghost predicate FromRoot(doc: Doc, e: Expr) { InlineTables.StartOf(doc, e) == [] }

  lemma {:induction false} ChildGrows(d: Datum, r: Datum, i: nat)
    requires Grows(d, r) && d.Table? && r.Table? && WellFormed(d) && i < |d.entries| && i < |r.entries|
    requires r.entries[i].key == d.entries[i].key && WellFormed(r)
    ensures SameKind(d.entries[i].val, r.entries[i].val)
  {
    var p: Path := [K(d.entries[i].key)];
    EntryAt(d, i);
    EntryAt(r, i);
    assert GrowsAt(d, r, p);
  }

  lemma {:induction false} FindAt(es: seq<Entry>, i: nat)
    requires i < |es| && DistinctKeys(es)
    ensures Find(es, es[i].key) == i
  {
    assert Find(es, es[i].key) >= 0;
  }

  lemma {:induction false} EntryAt(d: Datum, i: nat)
    requires d.Table? && WellFormed(d) && i < |d.entries|
    ensures At(d, [K(d.entries[i].key)]) == Some(d.entries[i].val)
  {
    FindAt(d.entries, i);
    AtStep(d, [], K(d.entries[i].key));
    assert [] + [K(d.entries[i].key)] == [K(d.entries[i].key)];
  }

  lemma {:induction false} RootContinues(d: Datum, r: Datum)
    requires Grows(d, r) && d.Table? && r.Table? && WellFormed(d) && WellFormed(r)
    ensures Continues(d.entries, r.entries)
  {
    hide Grows, SameKind, WellFormed;
    RootKeys(d, r);
    forall i | 0 <= i < |d.entries|
      ensures r.entries[i].key == d.entries[i].key && SameKind(d.entries[i].val, r.entries[i].val)
    {
      assert KeysOf(d.entries)[i] == KeysOf(r.entries)[i];
      ChildGrows(d, r, i);
    }
  }

  lemma {:induction false} RootKeys(d: Datum, r: Datum)
    requires Grows(d, r) && d.Table? && r.Table?
    ensures KeysOf(d.entries) <= KeysOf(r.entries)
  {
    assert GrowsAt(d, r, []);
  }

  /** Only the first part of a key is looked for in the root. */
  lemma {:induction false} RootLacks(d: Datum, start: Path, keys: seq<Text>)
    requires keys != [] && d.Table?
    ensures Lacks(d, start, keys, []) <==> start == [] && Find(d.entries, keys[0]) < 0
  {
    hide NextPlace;
    assert keys[..0] == [];
    if m: nat :| LacksAt(d, start, keys, [], m) {
      PlaceBelow(d, start, keys[..m]);
      if m > 0 {
        PlaceFirst(d, start, keys, m - 1);
        BeyondRoot(d, start, keys, m);
      }
    }
    if start == [] && Find(d.entries, keys[0]) < 0 {
      assert LacksAt(d, start, keys, [], 0);
    }
  }

  lemma {:induction false} BeyondRoot(d: Datum, p: Path, keys: seq<Text>, m: nat)
    requires 0 < m <= |keys|
    ensures Place(d, p, keys[..m]) != Some([])
  {
    var q := NextPlace(d, p, keys[0]);
    assert keys[..m][0] == keys[0];
    if q.Some? {
      PlaceBelow(d, q.value, keys[..m][1..]);
    }
  }

  /** What is at a place below the root is in the entry of its first key. */
  lemma {:induction false} FirstStep(d: Datum, p: Path, k: Text)
    requires d.Table? && p != [] && p[0] == K(k) && At(d, p).Some?
    ensures var j := Find(d.entries, k);
            j >= 0 && if |p| == 1 then At(d, p) == Some(d.entries[j].val) else !d.entries[j].val.Leaf?
  {
    var c := Child(d, p[0]);
    if |p| > 1 {
      assert At(c.value, p[1..]).Some?;
      assert Child(c.value, p[1]).Some?;
    } else {
      assert p[1..] == [];
    }
  }

  lemma {:induction false} KeyStepsFirst(p: Path)
    requires p != [] && p[0].K?
    ensures KeySteps(p) != [] && KeySteps(p)[0] == p[0].key
    decreases |p|
  {
    if |p| > 1 {
      KeyStepsFirst(p[..|p| - 1]);
    }
  }

  /** The key of an expression that starts at the root is there afterwards. */
  lemma {:induction false} FirstPartThere(doc: Doc, e: Expr)
    requires DocValid(doc) && GoodExpr(e) && Apply(doc, e).Ok? && FromRoot(doc, e)
    ensures var r := Apply(doc, e).value.top;
            r.Table? && var j := Find(r.entries, e.keys[0]);
            j >= 0 && match SoleValue(e) case Some(v) => r.entries[j].val == v case None => !r.entries[j].val.Leaf?
  {
    hide Apply, WellFormed, LeavesPlus, Grows, StrBytes, SameLeaves, ClosedKept, Closed;
    ApplyValid(doc, e);
    var next := Apply(doc, e).value;
    match e {
      case KeyVal(keys, v) =>
        var p := KeyPath(keys);
        assert doc.curtab + p == p;
        FirstStep(next.top, p, keys[0]);
      case Header(keys) =>
        HeaderIs(doc, keys);
        OpenTableSpells(doc, keys);
        CurrentFirst(next, keys);
      case ElementHeader(keys) =>
        HeaderIs(doc, keys);
        OpenElementSpells(doc, keys);
        CurrentFirst(next, keys);
    }
  }

  lemma {:induction false} HeaderIs(doc: Doc, keys: seq<Text>)
    requires keys != []
    ensures Apply(doc, Header(keys)) == OpenTable(doc, keys) && Apply(doc, ElementHeader(keys)) == OpenElement(doc, keys)
  {
    hide OpenTable, OpenElement;
  }

  lemma {:induction false} CurrentFirst(next: Doc, keys: seq<Text>)
    requires next.top.Table? && IsTableAt(next.top, next.curtab) && keys != [] && KeySteps(next.curtab) == keys
    ensures var j := Find(next.top.entries, keys[0]); j >= 0 && !next.top.entries[j].val.Leaf?
  {
    var p := next.curtab;
    assert p != [];
    assert Child(next.top, p[0]).Some?;
    KeyStepsFirst(p);
    FirstStep(next.top, p, keys[0]);
  }

  /** What an accepted expression does to the entries of the root: nothing but an entry more at the
      end, for the first part of a key that starts there and is new. */
  lemma {:induction false} RootStep(doc: Doc, e: Expr)
    requires DocValid(doc) && GoodExpr(e) && Apply(doc, e).Ok?
    ensures var r := Apply(doc, e).value.top;
            && r.Table? && doc.top.Table? && Continues(doc.top.entries, r.entries)
            && var n := |doc.top.entries|;
               if FromRoot(doc, e) && Find(doc.top.entries, e.keys[0]) < 0
               then |r.entries| == n + 1 && NewEntry(r.entries[n], e.keys[0], SoleValue(e))
               else |r.entries| == n
  {
    hide Apply, LeavesPlus, Grows, StrBytes, SameLeaves, ClosedKept, Closed, WellFormed, Lacks;
    ApplyValid(doc, e);
    var d, r := doc.top, Apply(doc, e).value.top;
    RootContinues(d, r);
    ExprGains(doc, e, []);
    RootLacks(d, InlineTables.StartOf(doc, e), e.keys);
    if FromRoot(doc, e) && Find(d.entries, e.keys[0]) < 0 {
      FirstPartThere(doc, e);
    }
  }
}
