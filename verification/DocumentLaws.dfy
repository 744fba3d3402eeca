/** What every expression keeps, for each kind of expression. */
module DocumentLaws {
  import opened Basics
  import opened Datum
  import opened Trees
  import opened Documents

  /** r is d prepared for something to happen in the table at p: grown by empty tables at
      most, so no leaf has come, gone or changed. */
  ghost predicate Prepared(d: Datum, r: Datum, p: Path) {
    WellFormed(r) && Grows(d, r) && StrBytes(r) == StrBytes(d) && SameLeaves(d, r) && IsTableAt(r, p)
  }

  lemma PreparedSelf(d: Datum, p: Path)
    requires WellFormed(d) && IsTableAt(d, p)
    ensures Prepared(d, d, p)
  {
    GrowsReflexive(d);
  }

  lemma PreparedTrans(d: Datum, r: Datum, p: Path, s: Datum, q: Path)
    requires Prepared(d, r, p) && Prepared(r, s, q)
    ensures Prepared(d, s, q)
  {
    hide WellFormed, StrBytes, Grows, LeafAt;
    GrowsTransitive(d, r, s);
    forall x: Path ensures LeafAt(s, x) == LeafAt(d, x) {
      assert LeafAt(s, x) == LeafAt(r, x);
    }
  }

  /** Nothing but the table at p differs between d and r in what was there already. */
  ghost predicate OnlyAt(d: Datum, r: Datum, p: Path) {
    forall q: Path :: q != p && NodeAt(d, q).Some? ==> NodeAt(r, q) == NodeAt(d, q)
  }

  lemma AddedOnlyAt(d: Datum, p: Path, k: Text, v: Datum)
    requires IsTableAt(d, p) && Find(At(d, p).value.entries, k) < 0
    ensures OnlyAt(d, AddEntry(d, p, k, v), p)
  {
    forall q: Path | q != p && NodeAt(d, q).Some?
      ensures NodeAt(AddEntry(d, p, k, v), q) == NodeAt(d, q)
    {
      AddEntryEffect(d, p, k, v, q);
      if p + [K(k)] <= q {
        NoPlaceBelow(d, p, K(k), q);
      }
    }
  }

  /** An empty table or array in a new entry adds no leaf. */
  lemma AddEmpty(d: Datum, p: Path, k: Text, v: Datum)
    requires WellFormed(d) && IsTableAt(d, p) && TabAdd(d, p, k, v).Ok?
    requires (v.Table? && v.entries == []) || (v.Array? && v.elems == [] && !v.flag.stdexpr && !v.flag.explicit)
    ensures var r := TabAdd(d, p, k, v).value;
            && r == AddEntry(d, p, k, v) && Find(At(d, p).value.entries, k) < 0
            && WellFormed(r) && Grows(d, r) && StrBytes(r) == StrBytes(d) && SameLeaves(d, r)
            && At(r, p + [K(k)]) == Some(v) && OnlyAt(d, r, p)
  {
    hide LeavesPlus, OnlyAt, SameLeaves, Grows;
    TabAddEffect(d, p, k, v);
    AddedOnlyAt(d, p, k, v);
    forall q: Path | p + [K(k)] <= q ensures At(d, q).None? {
      NoPlaceBelow(d, p, K(k), q);
    }
    EmptyLeaves(d, TabAdd(d, p, k, v).value, p + [K(k)], v);
  }

  lemma StepInto(d: Datum, p: Path, k: Text)
    requires IsTableAt(d, p) && Find(At(d, p).value.entries, k) >= 0
    ensures At(d, p + [K(k)]) == Some(At(d, p).value.entries[Find(At(d, p).value.entries, k)].val)
  {
    AtStep(d, p, K(k));
  }

  lemma StepIntoLast(d: Datum, p: Path)
    requires At(d, p).Some? && At(d, p).value.Array? && At(d, p).value.elems != []
    ensures var xs := At(d, p).value.elems; At(d, p + [I(|xs| - 1)]) == Some(xs[|xs| - 1])
  {
    AtStep(d, p, I(|At(d, p).value.elems| - 1));
  }

  /** The step ends at the key, or at the last element of the array under the key. */
  ghost predicate Reached(r: Datum, p: Path, k: Text, p': Path) {
    || p' == p + [K(k)]
    || (At(r, p + [K(k)]).Some? && At(r, p + [K(k)]).value.Array? && At(r, p + [K(k)]).value.elems != []
        && p' == p + [K(k)] + [I(|At(r, p + [K(k)]).value.elems| - 1)])
  }

  lemma {:induction false} WalkStepEffect(d: Datum, p: Path, k: Text, w: Walker, i: nat)
    requires WellFormed(d) && WalkStep(d, p, k, w, i).Ok?
    ensures var (r, p') := WalkStep(d, p, k, w, i).value;
            && Prepared(d, r, p') && OnlyAt(d, r, p) && Reached(r, p, k, p')
            && (w.KeyValue? ==> p' == p + [K(k)])
            && (r != d ==> w.KeyValue? && i > 0 ==> !At(d, p).value.flag.explicit)
  {
    hide WellFormed, StrBytes, Grows, SameLeaves;
    var t := At(d, p).value;
    var j := Find(t.entries, k);
    if j < 0 {
      AddEmpty(d, p, k, Implicit(w));
    } else {
      StepInto(d, p, k);
      var p' := WalkStep(d, p, k, w, i).value.1;
      if t.entries[j].val.Array? {
        StepIntoLast(d, p + [K(k)]);
        assert p' == p + [K(k)] + [I(|t.entries[j].val.elems| - 1)];
      }
      PreparedSelf(d, p');
    }
  }

  lemma {:induction false} WalkEffect(d: Datum, p: Path, keys: seq<Text>, w: Walker, i: nat)
    requires WellFormed(d) && IsTableAt(d, p) && Walk(d, p, keys, w, i).Ok?
    ensures var (r, p') := Walk(d, p, keys, w, i).value; Prepared(d, r, p')
    decreases |keys|
  {
    hide WalkStep;
    if keys == [] {
      PreparedSelf(d, p);
    } else {
      WalkStepEffect(d, p, keys[0], w, i);
      var (d', p') := WalkStep(d, p, keys[0], w, i).value;
      WalkEffect(d', p', keys[1..], w, i + 1);
      var (r, q) := Walk(d, p, keys, w, i).value;
      PreparedTrans(d, d', p', r, q);
    }
  }

  /** The K steps that spell keys. */
  function KeyPath(keys: seq<Text>): (p: Path)
    ensures |p| == |keys|
  {
    seq(|keys|, i requires 0 <= i < |keys| => K(keys[i]))
  }

  /** A key/value descends through tables only: straight along its key parts. */
  lemma {:induction false} KeyValueWalk(d: Datum, p: Path, keys: seq<Text>, i: nat)
    requires WellFormed(d) && IsTableAt(d, p) && Walk(d, p, keys, KeyValue, i).Ok?
    ensures Walk(d, p, keys, KeyValue, i).value.1 == p + KeyPath(keys)
    decreases |keys|, 1
  {
    hide WalkStep, Prepared, OnlyAt, Reached;
    if keys == [] {
      assert p + KeyPath([]) == p;
    } else {
      WalkStepEffect(d, p, keys[0], KeyValue, i);
      var (d', p') := WalkStep(d, p, keys[0], KeyValue, i).value;
      assert Prepared(d, d', p');
      KeyValueWalkRest(d, p, keys, i);
    }
  }

  lemma KeyValueWalkRest(d: Datum, p: Path, keys: seq<Text>, i: nat)
    requires keys != [] && WellFormed(d) && Walk(d, p, keys, KeyValue, i).Ok?
    requires var r := WalkStep(d, p, keys[0], KeyValue, i);
             r.Ok? && Prepared(d, r.value.0, r.value.1) && r.value.1 == p + [K(keys[0])]
    ensures Walk(d, p, keys, KeyValue, i).value.1 == p + KeyPath(keys)
    decreases |keys|, 0
  {
    var (d', p') := WalkStep(d, p, keys[0], KeyValue, i).value;
    KeyValueWalk(d', p', keys[1..], i + 1);
    assert KeyPath(keys) == [K(keys[0])] + KeyPath(keys[1..]);
    Assoc(p, [K(keys[0])], KeyPath(keys[1..]));
  }

  // ---------- one expression

  /** A place nothing more may be added to by a key/value, once it is no longer current:
      the root, an array element, or a table a header has defined. */
  ghost predicate Closed(d: Datum, q: Path) {
    At(d, q).Some? && (q == [] || q[|q| - 1].I? || (At(d, q).value.Table? && At(d, q).value.flag.explicit))
  }

  lemma ClosedGrows(d: Datum, r: Datum, q: Path)
    requires Closed(d, q) && Grows(d, r)
    ensures Closed(r, q)
  {
    assert GrowsAt(d, r, q);
  }

  /** What holds of the document after every successful expression. */
  ghost predicate DocValid(doc: Doc) {
    WellFormed(doc.top) && doc.top.Table? && IsTableAt(doc.top, doc.curtab) && Closed(doc.top, doc.curtab)
  }

  lemma TableGrows(d: Datum, r: Datum, p: Path)
    requires Grows(d, r) && IsTableAt(d, p)
    ensures IsTableAt(r, p)
  {
    assert GrowsAt(d, r, p);
  }

  /** The root of a grown table is a table. */
  lemma RootGrows(d: Datum, r: Datum)
    requires Grows(d, r) && d.Table?
    ensures r.Table?
  {
    assert IsTableAt(d, []);
    TableGrows(d, r, []);
  }

  lemma SetExplicitKeeps(d: Datum, p: Path)
    requires WellFormed(d) && IsTableAt(d, p)
    ensures var r := SetExplicit(d, p);
            && WellFormed(r) && Grows(d, r) && StrBytes(r) == StrBytes(d) && SameLeaves(d, r)
            && IsTableAt(r, p) && At(r, p).value.flag.explicit
  {
    hide StrBytes, Put;
    var t := At(d, p).value;
    var u := Table(t.flag.(explicit := true), t.entries);
    var r := SetExplicit(d, p);
    AtWellFormed(d, p);
    PutWellFormed(d, p, u);
    PutBytes(d, p, u);
    SameEntriesBytes(t, u);
    forall q: Path ensures GrowsAt(d, r, q) && LeafAt(r, q) == LeafAt(d, q) {
      SetExplicitEffect(d, p, q);
    }
    SetExplicitEffect(d, p, p);
  }

  lemma SameEntriesBytes(t: Datum, u: Datum)
    requires t.Table? && u.Table? && t.entries == u.entries
    ensures StrBytes(t) == StrBytes(u)
  {}

  /** What a header of either kind leaves behind: no leaf has changed, and the current table
      is a place that was neither current nor closed before. */
  ghost predicate Opened(doc: Doc, next: Doc) {
    && DocValid(next) && Grows(doc.top, next.top) && StrBytes(next.top) == StrBytes(doc.top)
    && SameLeaves(doc.top, next.top)
    && !Closed(doc.top, next.curtab)
  }

  lemma OpenTableEffect(doc: Doc, keys: seq<Text>)
    requires DocValid(doc) && keys != [] && OpenTable(doc, keys).Ok?
    ensures Opened(doc, OpenTable(doc, keys).value)
  {
    var n := |keys| - 1;
    assert IsTableAt(doc.top, []);
    WalkEffect(doc.top, [], keys[..n], TableHeader, 0);
    var (d, p) := Walk(doc.top, [], keys[..n], TableHeader, 0).value;
    if Find(At(d, p).value.entries, keys[n]) < 0 {
      OpenNew(doc, d, p, keys[n], OpenTable(doc, keys).value);
    } else {
      OpenOld(doc, d, p, keys[n]);
    }
  }

  lemma OpenNew(doc: Doc, d: Datum, p: Path, k: Text, next: Doc)
    requires DocValid(doc) && Prepared(doc.top, d, p) && Find(At(d, p).value.entries, k) < 0
    requires var r := TabAdd(d, p, k, Table(Flags(false, true, true), []));
             r.Ok? && next == Doc(r.value, p + [K(k)])
    ensures Opened(doc, next)
  {
    hide WellFormed, StrBytes, Grows, SameLeaves, OnlyAt;
    var q := p + [K(k)];
    AddEmpty(d, p, k, Table(Flags(false, true, true), []));
    AddedChain(doc.top, d, p, next.top, q);
    NoPlaceBelow(d, p, K(k), q);
    if Closed(doc.top, q) {
      ClosedGrows(doc.top, d, q);
    }
  }

  /** A change after a preparation, when the change is of the same kind. */
  lemma AddedChain(d: Datum, r: Datum, p: Path, s: Datum, q: Path)
    requires Prepared(d, r, p)
    requires WellFormed(s) && Grows(r, s) && StrBytes(s) == StrBytes(r) && SameLeaves(r, s) && IsTableAt(s, q)
    requires d.Table?
    ensures Prepared(d, s, q) && s.Table?
  {
    hide WellFormed, StrBytes, Grows, SameLeaves;
    PreparedTrans(d, r, p, s, q);
    RootGrows(d, s);
  }

  lemma OpenOld(doc: Doc, d: Datum, p: Path, k: Text)
    requires DocValid(doc) && Prepared(doc.top, d, p) && Find(At(d, p).value.entries, k) >= 0
    requires var v := At(d, p).value.entries[Find(At(d, p).value.entries, k)].val;
             v.Table? && !v.flag.explicit
    ensures Opened(doc, OpenFound(d, p, k).value)
  {
    hide WellFormed, StrBytes, Grows, SameLeaves, Put;
    var q := p + [K(k)];
    StepInto(d, p, k);
    SetExplicitKeeps(d, q);
    var s := SetExplicit(d, q);
    AddedChain(doc.top, d, p, s, q);
    if Closed(doc.top, q) {
      ClosedGrows(doc.top, d, q);
    }
  }

  /** A new empty table at the end of an array. */
  lemma {:induction false} AddElemKeeps(d: Datum, q: Path)
    requires WellFormed(d) && At(d, q).Some? && At(d, q).value.Array? && |At(d, q).value.elems| < ARRAY_MAX
    ensures var r := AddElem(d, q, EMPTY_TABLE);
            var e := q + [I(|At(d, q).value.elems|)];
            && WellFormed(r) && Grows(d, r) && StrBytes(r) == StrBytes(d) && SameLeaves(d, r)
            && At(d, e).None? && At(r, e) == Some(EMPTY_TABLE)
  {
    hide StrBytes, Put;
    var a := At(d, q).value;
    var u := a.(elems := a.elems + [EMPTY_TABLE]);
    var r := AddElem(d, q, EMPTY_TABLE);
    var e := q + [I(|a.elems|)];
    AtWellFormed(d, q);
    assert WellFormed(EMPTY_TABLE);
    PutWellFormed(d, q, u);
    PutBytes(d, q, u);
    AddedElemBytes(a);
    NoPlaceBelow(d, q, I(|a.elems|), e);
    forall x: Path ensures GrowsAt(d, r, x) && LeafAt(r, x) == LeafAt(d, x) {
      AddElemEffect(d, q, EMPTY_TABLE, x);
      if e <= x {
        NoPlaceBelow(d, q, I(|a.elems|), x);
        var y := x[|q| + 1..];
        assert y == [] || Child(EMPTY_TABLE, y[0]).None?;
      }
    }
    AddElemEffect(d, q, EMPTY_TABLE, e);
    assert e[|q| + 1..] == [];
  }

  lemma AddedElemBytes(a: Datum)
    requires a.Array?
    ensures StrBytes(a.(elems := a.elems + [EMPTY_TABLE])) == StrBytes(a)
  {
    ElemBytesAppend(a.elems, EMPTY_TABLE);
    assert StrBytes(EMPTY_TABLE) == 0;
  }

  lemma OpenElementEffect(doc: Doc, keys: seq<Text>)
    requires DocValid(doc) && keys != [] && OpenElement(doc, keys).Ok?
    ensures Opened(doc, OpenElement(doc, keys).value)
  {
    hide WellFormed, StrBytes, Grows, SameLeaves, OnlyAt;
    var n := |keys| - 1;
    assert IsTableAt(doc.top, []);
    WalkEffect(doc.top, [], keys[..n], ArrayHeader, 0);
    var (d, p) := Walk(doc.top, [], keys[..n], ArrayHeader, 0).value;
    var q := p + [K(keys[n])];
    if Find(At(d, p).value.entries, keys[n]) < 0 {
      AddEmpty(d, p, keys[n], Array(NO_FLAGS, []));
      var e := TabAdd(d, p, keys[n], Array(NO_FLAGS, [])).value;
      TableGrows(d, e, p);
      AddedChain(doc.top, d, p, e, p);
      OpenAppended(doc, e, p, q);
    } else {
      OpenAppended(doc, d, p, q);
    }
  }

  lemma OpenAppended(doc: Doc, d: Datum, p: Path, q: Path)
    requires DocValid(doc) && Prepared(doc.top, d, p)
    requires At(d, q).Some? && At(d, q).value.Array? && |At(d, q).value.elems| < ARRAY_MAX
    ensures Opened(doc, Doc(AddElem(d, q, EMPTY_TABLE), q + [I(|At(d, q).value.elems|)]))
  {
    hide WellFormed, StrBytes, Grows, SameLeaves, AddElem;
    var r := AddElem(d, q, EMPTY_TABLE);
    var e := q + [I(|At(d, q).value.elems|)];
    AddElemKeeps(d, q);
    AddedChain(doc.top, d, p, r, e);
    if Closed(doc.top, e) {
      ClosedGrows(doc.top, d, e);
    }
  }

  /** What a key/value leaves behind: the leaves of its value, at the place its key spells from
      the current table, and not a new entry in any closed table but the current one. */
  ghost predicate Assigned(doc: Doc, next: Doc, keys: seq<Text>, v: Datum) {
    && DocValid(next) && next.curtab == doc.curtab && Grows(doc.top, next.top)
    && StrBytes(next.top) == StrBytes(doc.top) + StrBytes(v)
    && LeavesPlus(doc.top, next.top, doc.curtab + KeyPath(keys), v)
    && At(doc.top, doc.curtab + KeyPath(keys)).None?
    && At(next.top, doc.curtab + KeyPath(keys)) == Some(v)
  }

  ghost predicate ClosedKept(d: Datum, r: Datum, except: Path) {
    forall q: Path :: Closed(d, q) && q != except ==> NodeAt(r, q) == NodeAt(d, q)
  }

  lemma KeyValueEffect(doc: Doc, keys: seq<Text>, v: Datum)
    requires DocValid(doc) && WellFormed(v) && keys != [] && Apply(doc, KeyVal(keys, v)).Ok?
    ensures Assigned(doc, Apply(doc, KeyVal(keys, v)).value, keys, v)
  {
    hide Walk, TabAdd, WellFormed, StrBytes, Grows, SameLeaves, LeavesPlus, Closed;
    var n := |keys| - 1;
    WalkEffect(doc.top, doc.curtab, keys[..n], KeyValue, 0);
    KeyValueWalk(doc.top, doc.curtab, keys[..n], 0);
    var (d, p) := Walk(doc.top, doc.curtab, keys[..n], KeyValue, 0).value;
    assert KeyPath(keys) == KeyPath(keys[..n]) + [K(keys[n])];
    Assoc(doc.curtab, KeyPath(keys[..n]), [K(keys[n])]);
    KeyValueAdds(doc, d, p, keys[n], v);
  }

  lemma KeyValueAdds(doc: Doc, d: Datum, p: Path, k: Text, v: Datum)
    requires DocValid(doc) && WellFormed(v) && Prepared(doc.top, d, p) && TabAdd(d, p, k, v).Ok?
    ensures var r := TabAdd(d, p, k, v).value;
            && DocValid(Doc(r, doc.curtab)) && Grows(doc.top, r) && StrBytes(r) == StrBytes(doc.top) + StrBytes(v)
            && LeavesPlus(doc.top, r, p + [K(k)], v)
            && At(doc.top, p + [K(k)]).None? && At(r, p + [K(k)]) == Some(v)
  {
    hide WellFormed, StrBytes, Grows, TabAdd, LeafAt, Closed;
    TabAddEffect(d, p, k, v);
    var r := TabAdd(d, p, k, v).value;
    GrowsTransitive(doc.top, d, r);
    RootGrows(doc.top, r);
    TableGrows(doc.top, r, doc.curtab);
    ClosedGrows(doc.top, r, doc.curtab);
    forall q: Path
      ensures LeafAt(r, q) == if p + [K(k)] <= q then LeafAt(v, q[|p + [K(k)]|..]) else LeafAt(doc.top, q)
    {
      assert LeafAt(d, q) == LeafAt(doc.top, q);
    }
    NotThereBefore(doc.top, d, p, k);
  }

  lemma NotThereBefore(d: Datum, r: Datum, p: Path, k: Text)
    requires Grows(d, r) && IsTableAt(r, p) && Find(At(r, p).value.entries, k) < 0
    ensures At(d, p + [K(k)]).None?
  {
    NoPlaceBelow(r, p, K(k), p + [K(k)]);
    assert GrowsAt(d, r, p + [K(k)]);
  }

  // ---------- key/values and closed tables

  /** The descent of a key/value leaves every closed place but its starting point as it was,
      and does not end in one that it has not started from. */
  lemma {:induction false} WalkClosed(d: Datum, p: Path, keys: seq<Text>, i: nat, start: Path)
    requires WellFormed(d) && IsTableAt(d, p) && Walk(d, p, keys, KeyValue, i).Ok?
    requires if i == 0 then p == start else p != [] && p[|p| - 1].K?
    ensures var (r, p') := Walk(d, p, keys, KeyValue, i).value;
            && ClosedKept(d, r, start)
            && (i + |keys| > 0 ==> p' != [] && p'[|p'| - 1].K?)
    decreases |keys|
  {
    hide WalkStep, Prepared;
    if keys != [] {
      StepClosed(d, p, keys[0], i, start);
      var (d', p') := WalkStep(d, p, keys[0], KeyValue, i).value;
      WalkClosed(d', p', keys[1..], i + 1, start);
      ClosedKeptTrans(d, d', Walk(d, p, keys, KeyValue, i).value.0, start);
    }
  }

  lemma StepClosed(d: Datum, p: Path, k: Text, i: nat, start: Path)
    requires WellFormed(d) && IsTableAt(d, p) && WalkStep(d, p, k, KeyValue, i).Ok?
    requires if i == 0 then p == start else p != [] && p[|p| - 1].K?
    ensures var (d', p') := WalkStep(d, p, k, KeyValue, i).value;
            && ClosedKept(d, d', start) && WellFormed(d') && IsTableAt(d', p')
            && p' != [] && p'[|p'| - 1].K?
  {
    WalkStepEffect(d, p, k, KeyValue, i);
    var d' := WalkStep(d, p, k, KeyValue, i).value.0;
    forall q: Path | Closed(d, q) && q != start ensures NodeAt(d', q) == NodeAt(d, q) {
      if q == p {
        assert d' == d;
      }
    }
  }

  lemma ClosedKeptTrans(d: Datum, r: Datum, s: Datum, start: Path)
    requires ClosedKept(d, r, start) && ClosedKept(r, s, start)
    ensures ClosedKept(d, s, start)
  {
    forall q: Path | Closed(d, q) && q != start ensures NodeAt(s, q) == NodeAt(d, q) {
      assert NodeAt(r, q) == NodeAt(d, q);
      SameNodeClosed(d, r, q);
    }
  }

  lemma SameNodeClosed(d: Datum, r: Datum, q: Path)
    requires Closed(d, q) && NodeAt(r, q) == NodeAt(d, q)
    ensures Closed(r, q)
  {}

  lemma KeyValueClosed(doc: Doc, keys: seq<Text>, v: Datum)
    requires DocValid(doc) && WellFormed(v) && keys != [] && Apply(doc, KeyVal(keys, v)).Ok?
    ensures ClosedKept(doc.top, Apply(doc, KeyVal(keys, v)).value.top, doc.curtab)
  {
    hide Walk, Put, WellFormed, Closed;
    var n := |keys| - 1;
    WalkEffect(doc.top, doc.curtab, keys[..n], KeyValue, 0);
    WalkClosed(doc.top, doc.curtab, keys[..n], 0, doc.curtab);
    var (d, p) := Walk(doc.top, doc.curtab, keys[..n], KeyValue, 0).value;
    if n == 0 {
      WalkNothing(doc.top, doc.curtab, keys[..n]);
    }
    LastClosed(d, p, keys[n], v, doc.curtab, n);
    ClosedKeptTrans(doc.top, d, TabAdd(d, p, keys[n], v).value, doc.curtab);
  }

  lemma WalkNothing(d: Datum, p: Path, keys: seq<Text>)
    requires keys == []
    ensures Walk(d, p, keys, KeyValue, 0) == Ok((d, p))
  {}

  lemma LastClosed(d: Datum, p: Path, k: Text, v: Datum, start: Path, n: nat)
    requires WellFormed(d) && WellFormed(v) && IsTableAt(d, p) && TabAdd(d, p, k, v).Ok?
    requires if n == 0 then p == start else p != [] && p[|p| - 1].K? && !At(d, p).value.flag.explicit
    ensures ClosedKept(d, TabAdd(d, p, k, v).value, start)
  {
    hide WellFormed, Put, LeavesPlus, Grows, StrBytes;
    TabAddEffect(d, p, k, v);
    AddedOnlyAt(d, p, k, v);
  }
}
