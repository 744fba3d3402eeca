/** Where a header puts the current table: at the place its key spells, through the latest
    element of every array on the way. */
module HeaderPaths {
  import opened Basics
  import opened Datum
  import opened Trees
  import opened Documents
  import opened DocumentLaws

  /** The keys of a path, its array indices left out. */
  function KeySteps(p: Path): seq<Text> {
    if p == [] then []
    else if p[|p| - 1].K? then KeySteps(p[..|p| - 1]) + [p[|p| - 1].key]
    else KeySteps(p[..|p| - 1])
  }

  /** Every array index on the path is that of the last element. */
  ghost predicate Latest(d: Datum, p: Path) {
    forall i :: 0 <= i < |p| && p[i].I? ==> IsLast(d, p[..i], p[i].idx)
  }

  ghost predicate IsLast(d: Datum, p: Path, idx: nat) {
    NodeAt(d, p).Some? && NodeAt(d, p).value.ArrayNode? && NodeAt(d, p).value.size == idx + 1
  }

  lemma KeyStepsNext(p: Path, s: Step)
    ensures KeySteps(p + [s]) == if s.K? then KeySteps(p) + [s.key] else KeySteps(p)
  {
    assert (p + [s])[..|p|] == p;
  }

  lemma LatestNext(d: Datum, p: Path, s: Step)
    requires Latest(d, p) && (s.I? ==> IsLast(d, p, s.idx))
    ensures Latest(d, p + [s])
  {
    var q := p + [s];
    forall i | 0 <= i < |q| && q[i].I? ensures IsLast(d, q[..i], q[i].idx) {
      assert q[..i] == p[..i];
      if i == |p| {
        assert p[..i] == p;
      }
    }
  }

  /** A change that leaves the nodes before the end of the path alone keeps it so. */
  lemma LatestKept(d: Datum, r: Datum, p: Path)
    requires Latest(d, p)
    requires forall q: Path :: |q| < |p| && NodeAt(d, q).Some? && NodeAt(d, q).value.ArrayNode? ==>
               NodeAt(r, q) == NodeAt(d, q)
    ensures Latest(r, p)
  {
    forall i | 0 <= i < |p| && p[i].I? ensures IsLast(r, p[..i], p[i].idx) {
      assert IsLast(d, p[..i], p[i].idx);
    }
  }

  lemma StepSpells(d: Datum, p: Path, k: Text, w: Walker, i: nat)
    requires WellFormed(d) && IsTableAt(d, p) && WalkStep(d, p, k, w, i).Ok? && Latest(d, p)
    ensures var (r, p') := WalkStep(d, p, k, w, i).value;
            KeySteps(p') == KeySteps(p) + [k] && Latest(r, p')
  {
    hide WalkStep, WellFormed, Prepared;
    WalkStepEffect(d, p, k, w, i);
    var (r, p') := WalkStep(d, p, k, w, i).value;
    LatestKept(d, r, p);
    KeyStepsNext(p, K(k));
    LatestNext(r, p, K(k));
    if p' != p + [K(k)] {
      var n := |At(r, p + [K(k)]).value.elems| - 1;
      KeyStepsNext(p + [K(k)], I(n));
      LatestNext(r, p + [K(k)], I(n));
    }
  }

  lemma {:induction false} WalkSpells(d: Datum, p: Path, keys: seq<Text>, w: Walker, i: nat)
    requires WellFormed(d) && IsTableAt(d, p) && Walk(d, p, keys, w, i).Ok? && Latest(d, p)
    ensures var (r, p') := Walk(d, p, keys, w, i).value;
            KeySteps(p') == KeySteps(p) + keys && Latest(r, p')
    decreases |keys|
  {
    hide WalkStep, WellFormed, OnlyAt, Reached, KeySteps, Latest, Grows, SameLeaves, StrBytes;
    if keys == [] {
      assert KeySteps(p) + [] == KeySteps(p);
    } else {
      StepSpells(d, p, keys[0], w, i);
      WalkStepEffect(d, p, keys[0], w, i);
      var (d', p') := WalkStep(d, p, keys[0], w, i).value;
      WalkSpells(d', p', keys[1..], w, i + 1);
      Assoc(KeySteps(p), [keys[0]], keys[1..]);
      assert [keys[0]] + keys[1..] == keys;
    }
  }

  /** [a.b.c] makes the table spelled a.b.c current. */
  lemma OpenTableSpells(doc: Doc, keys: seq<Text>)
    requires DocValid(doc) && keys != [] && OpenTable(doc, keys).Ok?
    ensures var next := OpenTable(doc, keys).value;
            KeySteps(next.curtab) == keys && Latest(next.top, next.curtab)
  {
    hide Walk, WellFormed, Prepared, KeySteps, Latest;
    var n := |keys| - 1;
    StartOf(doc.top);
    WalkSpells(doc.top, [], keys[..n], TableHeader, 0);
    var (d, p) := Walk(doc.top, [], keys[..n], TableHeader, 0).value;
    WalkEffect(doc.top, [], keys[..n], TableHeader, 0);
    var q := p + [K(keys[n])];
    KeyStepsNext(p, K(keys[n]));
    LatestNext(d, p, K(keys[n]));
    assert [] + keys[..n] + [keys[n]] == keys;
    OpenKeepsLatest(doc, d, p, keys);
  }

  lemma StartOf(d: Datum)
    requires d.Table?
    ensures IsTableAt(d, []) && Latest(d, []) && KeySteps([]) == []
  {}

  lemma OpenKeepsLatest(doc: Doc, d: Datum, p: Path, keys: seq<Text>)
    requires keys != [] && Walk(doc.top, [], keys[..|keys| - 1], TableHeader, 0) == Ok((d, p))
    requires Prepared(doc.top, d, p) && Latest(d, p + [K(keys[|keys| - 1])]) && OpenTable(doc, keys).Ok?
    ensures var next := OpenTable(doc, keys).value;
            next.curtab == p + [K(keys[|keys| - 1])] && Latest(next.top, next.curtab)
  {
    hide Walk, WellFormed, Put, Grows, SameLeaves, StrBytes, Latest;
    var k := keys[|keys| - 1];
    var q := p + [K(k)];
    var next := OpenTable(doc, keys).value;
    if Find(At(d, p).value.entries, k) < 0 {
      AddEmpty(d, p, k, Table(Flags(false, true, true), []));
      forall x: Path | |x| < |q| && NodeAt(d, x).Some? && NodeAt(d, x).value.ArrayNode?
        ensures NodeAt(next.top, x) == NodeAt(d, x) {}
    } else {
      StepInto(d, p, k);
      forall x: Path | |x| < |q| ensures NodeAt(next.top, x) == NodeAt(d, x) {
        SetExplicitEffect(d, q, x);
      }
    }
    LatestKept(d, next.top, q);
  }

  /** [[a.b.c]] makes a new last element of the array spelled a.b.c current. */
  lemma OpenElementSpells(doc: Doc, keys: seq<Text>)
    requires DocValid(doc) && keys != [] && OpenElement(doc, keys).Ok?
    ensures var next := OpenElement(doc, keys).value;
            && KeySteps(next.curtab) == keys && Latest(next.top, next.curtab)
            && next.curtab != [] && next.curtab[|next.curtab| - 1].I?
            && At(next.top, next.curtab) == Some(EMPTY_TABLE)
  {
    hide Walk, WellFormed, Grows, SameLeaves, StrBytes, KeySteps, Latest, AddElem;
    var n := |keys| - 1;
    StartOf(doc.top);
    WalkSpells(doc.top, [], keys[..n], ArrayHeader, 0);
    var (d, p) := Walk(doc.top, [], keys[..n], ArrayHeader, 0).value;
    WalkEffect(doc.top, [], keys[..n], ArrayHeader, 0);
    var q := p + [K(keys[n])];
    assert [] + keys[..n] + [keys[n]] == keys;
    KeyStepsNext(p, K(keys[n]));
    LatestNext(d, p, K(keys[n]));
    var e := if Find(At(d, p).value.entries, keys[n]) < 0
             then TabAdd(d, p, keys[n], Array(NO_FLAGS, [])).value else d;
    ArrayReady(d, p, keys[n], e);
    KeyStepsNext(q, I(|At(e, q).value.elems|));
    AppendedLatest(e, q);
  }

  lemma ArrayReady(d: Datum, p: Path, k: Text, e: Datum)
    requires WellFormed(d) && IsTableAt(d, p) && Latest(d, p + [K(k)])
    requires if Find(At(d, p).value.entries, k) < 0 then TabAdd(d, p, k, Array(NO_FLAGS, [])) == Ok(e) else e == d
    ensures WellFormed(e) && Latest(e, p + [K(k)])
  {
    hide WellFormed, Put, Grows, SameLeaves, StrBytes, Latest;
    if Find(At(d, p).value.entries, k) < 0 {
      AddEmpty(d, p, k, Array(NO_FLAGS, []));
      LatestKept(d, e, p + [K(k)]);
    }
  }

  lemma AppendedLatest(d: Datum, q: Path)
    requires WellFormed(d) && Latest(d, q) && At(d, q).Some? && At(d, q).value.Array?
    requires |At(d, q).value.elems| < ARRAY_MAX
    ensures var n := |At(d, q).value.elems|;
            Latest(AddElem(d, q, EMPTY_TABLE), q + [I(n)])
            && At(AddElem(d, q, EMPTY_TABLE), q + [I(n)]) == Some(EMPTY_TABLE)
  {
    hide AddElem, Latest, WellFormed;
    var n := |At(d, q).value.elems|;
    var r := AddElem(d, q, EMPTY_TABLE);
    AddElemKeeps(d, q);
    forall x: Path | |x| < |q| ensures NodeAt(r, x) == NodeAt(d, x) {
      AddElemEffect(d, q, EMPTY_TABLE, x);
    }
    LatestKept(d, r, q);
    AddElemEffect(d, q, EMPTY_TABLE, q);
    LatestNext(r, q, I(n));
  }
}
