/** Which table of the tree an expression adds an entry to, and why inline tables are not frozen. */
module InlineTables {
  import opened Basics
  import opened Datum
  import opened Trees
  import opened Documents
  import opened DocumentLaws
  import opened DocumentRuns

  /** Where one key part leads that is there already: to a table, or through an array to its
      last element. */
  function NextPlace(d: Datum, p: Path, k: Text): Option<Path> {
    if !IsTableAt(d, p) || Find(At(d, p).value.entries, k) < 0 then None
    else
      var v := At(d, p).value.entries[Find(At(d, p).value.entries, k)].val;
      if v.Table? then Some(p + [K(k)])
      else if v.Array? && v.elems != [] && v.elems[|v.elems| - 1].Table? then Some(p + [K(k), I(|v.elems| - 1)])
      else None
  }

  /** The table that key parts lead to, if all of them are there. */
  function Place(d: Datum, p: Path, keys: seq<Text>): Option<Path>
    decreases |keys|
  {
    if keys == [] then Some(p)
    else
      var q :- NextPlace(d, p, keys[0]);
      Place(d, q, keys[1..])
  }

  /** The first m parts lead to the table at q, which lacks the next. */
  ghost predicate LacksAt(d: Datum, p: Path, keys: seq<Text>, q: Path, m: nat) {
    m < |keys| && Place(d, p, keys[..m]) == Some(q) && IsTableAt(d, q) && Find(At(d, q).value.entries, keys[m]) < 0
  }

  ghost predicate Lacks(d: Datum, p: Path, keys: seq<Text>, q: Path) {
    exists m: nat :: LacksAt(d, p, keys, q, m)
  }

  /** The number of entries of the table at q. */
  function Width(d: Datum, q: Path): nat {
    match NodeAt(d, q)
    case Some(TableNode(_, ks)) => |ks|
    case _ => 0
  }

  ghost function Gain(b: bool): nat { if b then 1 else 0 }

  lemma PlaceFirst(d: Datum, p: Path, keys: seq<Text>, m: nat)
    requires m < |keys|
    ensures Place(d, p, keys[..m + 1]) ==
            match NextPlace(d, p, keys[0]) case Some(p') => Place(d, p', keys[1..][..m]) case None => None
  {
    assert keys[..m + 1][0] == keys[0] && keys[..m + 1][1..] == keys[1..][..m];
  }

  /** The first part leads on: what the rest lacks is what the whole lacks. */
  lemma LacksRest(d: Datum, p: Path, keys: seq<Text>, p': Path, q: Path)
    requires keys != [] && NextPlace(d, p, keys[0]) == Some(p')
    ensures Lacks(d, p, keys, q) <==> Lacks(d, p', keys[1..], q)
  {
    hide NextPlace;
    if m: nat :| LacksAt(d, p, keys, q, m) {
      assert m > 0 by {
        FirstThere(d, p, keys);
        assert keys[..0] == [];
      }
      PlaceFirst(d, p, keys, m - 1);
      assert LacksAt(d, p', keys[1..], q, m - 1);
    }
    if m: nat :| LacksAt(d, p', keys[1..], q, m) {
      PlaceFirst(d, p, keys, m);
      assert LacksAt(d, p, keys, q, m + 1);
    }
  }

  lemma FirstThere(d: Datum, p: Path, keys: seq<Text>)
    requires keys != [] && NextPlace(d, p, keys[0]).Some?
    ensures Find(At(d, p).value.entries, keys[0]) >= 0
  {}

  /** The first part is missing: the table it is missing from is the only one. */
  lemma LacksFirst(d: Datum, p: Path, keys: seq<Text>, q: Path)
    requires keys != [] && IsTableAt(d, p) && Find(At(d, p).value.entries, keys[0]) < 0
    ensures Lacks(d, p, keys, q) <==> q == p
  {
    assert keys[..0] == [];
    if q == p {
      assert LacksAt(d, p, keys, q, 0);
    }
    if m: nat :| LacksAt(d, p, keys, q, m) && m > 0 {
      PlaceFirst(d, p, keys, m - 1);
    }
  }

  lemma {:induction false} PlaceBelow(d: Datum, p: Path, keys: seq<Text>)
    ensures Place(d, p, keys).Some? ==> p <= Place(d, p, keys).value
    decreases |keys|
  {
    if keys != [] && NextPlace(d, p, keys[0]).Some? {
      PlaceBelow(d, NextPlace(d, p, keys[0]).value, keys[1..]);
    }
  }

  /** Nothing in a table that has just been created is a place that existed already. */
  lemma NotLackedLater(d: Datum, p: Path, k: Text, d': Datum, keys: seq<Text>, q: Path)
    requires IsTableAt(d, p) && Find(At(d, p).value.entries, k) < 0 && NodeAt(d, q).Some?
    ensures !Lacks(d', p + [K(k)], keys, q)
  {
    if m: nat :| LacksAt(d', p + [K(k)], keys, q, m) {
      PlaceBelow(d', p + [K(k)], keys[..m]);
      NoPlaceBelow(d, p, K(k), q);
    }
  }

  // ---------- the descent

  /** One turn: either the part is there and nothing changes, or the table at p gains it. */
  lemma {:induction false} StepGains(d: Datum, p: Path, k: Text, w: Walker, i: nat, q: Path)
    requires WellFormed(d) && IsTableAt(d, p) && WalkStep(d, p, k, w, i).Ok? && NodeAt(d, q).Some?
    ensures var (d', p') := WalkStep(d, p, k, w, i).value;
            && WellFormed(d') && IsTableAt(d', p') && NodeAt(d', q).Some?
            && (if Find(At(d, p).value.entries, k) >= 0 then d' == d && NextPlace(d, p, k) == Some(p')
                else p' == p + [K(k)])
            && Width(d', q) == Width(d, q) + Gain(Find(At(d, p).value.entries, k) < 0 && q == p)
  {
    hide Put, WellFormed, Grows, SameLeaves, StrBytes;
    WalkStepEffect(d, p, k, w, i);
    if Find(At(d, p).value.entries, k) < 0 {
      AddEmpty(d, p, k, Implicit(w));
      EntryGains(d, p, k, Implicit(w), q);
    }
  }

  lemma EntryGains(d: Datum, p: Path, k: Text, v: Datum, q: Path)
    requires IsTableAt(d, p) && Find(At(d, p).value.entries, k) < 0 && NodeAt(d, q).Some?
    ensures NodeAt(AddEntry(d, p, k, v), q).Some?
    ensures Width(AddEntry(d, p, k, v), q) == Width(d, q) + Gain(q == p)
  {
    hide Put;
    AddEntryEffect(d, p, k, v, q);
    if p + [K(k)] <= q {
      NoPlaceBelow(d, p, K(k), q);
    }
  }

  lemma {:induction false} WalkGains(d: Datum, p: Path, keys: seq<Text>, w: Walker, i: nat, q: Path)
    requires WellFormed(d) && IsTableAt(d, p) && Walk(d, p, keys, w, i).Ok? && NodeAt(d, q).Some?
    ensures var r := Walk(d, p, keys, w, i).value.0;
            NodeAt(r, q).Some? && Width(r, q) == Width(d, q) + Gain(Lacks(d, p, keys, q))
    decreases |keys|
  {
    hide WalkStep, Lacks, NextPlace, Width, WellFormed;
    if keys == [] {
      NothingLacks(d, p, q);
    } else {
      StepGains(d, p, keys[0], w, i, q);
      var (d', p') := WalkStep(d, p, keys[0], w, i).value;
      WalkGains(d', p', keys[1..], w, i + 1, q);
      if Find(At(d, p).value.entries, keys[0]) >= 0 {
        LacksRest(d, p, keys, p', q);
      } else {
        LacksFirst(d, p, keys, q);
        NotLackedLater(d, p, keys[0], d', keys[1..], q);
      }
    }
  }

  lemma NothingLacks(d: Datum, p: Path, q: Path)
    ensures !Lacks(d, p, [], q)
  {}

  /** The descent ends where its parts lead, with nothing changed, or in a new table. */
  lemma {:induction false} WalkPlace(d: Datum, p: Path, keys: seq<Text>, w: Walker, i: nat)
    requires WellFormed(d) && IsTableAt(d, p) && Walk(d, p, keys, w, i).Ok?
    ensures var (r, p') := Walk(d, p, keys, w, i).value;
            if Place(d, p, keys).Some? then r == d && p' == Place(d, p, keys).value else NodeAt(d, p').None?
    decreases |keys|
  {
    hide WalkStep, NextPlace, WellFormed, Width;
    if keys != [] {
      StepGains(d, p, keys[0], w, i, p);
      var (d', p') := WalkStep(d, p, keys[0], w, i).value;
      if Find(At(d, p).value.entries, keys[0]) >= 0 {
        WalkPlace(d', p', keys[1..], w, i + 1);
      } else {
        MissingPlace(d, p, keys[0]);
        WalkBelow(d', p', keys[1..], w, i + 1);
        NoPlaceBelow(d, p, K(keys[0]), Walk(d', p', keys[1..], w, i + 1).value.1);
      }
    }
  }

  lemma MissingPlace(d: Datum, p: Path, k: Text)
    requires IsTableAt(d, p) && Find(At(d, p).value.entries, k) < 0
    ensures NextPlace(d, p, k) == None
  {}

  lemma {:induction false} WalkBelow(d: Datum, p: Path, keys: seq<Text>, w: Walker, i: nat)
    requires Walk(d, p, keys, w, i).Ok?
    ensures p <= Walk(d, p, keys, w, i).value.1
    decreases |keys|
  {
    hide TabAdd, Put;
    if keys != [] {
      var (d', p') := WalkStep(d, p, keys[0], w, i).value;
      WalkBelow(d', p', keys[1..], w, i + 1);
    }
  }

  /** Lacking one of the parts is lacking one of the first n, or the last. */
  lemma {:induction false} LacksLast(d: Datum, p: Path, keys: seq<Text>, q: Path)
    requires keys != []
    ensures var n := |keys| - 1;
            Lacks(d, p, keys, q) <==> Lacks(d, p, keys[..n], q) || LacksAt(d, p, keys, q, n)
  {
    var n := |keys| - 1;
    var ks := keys[..n];
    if m: nat :| LacksAt(d, p, keys, q, m) && m < n {
      assert ks[..m] == keys[..m] && ks[m] == keys[m];
      assert LacksAt(d, p, ks, q, m);
    }
    if m: nat :| LacksAt(d, p, ks, q, m) {
      assert ks[..m] == keys[..m] && ks[m] == keys[m];
      assert LacksAt(d, p, keys, q, m);
    }
  }

  lemma NothingBeyond(d: Datum, p: Path, keys: seq<Text>, q: Path, m: nat, n: nat)
    requires LacksAt(d, p, keys, q, m) && m < n <= |keys|
    ensures Place(d, p, keys[..n]) == None
  {
    PlaceOnward(d, p, keys, m, n);
    assert keys[m..n][0] == keys[m];
    MissingPlace(d, q, keys[m]);
  }

  /** At most one table lacks a part of a key: nothing can be reached through it. */
  lemma LacksOnce(d: Datum, p: Path, keys: seq<Text>, q1: Path, q2: Path)
    requires Lacks(d, p, keys, q1) && Lacks(d, p, keys, q2)
    ensures q1 == q2
  {
    var m1: nat :| LacksAt(d, p, keys, q1, m1);
    var m2: nat :| LacksAt(d, p, keys, q2, m2);
    if m1 < m2 {
      NothingBeyond(d, p, keys, q1, m1, m2);
    } else if m2 < m1 {
      NothingBeyond(d, p, keys, q2, m2, m1);
    }
  }

  // ---------- whole expressions

  /** The descent to the last part, and the entry that the last part may add. */
  lemma DescentGains(d: Datum, start: Path, keys: seq<Text>, w: Walker, q: Path)
    requires WellFormed(d) && IsTableAt(d, start) && keys != [] && NodeAt(d, q).Some?
    requires Walk(d, start, keys[..|keys| - 1], w, 0).Ok?
    ensures var n := |keys| - 1;
            var (r, p) := Walk(d, start, keys[..n], w, 0).value;
            && IsTableAt(r, p) && NodeAt(r, q).Some?
            && Width(r, q) + Gain(q == p && Find(At(r, p).value.entries, keys[n]) < 0) ==
               Width(d, q) + Gain(Lacks(d, start, keys, q))
            && (q == p && Find(At(r, p).value.entries, keys[n]) < 0 <==> LacksAt(d, start, keys, q, n))
  {
    hide Walk, Lacks, Width, WellFormed, Place, Grows, SameLeaves, StrBytes;
    var n := |keys| - 1;
    WalkEffect(d, start, keys[..n], w, 0);
    WalkGains(d, start, keys[..n], w, 0, q);
    WalkPlace(d, start, keys[..n], w, 0);
    LacksLast(d, start, keys, q);
    if LacksAt(d, start, keys, q, n) {
      NotTwice(d, start, keys, q);
    }
  }

  /** A table the first n parts lead to is not one that lacks one of them. */
  lemma NotTwice(d: Datum, start: Path, keys: seq<Text>, q: Path)
    requires keys != [] && LacksAt(d, start, keys, q, |keys| - 1)
    ensures !Lacks(d, start, keys[..|keys| - 1], q)
  {
    var n := |keys| - 1;
    if m: nat :| LacksAt(d, start, keys[..n], q, m) {
      assert keys[..n][..m] == keys[..m] && keys[..n][m] == keys[m];
      NothingBeyond(d, start, keys, q, m, n);
    }
  }

  lemma {:induction false} PlaceOnward(d: Datum, p: Path, keys: seq<Text>, m: nat, n: nat)
    requires m <= n <= |keys| && Place(d, p, keys[..m]).Some?
    ensures Place(d, p, keys[..n]) == Place(d, Place(d, p, keys[..m]).value, keys[m..n])
    decreases m
  {
    hide NextPlace;
    if m == 0 {
      assert keys[..0] == [] && keys[0..n] == keys[..n];
    } else {
      PlaceFirst(d, p, keys, m - 1);
      PlaceFirst(d, p, keys, n - 1);
      PlaceOnward(d, NextPlace(d, p, keys[0]).value, keys[1..], m - 1, n - 1);
      assert keys[1..][m - 1..n - 1] == keys[m..n];
    }
  }

  ghost function StartOf(doc: Doc, e: Expr): Path { if e.KeyVal? then doc.curtab else [] }

  /** Of the tables that are there, an accepted expression adds an entry to exactly the one
      that the first parts of its key lead to and that lacks the next part. */
  lemma ExprGains(doc: Doc, e: Expr, q: Path)
    requires DocValid(doc) && GoodExpr(e) && Apply(doc, e).Ok? && NodeAt(doc.top, q).Some?
    ensures Width(Apply(doc, e).value.top, q) == Width(doc.top, q) + Gain(Lacks(doc.top, StartOf(doc, e), e.keys, q))
  {
    hide Walk, Lacks, LacksAt, Width, WellFormed, TabAdd, Closed, OpenFound;
    match e
    case KeyVal(keys, v) => KeyValueGains(doc, keys, v, q);
    case Header(keys) => HeaderGains(doc, keys, q);
    case ElementHeader(keys) => ElementGains(doc, keys, q);
  }

  lemma KeyValueGains(doc: Doc, keys: seq<Text>, v: Datum, q: Path)
    requires DocValid(doc) && keys != [] && WellFormed(v) && Apply(doc, KeyVal(keys, v)).Ok? && NodeAt(doc.top, q).Some?
    ensures Width(Apply(doc, KeyVal(keys, v)).value.top, q) ==
            Width(doc.top, q) + Gain(Lacks(doc.top, doc.curtab, keys, q))
  {
    hide Walk, Lacks, LacksAt, Width, WellFormed, Closed, Grows, LeavesPlus, SameLeaves, StrBytes, Put;
    var n := |keys| - 1;
    DescentGains(doc.top, doc.curtab, keys, KeyValue, q);
    WalkEffect(doc.top, doc.curtab, keys[..n], KeyValue, 0);
    var (d, p) := Walk(doc.top, doc.curtab, keys[..n], KeyValue, 0).value;
    TabAddEffect(d, p, keys[n], v);
    EntryGains(d, p, keys[n], v, q);
  }

  lemma HeaderGains(doc: Doc, keys: seq<Text>, q: Path)
    requires DocValid(doc) && keys != [] && OpenTable(doc, keys).Ok? && NodeAt(doc.top, q).Some?
    ensures Width(OpenTable(doc, keys).value.top, q) == Width(doc.top, q) + Gain(Lacks(doc.top, [], keys, q))
  {
    hide Walk, Lacks, LacksAt, WellFormed, Closed, Grows, LeavesPlus, SameLeaves, StrBytes, Put;
    var n := |keys| - 1;
    assert IsTableAt(doc.top, []);
    DescentGains(doc.top, [], keys, TableHeader, q);
    WalkEffect(doc.top, [], keys[..n], TableHeader, 0);
    var (d, p) := Walk(doc.top, [], keys[..n], TableHeader, 0).value;
    var newtab := Table(Flags(false, true, true), []);
    if Find(At(d, p).value.entries, keys[n]) < 0 {
      NewTable();
      TabAddEffect(d, p, keys[n], newtab);
      EntryGains(d, p, keys[n], newtab, q);
    } else {
      StepInto(d, p, keys[n]);
      FlagGains(d, p + [K(keys[n])], q);
    }
  }

  lemma NewTable()
    ensures WellFormed(Table(Flags(false, true, true), [])) && WellFormed(Array(NO_FLAGS, []))
  {}

  lemma FlagGains(d: Datum, p: Path, q: Path)
    requires IsTableAt(d, p)
    ensures Width(SetExplicit(d, p), q) == Width(d, q)
  {
    SetExplicitEffect(d, p, q);
  }

  lemma ElementGains(doc: Doc, keys: seq<Text>, q: Path)
    requires DocValid(doc) && keys != [] && OpenElement(doc, keys).Ok? && NodeAt(doc.top, q).Some?
    ensures Width(OpenElement(doc, keys).value.top, q) == Width(doc.top, q) + Gain(Lacks(doc.top, [], keys, q))
  {
    hide Walk, Lacks, LacksAt, Width, WellFormed, Closed, Grows, LeavesPlus, SameLeaves, StrBytes, Put;
    var n := |keys| - 1;
    assert IsTableAt(doc.top, []);
    DescentGains(doc.top, [], keys, ArrayHeader, q);
    WalkEffect(doc.top, [], keys[..n], ArrayHeader, 0);
    var (d, p) := Walk(doc.top, [], keys[..n], ArrayHeader, 0).value;
    var a := p + [K(keys[n])];
    if Find(At(d, p).value.entries, keys[n]) < 0 {
      NewTable();
      TabAddEffect(d, p, keys[n], Array(NO_FLAGS, []));
      EntryGains(d, p, keys[n], Array(NO_FLAGS, []), q);
      ElementWidth(AddEntry(d, p, keys[n], Array(NO_FLAGS, [])), a, q);
    } else {
      ElementWidth(d, a, q);
    }
  }

  lemma ElementWidth(d: Datum, a: Path, q: Path)
    requires NodeAt(d, q).Some?
    ensures At(d, a).Some? && At(d, a).value.Array? ==> Width(AddElem(d, a, EMPTY_TABLE), q) == Width(d, q)
  {
    if At(d, a).Some? && At(d, a).value.Array? {
      var n := |At(d, a).value.elems|;
      AddElemEffect(d, a, EMPTY_TABLE, q);
      if a + [I(n)] <= q {
        NoPlaceBelow(d, a, I(n), q);
      }
    }
  }

  // ---------- inline tables

  /** An inline table is closed only to the last part of a key/value or a [header]: an earlier
      part that it lacks is added to it, and so is the last part of a [[header]]. */
  lemma InlineTableGains(doc: Doc, e: Expr, q: Path)
    requires DocValid(doc) && GoodExpr(e) && Apply(doc, e).Ok?
    requires IsTableAt(doc.top, q) && At(doc.top, q).value.flag.inlined
    ensures Width(Apply(doc, e).value.top, q) > Width(doc.top, q) <==>
            exists m: nat :: LacksAt(doc.top, StartOf(doc, e), e.keys, q, m) && (m + 1 < |e.keys| || e.ElementHeader?)
  {
    hide Walk, LacksAt, Width, Closed, WellFormed;
    ExprGains(doc, e, q);
    if !e.ElementHeader? {
      LastRefused(doc, e, q);
      if m: nat :| LacksAt(doc.top, StartOf(doc, e), e.keys, q, m) {
        BelowEnd(doc.top, StartOf(doc, e), e.keys, q, m);
      }
    }
  }

  lemma BelowEnd(d: Datum, p: Path, keys: seq<Text>, q: Path, m: nat)
    requires LacksAt(d, p, keys, q, m) && !LacksAt(d, p, keys, q, |keys| - 1)
    ensures m + 1 < |keys|
  {}

  lemma LastRefused(doc: Doc, e: Expr, q: Path)
    requires DocValid(doc) && GoodExpr(e) && Apply(doc, e).Ok? && !e.ElementHeader?
    requires IsTableAt(doc.top, q) && At(doc.top, q).value.flag.inlined
    ensures !LacksAt(doc.top, StartOf(doc, e), e.keys, q, |e.keys| - 1)
  {
    hide Walk, LacksAt, Width, WellFormed, Put, TabAdd, OpenFound, Grows, SameLeaves, StrBytes;
    var n := |e.keys| - 1;
    var w := if e.KeyVal? then KeyValue else TableHeader;
    assert IsTableAt(doc.top, StartOf(doc, e));
    DescentGains(doc.top, StartOf(doc, e), e.keys, w, q);
    WalkEffect(doc.top, StartOf(doc, e), e.keys[..n], w, 0);
    StillInlined(doc.top, Walk(doc.top, StartOf(doc, e), e.keys[..n], w, 0).value.0, q);
  }

  lemma StillInlined(d: Datum, r: Datum, q: Path)
    requires Grows(d, r) && IsTableAt(d, q) && At(d, q).value.flag.inlined
    ensures IsTableAt(r, q) && At(r, q).value.flag.inlined
  {
    assert GrowsAt(d, r, q);
  }

  // ---------- [[a.b]] after a = { ... }

  function Sole(a: Text, t: Datum): Datum { Table(NO_FLAGS, [Entry(a, t)]) }

  /** The table t with an array of one empty table under a new key. */
  function Extended(t: Datum, b: Text): Datum
    requires t.Table?
  {
    t.(entries := t.entries + [Entry(b, Array(NO_FLAGS, [EMPTY_TABLE]))])
  }

  /** Of an inline table under the only key a, the header [[a.b]] asks nothing but that it has
      room and does not have the key b: it then gains an entry. */
  lemma ElementInInline(t: Datum, a: Text, b: Text)
    requires t.Table? && forall e :: e in t.entries ==> e.val.flag.inlined
    ensures var r := OpenElement(Doc(Sole(a, t), []), [a, b]);
            var j := Find(t.entries, b);
            if j >= 0 then r == Err(if t.entries[j].val.Array? then Inlined else NotATable)
            else if |t.entries| >= TABLE_MAX then r == Err(TooLarge)
            else r == Ok(Doc(Sole(a, Extended(t, b)), [K(a), K(b), I(0)]))
  {
    hide Put;
    var d := Sole(a, t);
    var p: Path := [K(a)];
    WalkToEntry(d, a, b);
    var q := p + [K(b)];
    assert q == [K(a), K(b)];
    if Find(t.entries, b) >= 0 {
      StepInto(d, p, b);
      assert t.entries[Find(t.entries, b)] in t.entries;
    } else if |t.entries| < TABLE_MAX {
      PutsBelow(a, t, b);
      assert q + [I(0)] == [K(a), K(b), I(0)];
    }
  }

  lemma WalkToEntry(d: Datum, a: Text, b: Text)
    requires d.Table? && |d.entries| == 1 && d.entries[0].key == a && d.entries[0].val.Table?
    ensures Walk(d, [], [a, b][..1], ArrayHeader, 0) == Ok((d, [K(a)])) && At(d, [K(a)]) == Some(d.entries[0].val)
  {
    assert Find(d.entries, a) == 0;
    StepInto(d, [], a);
    assert [] + [K(a)] == [K(a)] && [a, b][..1] == [a] && [a][1..] == [];
    assert WalkStep(d, [], a, ArrayHeader, 0) == Ok((d, [K(a)]));
    assert Walk(d, [K(a)], [], ArrayHeader, 1) == Ok((d, [K(a)]));
  }

  /** Writing below the only entry. */
  lemma PutBelow(a: Text, t: Datum, p: Path, v: Datum)
    requires At(t, p).Some?
    ensures At(Sole(a, t), [K(a)] + p) == At(t, p) && Put(Sole(a, t), [K(a)] + p, v) == Sole(a, Put(t, p, v))
  {
    var d := Sole(a, t);
    assert Find(d.entries, a) == 0 && Child(d, K(a)) == Some(t);
    assert ([K(a)] + p)[1..] == p;
    assert d.entries[0 := Entry(a, Put(t, p, v))] == [Entry(a, Put(t, p, v))];
  }

  /** The two changes of [[a.b]], spelled out. */
  lemma PutsBelow(a: Text, t: Datum, b: Text)
    requires t.Table? && Find(t.entries, b) < 0 && At(Sole(a, t), [K(a)]) == Some(t)
    ensures var arr := Array(NO_FLAGS, []);
            var e := AddEntry(Sole(a, t), [K(a)], b, arr);
            && At(e, [K(a), K(b)]) == Some(arr)
            && AddElem(e, [K(a), K(b)], EMPTY_TABLE) == Sole(a, Extended(t, b))
  {
    var arr, full := Array(NO_FLAGS, []), Array(NO_FLAGS, [EMPTY_TABLE]);
    var n := |t.entries|;
    var u := t.(entries := t.entries + [Entry(b, arr)]);
    assert [K(a)] + [] == [K(a)] && [K(a)] + [K(b)] == [K(a), K(b)];
    PutBelow(a, t, [], u);
    assert u.entries[n] == Entry(b, arr) && Find(u.entries, b) == n;
    assert Child(u, K(b)) == Some(arr) && [K(b)][1..] == [];
    assert u.entries[n := Entry(b, full)] == t.entries + [Entry(b, full)];
    assert Put(arr, [], full) == full;
    assert Put(u, [K(b)], full) == Extended(t, b);
    PutBelow(a, u, [K(b)], full);
    assert arr.elems + [EMPTY_TABLE] == [EMPTY_TABLE];
  }
}
