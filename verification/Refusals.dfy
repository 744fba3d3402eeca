/** Which [header], which [[header]] and which pair of an inline table is refused, by what the
    tree holds. */
module Refusals {
  import opened Basics
  import opened Datum
  import opened Trees
  import opened Documents
  import opened DocumentLaws
  import opened Parsing
  import opened InlineTables

  // ---------- the descent

  ghost predicate Full(d: Datum, q: Path) { IsTableAt(d, q) && |At(d, q).value.entries| >= TABLE_MAX }

  ghost predicate IsInlineArray(d: Datum, q: Path) {
    At(d, q).Some? && At(d, q).value.Array? && At(d, q).value.flag.inlined
  }

  /** The table at q has the part k, which leads no further: a value that is neither a table nor an
      array with a table at its end, or for a [[header]] an array that is a value. */
  ghost predicate Blocks(d: Datum, q: Path, k: Text, w: Walker) {
    && IsTableAt(d, q) && Find(At(d, q).value.entries, k) >= 0
    && (NextPlace(d, q, k).None? || (w.ArrayHeader? && IsInlineArray(d, q + [K(k)])))
  }

  ghost predicate StopsAt(d: Datum, p: Path, keys: seq<Text>, w: Walker, m: nat) {
    m < |keys| && Place(d, p, keys[..m]).Some? && Blocks(d, Place(d, p, keys[..m]).value, keys[m], w)
  }

  ghost predicate RunsInto(d: Datum, p: Path, keys: seq<Text>, w: Walker) { exists m: nat :: StopsAt(d, p, keys, w, m) }

  /** The table that lacks a part is full. */
  ghost predicate NoRoom(d: Datum, p: Path, keys: seq<Text>) { exists q: Path :: Lacks(d, p, keys, q) && Full(d, q) }

  lemma {:induction false} RunsIntoRest(d: Datum, p: Path, keys: seq<Text>, w: Walker, p': Path)
    requires keys != [] && NextPlace(d, p, keys[0]) == Some(p') && !Blocks(d, p, keys[0], w)
    ensures RunsInto(d, p, keys, w) <==> RunsInto(d, p', keys[1..], w)
  {
    hide NextPlace, Blocks;
    assert keys[..0] == [];
    if m: nat :| StopsAt(d, p, keys, w, m) {
      PlaceFirst(d, p, keys, m - 1);
      assert StopsAt(d, p', keys[1..], w, m - 1);
    }
    if m: nat :| StopsAt(d, p', keys[1..], w, m) {
      PlaceFirst(d, p, keys, m);
      assert StopsAt(d, p, keys, w, m + 1);
    }
  }

  lemma {:induction false} RunsIntoFirst(d: Datum, p: Path, keys: seq<Text>, w: Walker)
    requires keys != [] && IsTableAt(d, p)
    ensures Blocks(d, p, keys[0], w) ==> RunsInto(d, p, keys, w)
    ensures Find(At(d, p).value.entries, keys[0]) < 0 ==> !RunsInto(d, p, keys, w)
  {
    hide NextPlace;
    assert keys[..0] == [];
    if Blocks(d, p, keys[0], w) {
      assert StopsAt(d, p, keys, w, 0);
    }
    if Find(At(d, p).value.entries, keys[0]) < 0 {
      MissingPlace(d, p, keys[0]);
      if m: nat :| StopsAt(d, p, keys, w, m) && m > 0 {
        PlaceFirst(d, p, keys, m - 1);
      }
    }
  }

  lemma {:induction false} NoRoomRest(d: Datum, p: Path, keys: seq<Text>, p': Path)
    requires keys != [] && NextPlace(d, p, keys[0]) == Some(p')
    ensures NoRoom(d, p, keys) <==> NoRoom(d, p', keys[1..])
  {
    hide NextPlace, Lacks, Full;
    forall q: Path ensures Lacks(d, p, keys, q) <==> Lacks(d, p', keys[1..], q) {
      LacksRest(d, p, keys, p', q);
    }
  }

  lemma {:induction false} NoRoomFirst(d: Datum, p: Path, keys: seq<Text>)
    requires keys != [] && IsTableAt(d, p)
    ensures Find(At(d, p).value.entries, keys[0]) < 0 ==> (NoRoom(d, p, keys) <==> Full(d, p))
    ensures Find(At(d, p).value.entries, keys[0]) >= 0 && NextPlace(d, p, keys[0]).None? ==> !NoRoom(d, p, keys)
  {
    hide Lacks, Full, NextPlace;
    if Find(At(d, p).value.entries, keys[0]) < 0 {
      forall q: Path ensures Lacks(d, p, keys, q) <==> q == p {
        LacksFirst(d, p, keys, q);
      }
    } else if NextPlace(d, p, keys[0]).None? {
      forall q: Path ensures !Lacks(d, p, keys, q) {
        LacksNowhere(d, p, keys, q);
      }
    }
  }

  lemma {:induction false} LacksNowhere(d: Datum, p: Path, keys: seq<Text>, q: Path)
    requires keys != [] && IsTableAt(d, p)
    requires Find(At(d, p).value.entries, keys[0]) >= 0 && NextPlace(d, p, keys[0]).None?
    ensures !Lacks(d, p, keys, q)
  {
    hide NextPlace;
    assert keys[..0] == [];
    if m: nat :| LacksAt(d, p, keys, q, m) && m > 0 {
      PlaceFirst(d, p, keys, m - 1);
    }
  }

  /** In a table that has just been made nothing is in the way. */
  lemma {:induction false} WalkInEmpty(d: Datum, p: Path, keys: seq<Text>, w: Walker, i: nat)
    requires At(d, p) == Some(Implicit(w))
    ensures var r := Walk(d, p, keys, w, i);
            r.Ok? && At(r.value.0, r.value.1) == Some(Implicit(w))
    decreases |keys|
  {
    hide Put;
    if keys != [] {
      var q := p + [K(keys[0])];
      AddEntryEffect(d, p, keys[0], Implicit(w), q);
      assert q[|p| + 1..] == [];
      WalkInEmpty(AddEntry(d, p, keys[0], Implicit(w)), q, keys[1..], w, i + 1);
    }
  }

  /** The descent from the root is refused exactly when a part runs into a value, or when the table
      that lacks one is full. */
  lemma {:induction false} WalkRefused(d: Datum, p: Path, keys: seq<Text>, w: Walker, i: nat)
    requires IsTableAt(d, p) && !w.KeyValue?
    ensures var r := Walk(d, p, keys, w, i);
            && (r.Err? <==> RunsInto(d, p, keys, w) || NoRoom(d, p, keys))
            && (r.Ok? && Place(d, p, keys).None? ==> At(r.value.0, r.value.1) == Some(Implicit(w)))
    decreases |keys|
  {
    hide RunsInto, NoRoom, NextPlace, Full, Put, Blocks;
    if keys == [] {
      NothingAhead(d, p, w);
    } else {
      var k := keys[0];
      NoRoomFirst(d, p, keys);
      StepRefused(d, p, k, w, i);
      RunsIntoFirst(d, p, keys, w);
      if Find(At(d, p).value.entries, k) < 0 {
        MissingPlace(d, p, k);
        if WalkStep(d, p, k, w, i).Ok? {
          var (d', p') := WalkStep(d, p, k, w, i).value;
          WalkInEmpty(d', p', keys[1..], w, i + 1);
        }
      } else if !Blocks(d, p, k, w) {
        var p' := NextPlace(d, p, k).value;
        RunsIntoRest(d, p, keys, w, p');
        NoRoomRest(d, p, keys, p');
        WalkRefused(d, p', keys[1..], w, i + 1);
      }
    }
  }

  lemma {:induction false} NothingAhead(d: Datum, p: Path, w: Walker)
    ensures !RunsInto(d, p, [], w) && !NoRoom(d, p, [])
  {}

  /** One turn of it. */
  lemma {:induction false} StepRefused(d: Datum, p: Path, k: Text, w: Walker, i: nat)
    requires IsTableAt(d, p) && !w.KeyValue?
    ensures var r := WalkStep(d, p, k, w, i);
            if Find(At(d, p).value.entries, k) < 0 then
              (r.Err? <==> Full(d, p)) &&
              (r.Ok? ==> r.value.1 == p + [K(k)] && At(r.value.0, r.value.1) == Some(Implicit(w)))
            else if Blocks(d, p, k, w) then r.Err?
            else
              NextPlace(d, p, k).Some? && r == Ok((d, NextPlace(d, p, k).value)) && IsTableAt(d, NextPlace(d, p, k).value)
  {
    hide Put;
    var q := p + [K(k)];
    if Find(At(d, p).value.entries, k) < 0 {
      AddEntryEffect(d, p, k, Implicit(w), q);
      assert q[|p| + 1..] == [];
    } else {
      StepInto(d, p, k);
      var v := At(d, p).value.entries[Find(At(d, p).value.entries, k)].val;
      if v.Array? && v.elems != [] {
        StepIntoLast(d, q);
        assert q + [I(|v.elems| - 1)] == p + [K(k), I(|v.elems| - 1)];
      }
    }
  }

  // ---------- [header]

  /** The last part would be a new entry of an inline table. */
  ghost predicate IntoInline(d: Datum, keys: seq<Text>)
    requires keys != []
  {
    exists q: Path :: LacksAt(d, [], keys, q, |keys| - 1) && At(d, q).value.flag.inlined
  }

  /** All parts are there; the last is at x. */
  ghost predicate LandsOn(d: Datum, keys: seq<Text>, x: Path)
    requires keys != []
  {
    var n := |keys| - 1;
    Place(d, [], keys[..n]).Some? && x == Place(d, [], keys[..n]).value + [K(keys[n])] && At(d, x).Some?
  }

  /** What is at x may not be opened: it is defined, or no header has made it. */
  ghost predicate Taken(d: Datum, x: Path) {
    At(d, x).Some? && (At(d, x).value.flag.explicit || !At(d, x).value.flag.stdexpr)
  }

  lemma {:induction false} HeaderRefused(doc: Doc, keys: seq<Text>)
    requires DocValid(doc) && keys != []
    ensures var d := doc.top;
            OpenTable(doc, keys).Err? <==>
            || RunsInto(d, [], keys[..|keys| - 1], TableHeader) || NoRoom(d, [], keys) || IntoInline(d, keys)
            || exists x: Path :: LandsOn(d, keys, x) && Taken(d, x)
  {
    hide Walk, RunsInto, NoRoom, WellFormed, Put, Place, Lacks, Taken, Full, OpenTable;
    var d, n := doc.top, |keys| - 1;
    var ks := keys[..n];
    assert IsTableAt(d, []);
    WalkRefused(d, [], ks, TableHeader, 0);
    NoRoomLast(d, keys);
    WalkFirst(doc, keys);
    if Walk(d, [], ks, TableHeader, 0).Ok? {
      WalkPlace(d, [], ks, TableHeader, 0);
      WalkEffect(d, [], ks, TableHeader, 0);
      var (r, p) := Walk(d, [], ks, TableHeader, 0).value;
      if Place(d, [], ks).Some? {
        LastPart(doc, keys, p);
        AtStep(d, p, K(keys[n]));
        assert LandsOn(d, keys, p + [K(keys[n])]) <==> Find(At(d, p).value.entries, keys[n]) >= 0;
        assert forall q: Path :: LacksAt(d, [], keys, q, n) ==> q == p;
        assert LacksAt(d, [], keys, p, n) <==> Find(At(d, p).value.entries, keys[n]) < 0;
      } else {
        NewPart(doc, keys, r, p);
      }
    }
  }

  lemma {:induction false} WalkFirst(doc: Doc, keys: seq<Text>)
    requires keys != []
    ensures Walk(doc.top, [], keys[..|keys| - 1], TableHeader, 0).Err? ==> OpenTable(doc, keys).Err?
  {
    hide Walk;
  }

  /** All parts but the last are there: the last decides. */
  lemma {:induction false} LastPart(doc: Doc, keys: seq<Text>, p: Path)
    requires WellFormed(doc.top) && keys != [] && IsTableAt(doc.top, p)
    requires Walk(doc.top, [], keys[..|keys| - 1], TableHeader, 0) == Ok((doc.top, p))
    ensures var k := keys[|keys| - 1];
            var t := At(doc.top, p).value;
            OpenTable(doc, keys).Err? <==>
            if Find(t.entries, k) < 0 then t.flag.inlined || Full(doc.top, p) else Taken(doc.top, p + [K(k)])
  {
    hide Walk, Put;
    var k := keys[|keys| - 1];
    var t := At(doc.top, p).value;
    var j := Find(t.entries, k);
    AtWellFormed(doc.top, p);
    if j >= 0 {
      StepInto(doc.top, p, k);
      assert WellFormed(t.entries[j].val);
    }
  }

  /** A part before the last is missing and has been made: nothing is in the way of the last. */
  lemma {:induction false} NewPart(doc: Doc, keys: seq<Text>, r: Datum, p: Path)
    requires keys != [] && Walk(doc.top, [], keys[..|keys| - 1], TableHeader, 0) == Ok((r, p))
    requires At(r, p) == Some(Implicit(TableHeader))
    ensures OpenTable(doc, keys).Ok?
  {
    hide Walk, Put;
  }

  /** No room for a part is no room for one of those before the last, or for the last. */
  lemma {:induction false} NoRoomLast(d: Datum, keys: seq<Text>)
    requires keys != []
    ensures var n := |keys| - 1;
            NoRoom(d, [], keys) <==>
            NoRoom(d, [], keys[..n]) || exists q: Path :: LacksAt(d, [], keys, q, n) && Full(d, q)
  {
    hide Lacks, Full, LacksAt;
    var n := |keys| - 1;
    forall q: Path ensures Lacks(d, [], keys, q) <==> Lacks(d, [], keys[..n], q) || LacksAt(d, [], keys, q, n) {
      LacksLast(d, [], keys, q);
    }
  }

  // ---------- [[header]]

  /** What is at x takes no more elements: it is no array, it is a value, or it is full. */
  ghost predicate TakesNoElement(d: Datum, x: Path) {
    At(d, x).Some? && (!At(d, x).value.Array? || At(d, x).value.flag.inlined || |At(d, x).value.elems| >= ARRAY_MAX)
  }

  ghost predicate ElementBarred(d: Datum, keys: seq<Text>)
    requires keys != []
  {
    || RunsInto(d, [], keys[..|keys| - 1], ArrayHeader) || NoRoom(d, [], keys)
    || exists x: Path :: LandsOn(d, keys, x) && TakesNoElement(d, x)
  }

  /** A [[header]] is refused exactly when a part but the last runs into a value that leads no
      further or into an array that is a value, when a table that lacks a part is full, or when
      the last part leads to something that takes no more elements. */
  lemma {:induction false} ElementRefused(doc: Doc, keys: seq<Text>)
    requires DocValid(doc) && keys != []
    ensures OpenElement(doc, keys).Err? <==> ElementBarred(doc.top, keys)
  {
    hide Walk, RunsInto, NoRoom, WellFormed, Put, Place, Lacks, TakesNoElement, Full, OpenElement;
    var d, n := doc.top, |keys| - 1;
    var ks := keys[..n];
    assert IsTableAt(d, []);
    WalkRefused(d, [], ks, ArrayHeader, 0);
    NoRoomLast(d, keys);
    ElementWalkFirst(doc, keys);
    if Walk(d, [], ks, ArrayHeader, 0).Ok? {
      WalkPlace(d, [], ks, ArrayHeader, 0);
      WalkEffect(d, [], ks, ArrayHeader, 0);
      var (r, p) := Walk(d, [], ks, ArrayHeader, 0).value;
      if Place(d, [], ks).Some? {
        LastElement(doc, keys, p);
        AtStep(d, p, K(keys[n]));
        assert LandsOn(d, keys, p + [K(keys[n])]) <==> Find(At(d, p).value.entries, keys[n]) >= 0;
        assert forall q: Path :: LacksAt(d, [], keys, q, n) ==> q == p;
        assert LacksAt(d, [], keys, p, n) <==> Find(At(d, p).value.entries, keys[n]) < 0;
      } else {
        NewElement(doc, keys, r, p);
      }
    }
  }

  lemma {:induction false} ElementWalkFirst(doc: Doc, keys: seq<Text>)
    requires keys != []
    ensures Walk(doc.top, [], keys[..|keys| - 1], ArrayHeader, 0).Err? ==> OpenElement(doc, keys).Err?
  {
    hide Walk;
  }

  lemma {:induction false} LastElement(doc: Doc, keys: seq<Text>, p: Path)
    requires keys != [] && IsTableAt(doc.top, p)
    requires Walk(doc.top, [], keys[..|keys| - 1], ArrayHeader, 0) == Ok((doc.top, p))
    ensures var k := keys[|keys| - 1];
            OpenElement(doc, keys).Err? <==>
            if Find(At(doc.top, p).value.entries, k) < 0 then Full(doc.top, p) else TakesNoElement(doc.top, p + [K(k)])
  {
    hide Walk, Put;
    var k := keys[|keys| - 1];
    if Find(At(doc.top, p).value.entries, k) < 0 {
      EmptyArrayThere(doc.top, p, k);
    } else {
      StepInto(doc.top, p, k);
    }
  }

  lemma {:induction false} EmptyArrayThere(d: Datum, p: Path, k: Text)
    requires IsTableAt(d, p) && Find(At(d, p).value.entries, k) < 0
    ensures At(AddEntry(d, p, k, Array(NO_FLAGS, [])), p + [K(k)]) == Some(Array(NO_FLAGS, []))
  {
    hide Put;
    AddEntryEffect(d, p, k, Array(NO_FLAGS, []), p + [K(k)]);
    assert (p + [K(k)])[|p| + 1..] == [];
  }

  lemma {:induction false} NewElement(doc: Doc, keys: seq<Text>, r: Datum, p: Path)
    requires keys != [] && Walk(doc.top, [], keys[..|keys| - 1], ArrayHeader, 0) == Ok((r, p))
    requires At(r, p) == Some(Implicit(ArrayHeader))
    ensures OpenElement(doc, keys).Ok?
  {
    hide Walk, Put;
    EmptyArrayThere(r, p, keys[|keys| - 1]);
  }

  // ---------- a pair of an inline table

  /** A pair entered in the inline table read so far. */
  function AddPair(tab: Datum, keys: seq<Text>, v: Datum): Result<Datum>
    requires keys != []
  {
    var (d, p) :- EnterInline(tab, keys);
    TabAdd(d, p, keys[|keys| - 1], v)
  }

  /** The parts but the last lead to a table that is a value itself, or an element of one. */
  ghost predicate IntoValue(tab: Datum, keys: seq<Text>)
    requires keys != []
  {
    var q := Place(tab, [], keys[..|keys| - 1]);
    q.Some? && IsTableAt(tab, q.value) && At(tab, q.value).value.flag.inlined
  }

  /** Whatever its value, a pair is refused exactly when a part but the last runs into a value that
      leads no further, a table that has to take a new part is full, the last part would be added
      to a value, or there is something under the key already. */
  lemma {:induction false} PairRefused(tab: Datum, keys: seq<Text>, v: Datum)
    requires WellFormed(tab) && tab.Table? && keys != []
    ensures AddPair(tab, keys, v).Err? <==>
            || RunsInto(tab, [], keys[..|keys| - 1], InlineKey) || NoRoom(tab, [], keys) || IntoValue(tab, keys)
            || exists x: Path :: LandsOn(tab, keys, x)
  {
    hide Walk, RunsInto, NoRoom, WellFormed, Put, Place, Lacks, Full, AddPair;
    var n := |keys| - 1;
    var ks := keys[..n];
    assert IsTableAt(tab, []);
    WalkRefused(tab, [], ks, InlineKey, 0);
    NoRoomLast(tab, keys);
    PairWalkFirst(tab, keys, v);
    if Walk(tab, [], ks, InlineKey, 0).Ok? {
      WalkPlace(tab, [], ks, InlineKey, 0);
      WalkEffect(tab, [], ks, InlineKey, 0);
      var (r, p) := Walk(tab, [], ks, InlineKey, 0).value;
      if Place(tab, [], ks).Some? {
        LastPair(tab, keys, v, p);
        AtStep(tab, p, K(keys[n]));
        assert LandsOn(tab, keys, p + [K(keys[n])]) <==> Find(At(tab, p).value.entries, keys[n]) >= 0;
        assert forall q: Path :: LacksAt(tab, [], keys, q, n) ==> q == p;
        assert LacksAt(tab, [], keys, p, n) <==> Find(At(tab, p).value.entries, keys[n]) < 0;
      } else {
        NewPair(tab, keys, v, r, p);
      }
    }
  }

  lemma {:induction false} PairWalkFirst(tab: Datum, keys: seq<Text>, v: Datum)
    requires keys != []
    ensures Walk(tab, [], keys[..|keys| - 1], InlineKey, 0).Err? ==> AddPair(tab, keys, v).Err?
  {
    hide Walk, Put;
  }

  /** Marking the table changes nothing about its entries. */
  lemma {:induction false} MarkedEntries(d: Datum, p: Path, keys: seq<Text>)
    requires IsTableAt(d, p)
    ensures IsTableAt(SetExplicit(d, p), p) && At(SetExplicit(d, p), p).value.entries == At(d, p).value.entries
  {
    hide Put;
    PutSame(d, p, Table(At(d, p).value.flag.(explicit := true), At(d, p).value.entries));
  }

  lemma {:induction false} LastPair(tab: Datum, keys: seq<Text>, v: Datum, p: Path)
    requires WellFormed(tab) && keys != [] && IsTableAt(tab, p)
    requires Walk(tab, [], keys[..|keys| - 1], InlineKey, 0) == Ok((tab, p))
    ensures var t, k := At(tab, p).value, keys[|keys| - 1];
            AddPair(tab, keys, v).Err? <==>
            t.flag.inlined || Find(t.entries, k) >= 0 || Full(tab, p)
  {
    hide Walk, Put, SetExplicit;
    AtWellFormed(tab, p);
    NoUnknownChild(At(tab, p).value, keys[|keys| - 1]);
    if !At(tab, p).value.flag.inlined {
      MarkedEntries(tab, p, keys);
    }
  }

  lemma {:induction false} NewPair(tab: Datum, keys: seq<Text>, v: Datum, r: Datum, p: Path)
    requires keys != [] && Walk(tab, [], keys[..|keys| - 1], InlineKey, 0) == Ok((r, p))
    requires At(r, p) == Some(Implicit(InlineKey))
    ensures AddPair(tab, keys, v).Ok?
  {
    hide Walk, Put, SetExplicit;
    MarkedEntries(r, p, keys);
  }
}
