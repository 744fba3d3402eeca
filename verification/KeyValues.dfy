/** Which key/value is refused, by what the tree holds below the current table. */
module KeyValueRefusals {
  import opened Basics
  import opened Datum
  import opened Trees
  import opened Documents
  import opened DocumentLaws

  /** The place that the first m parts spell from p. */
  function Spot(p: Path, keys: seq<Text>, m: nat): Path
    requires m <= |keys|
  {
    p + KeyPath(keys[..m])
  }

  /** The first m parts, some but not all, lead to something that is no table. */
  ghost predicate Obstructed(d: Datum, p: Path, keys: seq<Text>, m: nat) {
    0 < m < |keys| && At(d, Spot(p, keys, m)).Some? && !IsTableAt(d, Spot(p, keys, m))
  }

  /** The first m parts lead to a table that lacks the next and does not take it: it is full, or it
      is not the first table and has FLAG_EXPLICIT. */
  ghost predicate Denied(d: Datum, p: Path, keys: seq<Text>, m: nat, first: nat) {
    && m < |keys| && IsTableAt(d, Spot(p, keys, m))
    && var t := At(d, Spot(p, keys, m)).value;
       Find(t.entries, keys[m]) < 0 && (|t.entries| >= TABLE_MAX || (m + first > 0 && t.flag.explicit))
  }

  /** All parts but the last lead to a table that is a value, or that is not the first table and
      has FLAG_EXPLICIT. */
  ghost predicate Shut(d: Datum, p: Path, keys: seq<Text>, first: nat)
    requires keys != []
  {
    var q := Spot(p, keys, |keys| - 1);
    IsTableAt(d, q) && (At(d, q).value.flag.inlined || (|keys| - 1 + first > 0 && At(d, q).value.flag.explicit))
  }

  ghost predicate Barred(d: Datum, p: Path, keys: seq<Text>, first: nat)
    requires keys != []
  {
    || (exists m: nat :: Obstructed(d, p, keys, m)) || (exists m: nat :: Denied(d, p, keys, m, first))
    || Shut(d, p, keys, first) || At(d, Spot(p, keys, |keys|)).Some?
  }

  /** A value put under keys below the table at p, reached by the first parts of a key. */
  function Assign(d: Datum, p: Path, keys: seq<Text>, first: nat, v: Datum): Result<Datum>
    requires keys != []
  {
    var (r, q) :- Walk(d, p, keys[..|keys| - 1], KeyValue, first);
    if !IsTableAt(r, q) then Err(Internal)
    else if At(r, q).value.flag.inlined then Err(Inlined)
    else if |keys| - 1 + first > 0 && At(r, q).value.flag.explicit then Err(Redefined)
    else TabAdd(r, q, keys[|keys| - 1], v)
  }

  // ---------- the places along a key

  lemma {:induction false} SpotNext(p: Path, keys: seq<Text>, m: nat)
    requires keys != [] && 0 < m <= |keys|
    ensures Spot(p, keys, m) == Spot(p + [K(keys[0])], keys[1..], m - 1)
  {
    assert keys[..m] == [keys[0]] + keys[1..][..m - 1];
    assert KeyPath(keys[..m]) == [K(keys[0])] + KeyPath(keys[1..][..m - 1]);
  }

  lemma {:induction false} SpotStart(p: Path, keys: seq<Text>)
    ensures Spot(p, keys, 0) == p
  {
    assert KeyPath(keys[..0]) == [];
  }

  /** Once a part is there, the rest of the key decides. */
  lemma {:induction false} BarredRest(d: Datum, p: Path, keys: seq<Text>, first: nat)
    requires |keys| > 1 && IsTableAt(d, p + [K(keys[0])])
    ensures Barred(d, p, keys, first) <==> Barred(d, p + [K(keys[0])], keys[1..], first + 1)
  {
    hide Spot;
    var q, rest, next := p + [K(keys[0])], keys[1..], first + 1;
    SpotStart(p, keys);
    SpotStart(q, rest);
    AtStep(d, p, K(keys[0]));
    forall m: nat | 0 < m <= |keys| ensures Spot(p, keys, m) == Spot(q, rest, m - 1) {
      SpotNext(p, keys, m);
    }
    if m: nat :| Obstructed(d, p, keys, m) {
      assert Obstructed(d, q, rest, m - 1);
    }
    if m: nat :| Obstructed(d, q, rest, m) {
      assert Obstructed(d, p, keys, m + 1);
    }
    if m: nat :| Denied(d, p, keys, m, first) {
      assert m > 0;
      assert Denied(d, q, rest, m - 1, next);
    }
    if m: nat :| Denied(d, q, rest, m, next) {
      assert Denied(d, p, keys, m + 1, first);
    }
  }

  /** Below a part that is missing or no table there is nothing. */
  lemma {:induction false} NothingThere(d: Datum, p: Path, keys: seq<Text>, m: nat)
    requires 0 < m <= |keys| && IsTableAt(d, p) && !IsTableAt(d, p + [K(keys[0])])
    ensures !IsTableAt(d, Spot(p, keys, m))
    ensures m > 1 || At(d, p + [K(keys[0])]).None? ==> At(d, Spot(p, keys, m)).None?
  {
    var q := p + [K(keys[0])];
    SpotNext(p, keys, m);
    var rest := KeyPath(keys[1..][..m - 1]);
    AtConcat(d, q, rest);
    if m > 1 {
      if At(d, q).Some? {
        assert Child(At(d, q).value, rest[0]).None?;
      }
    } else {
      assert rest == [] && q + rest == q;
    }
  }

  lemma {:induction false} BarredMissing(d: Datum, p: Path, keys: seq<Text>, first: nat)
    requires |keys| > 1 && IsTableAt(d, p) && Find(At(d, p).value.entries, keys[0]) < 0
    ensures Barred(d, p, keys, first) <==>
            |At(d, p).value.entries| >= TABLE_MAX || (first > 0 && At(d, p).value.flag.explicit)
  {
    hide Spot;
    AtStep(d, p, K(keys[0]));
    SpotStart(p, keys);
    forall m: nat | 0 < m <= |keys| ensures At(d, Spot(p, keys, m)).None? {
      NothingThere(d, p, keys, m);
    }
    assert Denied(d, p, keys, 0, first) <==>
           |At(d, p).value.entries| >= TABLE_MAX || (first > 0 && At(d, p).value.flag.explicit);
  }

  lemma {:induction false} BarredByValue(d: Datum, p: Path, keys: seq<Text>, first: nat)
    requires |keys| > 1 && At(d, p + [K(keys[0])]).Some? && !IsTableAt(d, p + [K(keys[0])])
    ensures Barred(d, p, keys, first)
  {
    SpotNext(p, keys, 1);
    SpotStart(p + [K(keys[0])], keys[1..]);
    assert Obstructed(d, p, keys, 1);
  }

  lemma {:induction false} BarredLast(d: Datum, p: Path, keys: seq<Text>, first: nat)
    requires |keys| == 1 && IsTableAt(d, p)
    ensures var t := At(d, p).value;
            Barred(d, p, keys, first) <==>
            || (first > 0 && t.flag.explicit) || t.flag.inlined || Find(t.entries, keys[0]) >= 0
            || |t.entries| >= TABLE_MAX
  {
    hide Spot;
    AtStep(d, p, K(keys[0]));
    SpotStart(p, keys);
    SpotNext(p, keys, 1);
    SpotStart(p + [K(keys[0])], keys[1..]);
    var t := At(d, p).value;
    if Find(t.entries, keys[0]) < 0 && (|t.entries| >= TABLE_MAX || (first > 0 && t.flag.explicit)) {
      assert Denied(d, p, keys, 0, first);
    }
  }

  // ---------- what is done

  /** The first part but one goes through a table that is there or is made. */
  lemma {:induction false} AssignTurn(d: Datum, p: Path, keys: seq<Text>, first: nat, v: Datum)
    requires |keys| > 1
    ensures Assign(d, p, keys, first, v) ==
            var r := WalkStep(d, p, keys[0], KeyValue, first);
            if r.Err? then Err(r.error) else Assign(r.value.0, r.value.1, keys[1..], first + 1, v)
  {
    hide WalkStep, TabAdd;
    var n := |keys| - 1;
    assert keys[..n][0] == keys[0] && keys[..n][1..] == keys[1..][..n - 1] && keys[1..][n - 1] == keys[n];
  }

  lemma {:induction false} AssignLast(d: Datum, p: Path, keys: seq<Text>, first: nat, v: Datum)
    requires |keys| == 1 && WellFormed(d) && IsTableAt(d, p)
    ensures var t := At(d, p).value;
            Assign(d, p, keys, first, v).Err? <==>
            || (first > 0 && t.flag.explicit) || t.flag.inlined || Find(t.entries, keys[0]) >= 0
            || |t.entries| >= TABLE_MAX
  {
    hide Put;
    assert keys[..0] == [];
    AtWellFormed(d, p);
    NoUnknownChild(At(d, p).value, keys[0]);
  }

  /** In a table that has just been made nothing is in the way. */
  lemma {:induction false} AssignInEmpty(d: Datum, p: Path, keys: seq<Text>, first: nat, v: Datum)
    requires keys != [] && At(d, p) == Some(EMPTY_TABLE)
    ensures Assign(d, p, keys, first, v).Ok?
    decreases |keys|
  {
    if |keys| == 1 {
      assert keys[..0] == [];
    } else {
      hide Put, Assign;
      AssignTurn(d, p, keys, first, v);
      var q := p + [K(keys[0])];
      AddEntryEffect(d, p, keys[0], EMPTY_TABLE, q);
      assert q[|p| + 1..] == [];
      AssignInEmpty(AddEntry(d, p, keys[0], EMPTY_TABLE), q, keys[1..], first + 1, v);
    }
  }

  lemma {:induction false} AssignRefused(d: Datum, p: Path, keys: seq<Text>, first: nat, v: Datum)
    requires WellFormed(d) && IsTableAt(d, p) && keys != []
    ensures Assign(d, p, keys, first, v).Err? <==> Barred(d, p, keys, first)
    decreases |keys|
  {
    hide Assign, Barred, WellFormed, Put;
    if |keys| == 1 {
      AssignLast(d, p, keys, first, v);
      BarredLast(d, p, keys, first);
    } else {
      var q := p + [K(keys[0])];
      AssignTurn(d, p, keys, first, v);
      AtStep(d, p, K(keys[0]));
      if Find(At(d, p).value.entries, keys[0]) < 0 {
        BarredMissing(d, p, keys, first);
        AddEntryEffect(d, p, keys[0], EMPTY_TABLE, q);
        assert q[|p| + 1..] == [];
        if WalkStep(d, p, keys[0], KeyValue, first).Ok? {
          AssignInEmpty(AddEntry(d, p, keys[0], EMPTY_TABLE), q, keys[1..], first + 1, v);
        }
      } else if IsTableAt(d, q) {
        BarredRest(d, p, keys, first);
        AssignRefused(d, q, keys[1..], first + 1, v);
      } else {
        BarredByValue(d, p, keys, first);
      }
    }
  }

  /** Whatever its value, and from any document that can arise, a key/value is refused exactly when
      a part but the last leads to something that is no table; when a table that lacks a part is
      full, or is not the current one and has FLAG_EXPLICIT; when the parts but the last lead to a
      table that is a value, or that is not the current one and has FLAG_EXPLICIT; or when there
      is something under the key already. */
  lemma {:induction false} KeyValueRefused(doc: Doc, keys: seq<Text>, v: Datum)
    requires DocValid(doc) && keys != []
    ensures Apply(doc, KeyVal(keys, v)).Err? <==> Barred(doc.top, doc.curtab, keys, 0)
  {
    hide Barred, WellFormed, Walk, TabAdd;
    AssignRefused(doc.top, doc.curtab, keys, 0, v);
  }
}
