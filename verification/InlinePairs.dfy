/** Inline tables as they are written: which are refused, and what is in them. */
module InlinePairs {
  import opened Basics
  import opened Datum
  import opened Trees
  import opened Documents
  import opened DocumentLaws
  import opened HeaderPaths
  import opened Parsing
  import opened ParseLaws
  import opened Refusals
  import opened Printing
  import opened Meanings
  import opened LineRuns

  // ---------- one pair

  /** The value has been put at q, where nothing was: the place that the key spells, through the
      latest element of every array on the way. */
  ghost predicate Entered(tab: Datum, r: Datum, q: Path, keys: seq<Text>, v: Datum) {
    && WellFormed(r) && r.Table? && KeySteps(q) == keys && Latest(r, q)
    && At(tab, q).None? && At(r, q) == Some(v) && LeavesPlus(tab, r, q, v)
  }

  lemma {:induction false} EnterInlineSpells(tab: Datum, keys: seq<Text>)
    requires WellFormed(tab) && tab.Table? && keys != [] && EnterInline(tab, keys).Ok?
    ensures var (d, p) := EnterInline(tab, keys).value;
            KeySteps(p) == keys[..|keys| - 1] && Latest(d, p)
  {
    hide Walk, Prepared, KeySteps, Latest, WellFormed, Put;
    var ks := keys[..|keys| - 1];
    StartOf(tab);
    WalkSpells(tab, [], ks, InlineKey, 0);
    assert [] + ks == ks;
    var (d, p) := Walk(tab, [], ks, InlineKey, 0).value;
    SetExplicitLatest(d, p);
  }

  lemma {:induction false} SetExplicitLatest(d: Datum, p: Path)
    requires IsTableAt(d, p) && Latest(d, p)
    ensures Latest(SetExplicit(d, p), p)
  {
    hide Latest, Put;
    forall q: Path | |q| < |p| ensures NodeAt(SetExplicit(d, p), q) == NodeAt(d, q) {
      SetExplicitEffect(d, p, q);
    }
    LatestKept(d, SetExplicit(d, p), p);
  }

  lemma {:induction false} PairEffect(tab: Datum, keys: seq<Text>, v: Datum) returns (q: Path)
    requires WellFormed(tab) && tab.Table? && keys != [] && WellFormed(v) && AddPair(tab, keys, v).Ok?
    ensures Entered(tab, AddPair(tab, keys, v).value, q, keys, v)
  {
    hide WellFormed, Grows, SameLeaves, StrBytes, Latest, KeySteps, EnterInline, TabAdd, LeafAt;
    EnterInlineGood(tab, keys);
    EnterInlineSpells(tab, keys);
    var (d, p) := EnterInline(tab, keys).value;
    var k := keys[|keys| - 1];
    q := p + [K(k)];
    TabAddEffect(d, p, k, v);
    TabAddGood(d, p, k, v);
    NotThereBefore(tab, d, p, k);
    KeyStepsNext(p, K(k));
    LatestNext(d, p, K(k));
    AddedLatest(d, p, k, v);
    MoreLeaves(tab, d, AddPair(tab, keys, v).value, q, v);
  }

  lemma {:induction false} MoreLeaves(d: Datum, r: Datum, s: Datum, q: Path, v: Datum)
    requires SameLeaves(d, r) && LeavesPlus(r, s, q, v)
    ensures LeavesPlus(d, s, q, v)
  {
    hide LeafAt;
    forall x: Path ensures LeafAt(s, x) == if q <= x then LeafAt(v, x[|q|..]) else LeafAt(d, x) {
      assert LeafAt(r, x) == LeafAt(d, x);
    }
  }

  lemma {:induction false} AddedLatest(d: Datum, p: Path, k: Text, v: Datum)
    requires IsTableAt(d, p) && Find(At(d, p).value.entries, k) < 0 && Latest(d, p + [K(k)])
    ensures Latest(AddEntry(d, p, k, v), p + [K(k)])
  {
    hide Latest, Put;
    var r := AddEntry(d, p, k, v);
    forall q: Path | |q| < |p| + 1 && NodeAt(d, q).Some? && NodeAt(d, q).value.ArrayNode?
      ensures NodeAt(r, q) == NodeAt(d, q)
    {
      AddEntryEffect(d, p, k, v, q);
    }
    LatestKept(d, r, p + [K(k)]);
  }

  // ---------- all pairs

  /** Does the i-th pair put the scalar x at place q? */
  ghost predicate Gives(targets: seq<Path>, vals: seq<Datum>, i: nat, q: Path, x: Scalar) {
    i < |targets| && i < |vals| && targets[i] <= q && LeafAt(vals[i], q[|targets[i]|..]) == Some(x)
  }

  /** Each pair has put its value at the place of its target. */
  ghost predicate Placed(ps: seq<Binding>, b: int, c: int, targets: seq<Path>, vals: seq<Datum>) {
    && |targets| == |ps| && |vals| == |ps|
    && forall i :: 0 <= i < |ps| ==>
         KeyMeaning(ps[i].key, 0, []) == Ok(KeySteps(targets[i])) && Eval(ps[i].val, b, c) == Ok(vals[i])
  }

  lemma {:induction false} PairsTurn(ps: seq<Binding>, p: Binding, n: nat, tab: Datum, b: int, c: int)
    requires n <= |ps|
    ensures EvalPairs(ps + [p], n, tab, b, c) ==
            var x := EvalPairs(ps, n, tab, b, c);
            if x.Err? then x else EvalPairs([p], 0, x.value, b, c)
    decreases |ps| - n
  {
    hide Eval, EnterInline, TabAdd, KeyMeaning;
    if n == |ps| {
      hide EvalPairs;
      OnePair(ps + [p], n, tab, b, c);
      OnePair([p], 0, tab, b, c);
      NoPairs(ps, n, tab, b, c);
    } else {
      assert (ps + [p])[n] == ps[n];
      if ps[n].key != [] && KeyMeaning(ps[n].key, 0, []).Ok? {
        var keys := KeyMeaning(ps[n].key, 0, []).value;
        var at := EnterInline(tab, keys);
        var v := Eval(ps[n].val, b, c);
        if at.Ok? && v.Ok? {
          var next := TabAdd(at.value.0, at.value.1, keys[|keys| - 1], v.value);
          if next.Ok? {
            PairsTurn(ps, p, n + 1, next.value, b, c);
          }
        }
      }
    }
  }

  lemma {:induction false} NoPairs(ps: seq<Binding>, n: nat, tab: Datum, b: int, c: int)
    requires n == |ps|
    ensures EvalPairs(ps, n, tab, b, c) == Ok(tab)
  {}

  /** The last pair. */
  lemma {:induction false} OnePair(ps: seq<Binding>, n: nat, tab: Datum, b: int, c: int)
    requires n + 1 == |ps|
    ensures var r, p := EvalPairs(ps, n, tab, b, c), ps[n];
            if p.key == [] then r == Err(Syntax)
            else
              var keys := KeyMeaning(p.key, 0, []);
              if keys.Err? then r == Err(keys.error)
              else
                var at := EnterInline(tab, keys.value);
                if at.Err? then r == Err(at.error)
                else
                  var v := Eval(p.val, b, c);
                  r == if v.Err? then Err(v.error)
                       else TabAdd(at.value.0, at.value.1, keys.value[|keys.value| - 1], v.value)
  {
    hide Eval, EnterInline, TabAdd, KeyMeaning;
  }

  /** A pair is accepted when its key and its value can be read and it can be entered. */
  lemma {:induction false} PairIsEntered(p: Binding, tab: Datum, b: int, c: int)
    requires p.key != []
    ensures var r, keys, v := EvalPairs([p], 0, tab, b, c), KeyMeaning(p.key, 0, []), Eval(p.val, b, c);
            if keys.Ok? && v.Ok? then (if r.Ok? then r == AddPair(tab, keys.value, v.value) else AddPair(tab, keys.value, v.value).Err?)
            else r.Err?
  {
    hide Eval, EnterInline, TabAdd, KeyMeaning, EvalPairs;
    OnePair([p], 0, tab, b, c);
  }

  ghost predicate PairsHaveKeys(ps: seq<Binding>) { forall p :: p in ps ==> p.key != [] }

  /** The leaves of an inline table are exactly those of its values, each at the place that its key
      spells: none lost, none changed, none added. */
  lemma {:induction false} PairsMeaning(ps: seq<Binding>, b: int, c: int) returns (targets: seq<Path>, vals: seq<Datum>)
    requires PairsHaveKeys(ps) && EvalPairs(ps, 0, EMPTY_TABLE, b, c).Ok?
    ensures Placed(ps, b, c, targets, vals)
    ensures var r := EvalPairs(ps, 0, EMPTY_TABLE, b, c).value;
            && WellFormed(r) && r.Table?
            && forall q: Path, x: Scalar :: LeafAt(r, q) == Some(x) <==> exists i: nat :: Gives(targets, vals, i, q, x)
    decreases |ps|
  {
    hide Eval, WellFormed, KeyMeaning, LeafAt, Entered, EvalPairs, KeySteps, AddPair;
    if ps == [] {
      targets, vals := [], [];
      NoPairs(ps, 0, EMPTY_TABLE, b, c);
      NoLeaves();
    } else {
      var n := |ps| - 1;
      var init, p := ps[..n], ps[n];
      assert ps == init + [p];
      PairsTurn(init, p, 0, EMPTY_TABLE, b, c);
      var tab := EvalPairs(init, 0, EMPTY_TABLE, b, c).value;
      targets, vals := PairsMeaning(init, b, c);
      PairIsEntered(p, tab, b, c);
      var keys, v := KeyMeaning(p.key, 0, []).value, Eval(p.val, b, c).value;
      EvalIsWell(p.val, b, c);
      var t := PairEffect(tab, keys, v);
      var r := EvalPairs(ps, 0, EMPTY_TABLE, b, c).value;
      EnteredIs(tab, r, t, keys, v);
      LeavesNext(tab, r, targets, vals, t, v);
      targets, vals := targets + [t], vals + [v];
    }
  }

  lemma {:induction false} NoLeaves()
    ensures WellFormed(EMPTY_TABLE) && forall q: Path :: LeafAt(EMPTY_TABLE, q).None?
  {
    forall q: Path ensures LeafAt(EMPTY_TABLE, q).None? {
      assert q != [] ==> Child(EMPTY_TABLE, q[0]).None?;
    }
  }

  lemma {:induction false} EvalIsWell(v: Val, b: int, c: int)
    requires Eval(v, b, c).Ok?
    ensures WellFormed(Eval(v, b, c).value)
  {
    hide WellFormed, Eval;
    EvalGood(v, b, c);
  }

  lemma {:induction false} EnteredIs(tab: Datum, r: Datum, q: Path, keys: seq<Text>, v: Datum)
    requires Entered(tab, r, q, keys, v)
    ensures KeySteps(q) == keys && WellFormed(r) && r.Table? && LeavesPlus(tab, r, q, v) && At(tab, q).None?
  {}

  lemma {:induction false} LeavesNext(tab: Datum, r: Datum, targets: seq<Path>, vals: seq<Datum>, t: Path, v: Datum)
    requires |targets| == |vals| && LeavesPlus(tab, r, t, v) && At(tab, t).None?
    requires forall q: Path, x: Scalar :: LeafAt(tab, q) == Some(x) <==> exists i: nat :: Gives(targets, vals, i, q, x)
    ensures var ts, vs := targets + [t], vals + [v];
            forall q: Path, x: Scalar :: LeafAt(r, q) == Some(x) <==> exists i: nat :: Gives(ts, vs, i, q, x)
  {
    hide LeafAt;
    var ts, vs := targets + [t], vals + [v];
    forall q: Path, x: Scalar ensures LeafAt(r, q) == Some(x) <==> exists i: nat :: Gives(ts, vs, i, q, x) {
      var n := |targets|;
      assert Gives(ts, vs, n, q, x) <==> t <= q && LeafAt(v, q[|t|..]) == Some(x);
      forall i: nat | i < n ensures Gives(ts, vs, i, q, x) <==> Gives(targets, vals, i, q, x) {}
      if t <= q {
        NoLeafThere(tab, t, q);
      }
    }
  }

  lemma {:induction false} NoLeafThere(d: Datum, t: Path, q: Path)
    requires t <= q && At(d, t).None?
    ensures LeafAt(d, q).None?
  {
    assert t + q[|t|..] == q;
    AtConcat(d, t, q[|t|..]);
  }

  // ---------- which are refused

  ghost predicate PairBarred(tab: Datum, keys: seq<Text>)
    requires keys != []
  {
    || RunsInto(tab, [], keys[..|keys| - 1], InlineKey) || NoRoom(tab, [], keys) || IntoValue(tab, keys)
    || exists x: Path :: LandsOn(tab, keys, x)
  }

  /** The n-th pair is the first that is refused. */
  ghost predicate FirstRefused(ps: seq<Binding>, b: int, c: int, n: nat)
    requires PairsHaveKeys(ps)
  {
    && n < |ps|
    && var tab, keys := EvalPairs(ps[..n], 0, EMPTY_TABLE, b, c), KeyMeaning(ps[n].key, 0, []);
       tab.Ok? && (keys.Err? || Eval(ps[n].val, b, c).Err? || PairBarred(tab.value, keys.value))
  }

  lemma {:induction false} PairsRefused(ps: seq<Binding>, b: int, c: int)
    requires PairsHaveKeys(ps)
    ensures EvalPairs(ps, 0, EMPTY_TABLE, b, c).Err? <==> exists n: nat :: FirstRefused(ps, b, c, n)
    decreases |ps|
  {
    hide Eval, KeyMeaning, EvalPairs, AddPair, PairBarred, WellFormed;
    if ps == [] {
      NoPairs(ps, 0, EMPTY_TABLE, b, c);
    } else {
      var n := |ps| - 1;
      var init, p := ps[..n], ps[n];
      assert ps == init + [p];
      PairsTurn(init, p, 0, EMPTY_TABLE, b, c);
      PairsRefused(init, b, c);
      forall m: nat | m < n ensures FirstRefused(init, b, c, m) <==> FirstRefused(ps, b, c, m) {
        assert init[..m] == ps[..m];
      }
      var tab := EvalPairs(init, 0, EMPTY_TABLE, b, c);
      if tab.Ok? {
        PairIsEntered(p, tab.value, b, c);
        var _, _ := PairsMeaning(init, b, c);
        var keys, v := KeyMeaning(p.key, 0, []), Eval(p.val, b, c);
        if keys.Ok? && v.Ok? {
          PairBarredIs(tab.value, keys.value, v.value);
        }
      }
      assert FirstRefused(ps, b, c, n) <==> tab.Ok? && EvalPairs(ps, 0, EMPTY_TABLE, b, c).Err?;
    }
  }

  lemma {:induction false} PairBarredIs(tab: Datum, keys: seq<Text>, v: Datum)
    requires WellFormed(tab) && tab.Table? && keys != []
    ensures AddPair(tab, keys, v).Err? <==> PairBarred(tab, keys)
  {
    hide AddPair, RunsInto, NoRoom, IntoValue, LandsOn, WellFormed;
    PairRefused(tab, keys, v);
  }
}
