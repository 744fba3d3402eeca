/** Trees without dotted keys, within the limits of the parser: they are read back as written. */
module WrittenTrees {
  import opened Basics
  import opened Datum
  import opened Trees
  import opened Scanning
  import opened Documents
  import opened Parsing
  import opened Printing
  import opened Meanings
  import opened RoundTrips
  import opened TextLimits

  /** The key of one part, spelled in any way. */
  predicate IsName(key: Key) { |key| == 1 && KeyMeaning(key, 0, []).Ok? }

  function NameOf(key: Key): Text {
    if |key| == 1 && KeyMeaning(key, 0, []).Ok? then KeyMeaning(key, 0, []).value[0] else []
  }

  // ---------- the tree

  function DatumOf(v: Val): Datum
    decreases v, 0, 0
  {
    match v
    case VArr(xs, _, _) => Inline(Array(NO_FLAGS, DatumsOf(xs, |xs|)))
    case VTab(ps, _, _) => Inline(TableOf(ps, |ps|))
    case _ => Leaf(NO_FLAGS, if ScalarMeaning(v).Ok? then ScalarMeaning(v).value else Unknown)
  }

  /** The first n elements. */
  function DatumsOf(xs: seq<Elem>, n: nat): (r: seq<Datum>)
    requires n <= |xs|
    ensures |r| == n
    decreases xs, 1, n
  {
    if n == 0 then []
    else
      assert xs[n - 1].val < xs[n - 1];
      DatumsOf(xs, n - 1) + [DatumOf(xs[n - 1].val)]
  }

  function EntriesOf(ps: seq<Binding>, n: nat): (r: seq<Entry>)
    requires n <= |ps|
    ensures |r| == n && forall i :: 0 <= i < n ==> r[i].key == NameOf(ps[i].key)
    decreases ps, 1, n
  {
    if n == 0 then [] else EntriesOf(ps, n - 1) + [Entry(NameOf(ps[n - 1].key), DatumOf(ps[n - 1].val))]
  }

  /** The table while it is read: the first pair marks it as defined. */
  function TableOf(ps: seq<Binding>, n: nat): Datum
    requires n <= |ps|
    decreases ps, 2, n
  {
    Table(Flags(false, false, n > 0), EntriesOf(ps, n))
  }

  // ---------- the limits

  /** Within the limits of the parser, when b arrays and c inline tables count as open. */
  ghost predicate InLimits(v: Val, b: int, c: int)
    decreases v
  {
    match v
    case VArr(xs, _, _) => b + 1 <= MAX_DEPTH && |xs| <= MAX_ITEMS && forall x :: x in xs ==> InLimits(x.val, b + 1, c)
    case VTab(ps, _, _) =>
      && c + 1 <= MAX_DEPTH && NamesOk(ps) && forall p :: p in ps ==> InLimits(p.val, b, c + 1)
    case _ => ScalarMeaning(v).Ok?
  }

  /** No name twice, and not too many. */
  ghost predicate NamesOk(ps: seq<Binding>) {
    && |ps| <= MAX_ITEMS && (forall p :: p in ps ==> IsName(p.key))
    && forall i, j :: 0 <= i < j < |ps| ==> NameOf(ps[i].key) != NameOf(ps[j].key)
  }

  lemma {:induction false} NameMeans(key: Key)
    requires IsName(key)
    ensures key != [] && KeyMeaning(key, 0, []) == Ok([NameOf(key)])
  {
    var r := KeyMeaning(key, 0, []);
    assert |r.value| == 1 && r.value == [r.value[0]];
  }

  lemma {:induction false} EvalIsDatum(v: Val, b: int, c: int)
    requires InLimits(v, b, c)
    ensures Eval(v, b, c) == Ok(DatumOf(v))
    decreases v, 0, 0
  {
    hide ScalarMeaning;
    match v {
      case VArr(xs, _, _) => ElemsAreDatums(xs, 0, b + 1, c);
      case VTab(ps, _, _) => PairsAreEntries(ps, 0, b, c + 1);
      case _ =>
    }
  }

  lemma {:induction false} ElemsAreDatums(xs: seq<Elem>, n: nat, b: int, c: int)
    requires n <= |xs| <= MAX_ITEMS && forall x :: x in xs ==> InLimits(x.val, b, c)
    ensures EvalElems(xs, n, DatumsOf(xs, n), b, c) == Ok(DatumsOf(xs, |xs|))
    decreases xs, 1, |xs| - n
  {
    hide Inline;
    if n < |xs| {
      assert xs[n].val < xs[n];
      EvalIsDatum(xs[n].val, b, c);
      hide Eval, DatumOf, InLimits;
      assert DatumsOf(xs, n + 1) == DatumsOf(xs, n) + [DatumOf(xs[n].val)];
      ElemsAreDatums(xs, n + 1, b, c);
    }
  }

  /** A pair whose key is a new name. */
  lemma {:induction false} NewName(t: Datum, k: Text, v: Datum)
    requires t.Table? && !t.flag.inlined && Find(t.entries, k) < 0 && |t.entries| < TABLE_MAX
    ensures var r := EnterInline(t, [k]);
            && r.Ok?
            && TabAdd(r.value.0, r.value.1, k, v) == Ok(Table(t.flag.(explicit := true), t.entries + [Entry(k, v)]))
  {
    assert [k][..0] == [];
    assert At(t, []) == Some(t);
  }

  lemma {:induction false} PairsAreEntries(ps: seq<Binding>, n: nat, b: int, c: int)
    requires n <= |ps| && NamesOk(ps) && forall p :: p in ps ==> InLimits(p.val, b, c)
    ensures EvalPairs(ps, n, TableOf(ps, n), b, c) == Ok(TableOf(ps, |ps|))
    decreases ps, 1, |ps| - n
  {
    hide Inline, KeyMeaning;
    if n < |ps| {
      assert ps[n] in ps;
      EvalIsDatum(ps[n].val, b, c);
      hide Eval, DatumOf, InLimits, EnterInline, TabAdd, NameOf;
      NameMeans(ps[n].key);
      var k := NameOf(ps[n].key);
      assert Find(EntriesOf(ps, n), k) < 0;
      NewName(TableOf(ps, n), k, DatumOf(ps[n].val));
      assert [k][|[k]| - 1] == k;
      PairsAreEntries(ps, n + 1, b, c);
    }
  }

  // ---------- documents

  /** Key/values with different names, within the limits, are read back entry by entry, however the
      document is written. */
  predicate AreNamed(es: seq<Line>, ps: seq<Binding>) {
    && |es| == |ps| && forall i :: 0 <= i < |es| ==> es[i].LKeyVal? && es[i].key == ps[i].key && es[i].val == ps[i].val
  }

  lemma {:induction false} TreeRoundTrip(s: Input, d: Document, ps: seq<Binding>)
    requires Written(s, d) && AreNamed(AllLines(d), ps) && NamesOk(ps) && forall p :: p in ps ==> InLimits(p.val, 0, 0)
    ensures TomlParse(s).Ok? && TomlParse(s).value.0 == Table(NO_FLAGS, EntriesOf(ps, |ps|))
  {
    hide TomlParse, Written, AllLines, EvalLines, InLimits, NamesOk;
    DocumentRoundTrip(s, d);
    var es := AllLines(d);
    assert es[..|es|] == es;
    EntriesBack(es, ps, |es|);
  }

  lemma {:induction false} EntriesBack(es: seq<Line>, ps: seq<Binding>, n: nat)
    requires AreNamed(es, ps) && NamesOk(ps) && (forall p :: p in ps ==> InLimits(p.val, 0, 0)) && n <= |es|
    ensures EvalLines(EMPTY_DOC, es[..n], 0) == Ok(Doc(Table(NO_FLAGS, EntriesOf(ps, n)), [])) && HeadersOf(es[..n]) == 0
    decreases n
  {
    hide EvalLine, InLimits, NamesOk;
    if n > 0 {
      hide EvalLines, EntriesOf, HeadersOf;
      EntriesBack(es, ps, n - 1);
      assert es[..n] == es[..n - 1] + [es[n - 1]];
      EvalLast(EMPTY_DOC, es[..n - 1], es[n - 1]);
      NoMoreHeaders(es[..n - 1], es[n - 1]);
      assert ps[n - 1] in ps;
      EvalIsDatum(ps[n - 1].val, 0, 0);
      EntryBack(ps, n - 1, es[n - 1]);
    }
  }

  lemma {:induction false} NoMoreHeaders(es: seq<Line>, e: Line)
    requires e.LKeyVal? && HeadersOf(es) == 0
    ensures HeadersOf(es + [e]) == 0
  {
    HeadersAppend(es, e);
  }

  lemma {:induction false} HeadersAppend(es: seq<Line>, e: Line)
    ensures HeadersOf(es + [e]) == HeadersOf(es) + HeadersIn(e)
  {
    if es != [] {
      assert (es + [e])[1..] == es[1..] + [e];
      HeadersAppend(es[1..], e);
    } else {
      assert (es + [e])[1..] == [];
    }
  }

  lemma {:induction false} EntryBack(ps: seq<Binding>, n: nat, e: Line)
    requires n < |ps| && NamesOk(ps) && e.LKeyVal? && e.key == ps[n].key && Eval(e.val, 0, 0) == Ok(DatumOf(ps[n].val))
    ensures EvalLine(Doc(Table(NO_FLAGS, EntriesOf(ps, n)), []), e, 0) ==
            Ok(Doc(Table(NO_FLAGS, EntriesOf(ps, n + 1)), []))
  {
    hide Eval, DatumOf, KeyMeaning, NameOf;
    assert ps[n] in ps;
    NameMeans(e.key);
    var k := NameOf(e.key);
    var ks: seq<Text> := [k];
    assert ks[..0] == [];
    assert Find(EntriesOf(ps, n), k) < 0;
  }
}
