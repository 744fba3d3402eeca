/** What each expression of a document does to the tree: key descent, headers, key/values. */
module Documents {
  import opened Basics
  import opened Datum
  import opened Trees

  const KEYPART_MAX := 10

  predicate IsTableAt(d: Datum, p: Path) { At(d, p).Some? && At(d, p).value.Table? }

  /** tab_add: a new key, or a zeroed slot filled. */
  function TabAdd(d: Datum, p: Path, k: Text, v: Datum): (r: Result<Datum>)
    requires IsTableAt(d, p)
  {
    var t := At(d, p).value;
    var j := Find(t.entries, k);
    if j >= 0 then
      if TypeOf(t.entries[j].val) != TUnknown then Err(DuplicateKey)
      else Ok(Put(d, p, t.(entries := t.entries[j := Entry(k, v)])))
    else if |t.entries| >= TABLE_MAX then Err(TooLarge)
    else Ok(AddEntry(d, p, k, v))
  }

  /** The four places where the code walks down the parts of a key. */
  datatype Walker = InlineKey | TableHeader | ArrayHeader | KeyValue

  /** The empty table created for a missing key part; headers mark theirs. */
  function Implicit(w: Walker): Datum {
    Table(Flags(false, w.TableHeader? || w.ArrayHeader?, false), [])
  }

  /** One turn of the descent: from the table at p to the table its key k leads to, which is
      created when missing. The i-th turn of a key/value is refused in a table that a header
      has defined, unless it is the first. */
  function WalkStep(d: Datum, p: Path, k: Text, w: Walker, i: nat): Result<(Datum, Path)> {
    if !IsTableAt(d, p) then Err(Internal)
    else
      var t := At(d, p).value;
      var j := Find(t.entries, k);
      if j < 0 then
        if w.KeyValue? && i > 0 && t.flag.explicit then Err(Redefined)
        else
          var r :- TabAdd(d, p, k, Implicit(w));
          Ok((r, p + [K(k)]))
      else
        var v := t.entries[j].val;
        if v.Table? then Ok((d, p + [K(k)]))
        else if v.Array? && !w.KeyValue? then
          if w.ArrayHeader? && v.flag.inlined then Err(Inlined)
          else if v.elems == [] || !v.elems[|v.elems| - 1].Table? then Err(NotATable)
          else Ok((d, p + [K(k), I(|v.elems| - 1)]))
        else Err(NotATable)
  }

  /** The descent from p along keys. */
  function Walk(d: Datum, p: Path, keys: seq<Text>, w: Walker, i: nat): Result<(Datum, Path)>
    decreases |keys|
  {
    if keys == [] then Ok((d, p))
    else
      var (d', p') :- WalkStep(d, p, keys[0], w, i);
      Walk(d', p', keys[1..], w, i + 1)
  }

  /** The parser's tree and its current table. */
  datatype Doc = Doc(top: Datum, curtab: Path)

  const EMPTY_DOC := Doc(EMPTY_TABLE, [])

  /** parse_std_table_expr, once the key has been read. */
  function OpenTable(doc: Doc, keys: seq<Text>): Result<Doc>
    requires keys != []
  {
    var n := |keys| - 1;
    var (d, p) :- Walk(doc.top, [], keys[..n], TableHeader, 0);
    if !IsTableAt(d, p) then Err(Internal)
    else
      var t := At(d, p).value;
      var j := Find(t.entries, keys[n]);
      if j < 0 then
        if t.flag.inlined then Err(Inlined)
        else
          var r :- TabAdd(d, p, keys[n], Table(Flags(false, true, true), []));
          Ok(Doc(r, p + [K(keys[n])]))
      else
        var v := t.entries[j].val;
        if v.flag.explicit || !v.flag.stdexpr then Err(Redefined)
        else if !v.Table? then Err(Internal)
        else OpenFound(d, p, keys[n])
  }

  /** FLAG_EXPLICIT set on the table found under key k. */
  function OpenFound(d: Datum, p: Path, k: Text): Result<Doc>
    requires IsTableAt(d, p) && Find(At(d, p).value.entries, k) >= 0
    requires At(d, p).value.entries[Find(At(d, p).value.entries, k)].val.Table?
  {
    AtStep(d, p, K(k));
    Ok(Doc(SetExplicit(d, p + [K(k)]), p + [K(k)]))
  }

  /** parse_array_table_expr, once the key has been read. */
  function OpenElement(doc: Doc, keys: seq<Text>): Result<Doc>
    requires keys != []
  {
    var n := |keys| - 1;
    var (d, p) :- Walk(doc.top, [], keys[..n], ArrayHeader, 0);
    if !IsTableAt(d, p) then Err(Internal)
    else
      var e :- if Find(At(d, p).value.entries, keys[n]) < 0
               then TabAdd(d, p, keys[n], Array(NO_FLAGS, [])) else Ok(d);
      var q := p + [K(keys[n])];
      if At(e, q).None? then Err(Internal)
      else
        var a := At(e, q).value;
        if !a.Array? then Err(NotATable)
        else if a.flag.inlined then Err(Inlined)
        else if |a.elems| >= ARRAY_MAX then Err(TooLarge)
        else Ok(Doc(AddElem(e, q, EMPTY_TABLE), q + [I(|a.elems|)]))
  }

  /** The first half of parse_keyvalue_expr: the table that is to get the new key. */
  function Locate(doc: Doc, keys: seq<Text>): (r: Result<(Datum, Path)>)
    requires keys != []
    ensures r.Ok? ==> IsTableAt(r.value.0, r.value.1)
  {
    var n := |keys| - 1;
    var (d, p) :- Walk(doc.top, doc.curtab, keys[..n], KeyValue, 0);
    if !IsTableAt(d, p) then Err(Internal)
    else if At(d, p).value.flag.inlined then Err(Inlined)
    else if n > 0 && At(d, p).value.flag.explicit then Err(Redefined)
    else Ok((d, p))
  }

  /** An expression of a document, read. */
  datatype Expr =
    | Header(keys: seq<Text>)
    | ElementHeader(keys: seq<Text>)
    | KeyVal(keys: seq<Text>, val: Datum)

  function Apply(doc: Doc, e: Expr): Result<Doc>
    requires e.keys != []
  {
    match e
    case Header(keys) => OpenTable(doc, keys)
    case ElementHeader(keys) => OpenElement(doc, keys)
    case KeyVal(keys, v) =>
      var (d, p) :- Locate(doc, keys);
      var r :- TabAdd(d, p, keys[|keys| - 1], v);
      Ok(Doc(r, doc.curtab))
  }

  // ---------- what is promised of every change

  /** The scalar at a place, if a leaf is there. */
  function LeafAt(d: Datum, p: Path): Option<Scalar> {
    if At(d, p).Some? && At(d, p).value.Leaf? then Some(At(d, p).value.scalar) else None
  }

  ghost predicate LeavesPlus(d: Datum, r: Datum, target: Path, v: Datum) {
    forall q: Path :: LeafAt(r, q) == if target <= q then LeafAt(v, q[|target|..]) else LeafAt(d, q)
  }

  ghost predicate SameLeaves(d: Datum, r: Datum) {
    forall q: Path :: LeafAt(r, q) == LeafAt(d, q)
  }

  /** A new entry keeps the tree well formed, adds its own string bytes, and its own leaves. */
  lemma TabAddEffect(d: Datum, p: Path, k: Text, v: Datum)
    requires WellFormed(d) && WellFormed(v) && IsTableAt(d, p) && TabAdd(d, p, k, v).Ok?
    ensures var r := TabAdd(d, p, k, v).value;
            && Find(At(d, p).value.entries, k) < 0 && r == AddEntry(d, p, k, v)
            && WellFormed(r) && Grows(d, r) && StrBytes(r) == StrBytes(d) + StrBytes(v)
            && At(r, p + [K(k)]) == Some(v)
            && LeavesPlus(d, r, p + [K(k)], v)
  {
    hide Put, StrBytes, EntryBytes;
    var t := At(d, p).value;
    AtWellFormed(d, p);
    NoUnknownChild(t, k);
    var u := t.(entries := t.entries + [Entry(k, v)]);
    AddedWellFormed(t, k, v);
    PutWellFormed(d, p, u);
    PutBytes(d, p, u);
    AddedBytes(t, k, v);
    AddEntryGrows(d, p, k, v);
    AddEntryLeaves(d, p, k, v);
    AddEntryEffect(d, p, k, v, p + [K(k)]);
    assert (p + [K(k)])[|p| + 1..] == [];
  }

  lemma NoUnknownChild(t: Datum, k: Text)
    requires WellFormed(t) && t.Table?
    ensures var j := Find(t.entries, k); j >= 0 ==> TypeOf(t.entries[j].val) != TUnknown
  {
    var j := Find(t.entries, k);
    if j >= 0 {
      assert WellFormed(t.entries[j].val);
    }
  }

  lemma AddedWellFormed(t: Datum, k: Text, v: Datum)
    requires WellFormed(t) && WellFormed(v) && t.Table? && Find(t.entries, k) < 0 && |t.entries| < TABLE_MAX
    ensures WellFormed(t.(entries := t.entries + [Entry(k, v)]))
  {}

  lemma AddedBytes(t: Datum, k: Text, v: Datum)
    requires t.Table?
    ensures StrBytes(t.(entries := t.entries + [Entry(k, v)])) == StrBytes(t) + StrBytes(v)
  {
    EntryBytesAppend(t.entries, Entry(k, v));
  }

  lemma AddEntryGrows(d: Datum, p: Path, k: Text, v: Datum)
    requires IsTableAt(d, p) && Find(At(d, p).value.entries, k) < 0
    ensures Grows(d, AddEntry(d, p, k, v))
  {
    forall q: Path ensures GrowsAt(d, AddEntry(d, p, k, v), q) {
      AddEntryEffect(d, p, k, v, q);
      if p + [K(k)] <= q {
        NoPlaceBelow(d, p, K(k), q);
      }
    }
  }

  /** Below a missing child there is nothing. */
  lemma NoPlaceBelow(d: Datum, p: Path, s: Step, q: Path)
    requires p + [s] <= q && At(d, p).Some? && Child(At(d, p).value, s).None?
    ensures At(d, q).None?
  {
    PrefixStep(p, s, q);
    BelowPlace(d, p, d, q);
  }

  lemma AddEntryLeaves(d: Datum, p: Path, k: Text, v: Datum)
    requires IsTableAt(d, p) && Find(At(d, p).value.entries, k) < 0
    ensures LeavesPlus(d, AddEntry(d, p, k, v), p + [K(k)], v)
  {
    var r := AddEntry(d, p, k, v);
    forall q: Path
      ensures LeafAt(r, q) == if p + [K(k)] <= q then LeafAt(v, q[|p + [K(k)]|..]) else LeafAt(d, q)
    {
      AddEntryEffect(d, p, k, v, q);
    }
  }

  lemma EmptyLeaves(d: Datum, r: Datum, target: Path, v: Datum)
    requires LeavesPlus(d, r, target, v)
    requires (v.Table? && v.entries == []) || (v.Array? && v.elems == [])
    requires forall q: Path :: target <= q ==> At(d, q).None?
    ensures SameLeaves(d, r)
  {
    forall q: Path ensures LeafAt(r, q) == LeafAt(d, q) {
      if target <= q {
        var s := q[|target|..];
        assert s == [] || Child(v, s[0]).None?;
      }
    }
  }
}
