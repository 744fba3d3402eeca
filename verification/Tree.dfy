/** Places in a tree, and what changing the node at one place does to all the others. */
module Trees {
  import opened Basics
  import opened Datum

  /** One pointer step: into the value of a key, or into an array element. */
  datatype Step = K(key: Text) | I(idx: nat)

  type Path = seq<Step>

  function Child(d: Datum, s: Step): Option<Datum> {
    match s
    case K(k) =>
      if d.Table? && Find(d.entries, k) >= 0 then Some(d.entries[Find(d.entries, k)].val) else None
    case I(i) =>
      if d.Array? && i < |d.elems| then Some(d.elems[i]) else None
  }

  /** The node a path points at. */
  function At(d: Datum, p: Path): Option<Datum>
    decreases |p|
  {
    if p == [] then Some(d)
    else
      var c :- Child(d, p[0]);
      At(c, p[1..])
  }

  function PutChild(d: Datum, s: Step, v: Datum): Datum
    requires Child(d, s).Some?
  {
    match s
    case K(k) => d.(entries := d.entries[Find(d.entries, k) := Entry(k, v)])
    case I(i) => d.(elems := d.elems[i := v])
  }

  /** d with the node at p overwritten by v. */
  function Put(d: Datum, p: Path, v: Datum): Datum
    requires At(d, p).Some?
    decreases |p|
  {
    if p == [] then v else PutChild(d, p[0], Put(Child(d, p[0]).value, p[1..], v))
  }

  // ---------- what is visible at a place

  /** A node without its children: the scalar, the number of elements, or the keys in order. */
  datatype Node =
    | LeafNode(flag: Flags, scalar: Scalar)
    | ArrayNode(flag: Flags, size: nat)
    | TableNode(flag: Flags, keys: seq<Text>)

  function KeysOf(es: seq<Entry>): (ks: seq<Text>)
    ensures |ks| == |es|
  {
    seq(|es|, i requires 0 <= i < |es| => es[i].key)
  }

  function NodeOf(d: Datum): Node {
    match d
    case Leaf(f, s) => LeafNode(f, s)
    case Array(f, xs) => ArrayNode(f, |xs|)
    case Table(f, es) => TableNode(f, KeysOf(es))
  }

  function NodeAt(d: Datum, p: Path): Option<Node> {
    match At(d, p) case Some(c) => Some(NodeOf(c)) case None => None
  }

  lemma {:induction false} AtConcat(d: Datum, p: Path, q: Path)
    ensures At(d, p + q) == match At(d, p) case Some(c) => At(c, q) case None => None
    decreases |p|
  {
    if p == [] {
      assert p + q == q;
    } else {
      assert (p + q)[0] == p[0] && (p + q)[1..] == p[1..] + q;
      var c := Child(d, p[0]);
      if c.Some? {
        AtConcat(c.value, p[1..], q);
      }
    }
  }

  lemma AtStep(d: Datum, p: Path, s: Step)
    ensures At(d, p + [s]) == match At(d, p) case Some(c) => Child(c, s) case None => None
  {
    AtConcat(d, p, [s]);
    if At(d, p).Some? && Child(At(d, p).value, s).Some? {
      assert At(Child(At(d, p).value, s).value, [s][1..]) == Child(At(d, p).value, s);
    }
  }

  lemma PutChildSame(d: Datum, s: Step, v: Datum, t: Step)
    requires Child(d, s).Some?
    ensures Child(PutChild(d, s, v), t) == if t == s then Some(v) else Child(d, t)
    ensures NodeOf(PutChild(d, s, v)) == NodeOf(d)
  {
    match s
    case I(i) =>
    case K(k) =>
      var j := Find(d.entries, k);
      var es := d.entries[j := Entry(k, v)];
      assert KeysOf(es) == KeysOf(d.entries);
      if t.K? {
        FindSameKeys(d.entries, es, t.key);
      }
  }

  lemma FindSameKeys(es: seq<Entry>, fs: seq<Entry>, k: Text)
    requires KeysOf(es) == KeysOf(fs)
    ensures Find(es, k) == Find(fs, k)
  {
    assert |es| == |KeysOf(es)| == |fs|;
    assert forall i :: 0 <= i < |es| ==> es[i].key == KeysOf(es)[i] == KeysOf(fs)[i] == fs[i].key;
    var i, j := Find(es, k), Find(fs, k);
  }

  /** Overwriting the node at p: below p the new node is seen, everywhere else the same node as before. */
  lemma {:induction false} PutFrame(d: Datum, p: Path, v: Datum, q: Path)
    requires At(d, p).Some?
    ensures if p <= q then At(Put(d, p, v), q) == At(v, q[|p|..])
            else NodeAt(Put(d, p, v), q) == NodeAt(d, q)
    decreases |p|
  {
    if p == [] {
      assert q[0..] == q;
    } else {
      var c := Child(d, p[0]).value;
      var w := Put(c, p[1..], v);
      if q == [] {
        PutChildSame(d, p[0], w, p[0]);
      } else {
        PutChildSame(d, p[0], w, q[0]);
        if q[0] == p[0] {
          PutFrame(c, p[1..], v, q[1..]);
          PrefixTail(p, q);
        }
      }
    }
  }

  lemma PrefixTail(p: Path, q: Path)
    requires p != [] && q != [] && p[0] == q[0]
    ensures p <= q <==> p[1..] <= q[1..]
    ensures p <= q ==> q[|p|..] == q[1..][|p| - 1..]
  {
    if p[1..] <= q[1..] {
      assert forall i :: 0 < i < |p| ==> p[i] == p[1..][i - 1] == q[1..][i - 1] == q[i];
    }
  }

  lemma PutSame(d: Datum, p: Path, v: Datum)
    requires At(d, p).Some?
    ensures At(Put(d, p, v), p) == Some(v)
  {
    PutFrame(d, p, v, p);
    assert p[|p|..] == [];
  }

  // ---------- growth

  /** What a node may turn into: a leaf nothing but itself, an array only a longer one, a
      table only one with more keys at the end; flags are only ever set. */
  ghost predicate NodeGrows(m: Node, n: Node) {
    match (m, n)
    case (LeafNode(_, _), _) => m == n
    case (ArrayNode(f, i), ArrayNode(g, j)) => f.Within(g) && i <= j
    case (TableNode(f, ks), TableNode(g, ls)) => f.Within(g) && ks <= ls
    case _ => false
  }

  ghost predicate GrowsAt(a: Datum, b: Datum, p: Path) {
    NodeAt(a, p).Some? ==> NodeAt(b, p).Some? && NodeGrows(NodeAt(a, p).value, NodeAt(b, p).value)
  }

  /** Every place of a is a place of b, and its node has only grown. */
  ghost predicate Grows(a: Datum, b: Datum) {
    forall p: Path :: GrowsAt(a, b, p)
  }

  lemma GrowsReflexive(a: Datum)
    ensures Grows(a, a)
  {}

  lemma GrowsTransitive(a: Datum, b: Datum, c: Datum)
    requires Grows(a, b) && Grows(b, c)
    ensures Grows(a, c)
  {
    forall p: Path ensures GrowsAt(a, c, p) {
      assert GrowsAt(a, b, p) && GrowsAt(b, c, p);
    }
  }

  // ---------- well-formedness and string bytes of a changed tree

  lemma {:induction false} PutWellFormed(d: Datum, p: Path, v: Datum)
    requires WellFormed(d) && WellFormed(v) && At(d, p).Some?
    ensures WellFormed(Put(d, p, v))
    decreases |p|
  {
    if p != [] {
      var c := Child(d, p[0]).value;
      PutWellFormed(c, p[1..], v);
      PutChildWellFormed(d, p[0], Put(c, p[1..], v));
    }
  }

  lemma PutChildWellFormed(d: Datum, s: Step, v: Datum)
    requires WellFormed(d) && WellFormed(v) && Child(d, s).Some?
    ensures WellFormed(PutChild(d, s, v))
  {}

  lemma {:induction false} AtWellFormed(d: Datum, p: Path)
    requires WellFormed(d) && At(d, p).Some?
    ensures WellFormed(At(d, p).value)
    decreases |p|
  {
    if p != [] {
      AtWellFormed(Child(d, p[0]).value, p[1..]);
    }
  }

  lemma PutChildBytes(d: Datum, s: Step, v: Datum)
    requires Child(d, s).Some?
    ensures StrBytes(PutChild(d, s, v)) == StrBytes(d) - StrBytes(Child(d, s).value) + StrBytes(v)
  {
    match s
    case K(k) =>
      EntryBytesUpdate(d.entries, Find(d.entries, k), Entry(k, v), |d.entries|);
    case I(i) =>
      ElemBytesUpdate(d.elems, i, v, |d.elems|);
  }

  lemma {:induction false} PutBytes(d: Datum, p: Path, v: Datum)
    requires At(d, p).Some?
    ensures StrBytes(Put(d, p, v)) == StrBytes(d) - StrBytes(At(d, p).value) + StrBytes(v)
    decreases |p|
  {
    hide StrBytes;
    if p != [] {
      var c := Child(d, p[0]).value;
      PutBytes(c, p[1..], v);
      PutChildBytes(d, p[0], Put(c, p[1..], v));
    }
  }

  // ---------- the three changes the parser makes

  /** A new entry at the end of the table at p. */
  function AddEntry(d: Datum, p: Path, k: Text, v: Datum): Datum
    requires At(d, p).Some? && At(d, p).value.Table?
  {
    var t := At(d, p).value;
    Put(d, p, t.(entries := t.entries + [Entry(k, v)]))
  }

  /** A new element at the end of the array at p. */
  function AddElem(d: Datum, p: Path, v: Datum): Datum
    requires At(d, p).Some? && At(d, p).value.Array?
  {
    var a := At(d, p).value;
    Put(d, p, a.(elems := a.elems + [v]))
  }

  /** FLAG_EXPLICIT set on the table at p. */
  function SetExplicit(d: Datum, p: Path): Datum
    requires At(d, p).Some? && At(d, p).value.Table?
  {
    var t := At(d, p).value;
    Put(d, p, Table(t.flag.(explicit := true), t.entries))
  }

  lemma EntryChild(t: Datum, k: Text, v: Datum, s: Step)
    requires t.Table? && Find(t.entries, k) < 0
    ensures Child(t.(entries := t.entries + [Entry(k, v)]), s) == if s == K(k) then Some(v) else Child(t, s)
    ensures KeysOf(t.entries + [Entry(k, v)]) == KeysOf(t.entries) + [k]
  {
    if s.K? {
      var es := t.entries + [Entry(k, v)];
      assert forall i :: 0 <= i < |t.entries| ==> es[i] == t.entries[i];
      assert es[|t.entries|].key == k;
      var i, j := Find(es, s.key), Find(t.entries, s.key);
    }
  }

  /** The whole effect of a new entry on what is visible, place by place. */
  lemma AddEntryEffect(d: Datum, p: Path, k: Text, v: Datum, q: Path)
    requires At(d, p).Some? && At(d, p).value.Table? && Find(At(d, p).value.entries, k) < 0
    ensures var r := AddEntry(d, p, k, v);
            if p + [K(k)] <= q then At(r, q) == At(v, q[|p| + 1..])
            else if q == p then
              NodeAt(r, q) == Some(TableNode(At(d, p).value.flag, KeysOf(At(d, p).value.entries) + [k]))
            else NodeAt(r, q) == NodeAt(d, q)
  {
    hide Put;
    var t := At(d, p).value;
    var u := t.(entries := t.entries + [Entry(k, v)]);
    PutFrame(d, p, u, q);
    EntryChild(t, k, v, K(k));
    if p <= q {
      BelowPlace(d, p, u, q);
      if q != p {
        EntryChild(t, k, v, q[|p|]);
        PrefixStep(p, K(k), q);
      }
    } else {
      assert !(p + [K(k)] <= q) by { PrefixStep(p, K(k), q); }
    }
  }

  lemma PrefixStep(p: Path, s: Step, q: Path)
    ensures p + [s] <= q <==> p <= q && |p| < |q| && q[|p|] == s
  {
    if p + [s] <= q {
      assert forall i :: 0 <= i < |p| ==> q[i] == (p + [s])[i] == p[i];
      assert q[|p|] == (p + [s])[|p|];
    }
  }

  /** Reading below p, in the tree and in a node u that stands at p. */
  lemma BelowPlace(d: Datum, p: Path, u: Datum, q: Path)
    requires p <= q && At(d, p).Some?
    ensures At(d, q) == At(At(d, p).value, q[|p|..])
    ensures |p| < |q| ==>
              At(u, q[|p|..]) == match Child(u, q[|p|]) case Some(c) => At(c, q[|p| + 1..]) case None => None
    ensures |p| < |q| ==>
              At(d, q) == match Child(At(d, p).value, q[|p|]) case Some(c) => At(c, q[|p| + 1..]) case None => None
    ensures |p| == |q| ==> q == p && q[|p|..] == []
  {
    assert p + q[|p|..] == q;
    AtConcat(d, p, q[|p|..]);
    if |p| < |q| {
      assert q[|p|..][1..] == q[|p| + 1..];
    }
  }

  lemma AddElemEffect(d: Datum, p: Path, v: Datum, q: Path)
    requires At(d, p).Some? && At(d, p).value.Array?
    ensures var n := |At(d, p).value.elems|;
            var r := AddElem(d, p, v);
            if p + [I(n)] <= q then At(r, q) == At(v, q[|p| + 1..])
            else if q == p then NodeAt(r, q) == Some(ArrayNode(At(d, p).value.flag, n + 1))
            else NodeAt(r, q) == NodeAt(d, q)
  {
    hide Put;
    var a := At(d, p).value;
    var u := a.(elems := a.elems + [v]);
    PutFrame(d, p, u, q);
    PrefixStep(p, I(|a.elems|), q);
    if p <= q {
      BelowPlace(d, p, u, q);
    }
  }

  lemma SetExplicitEffect(d: Datum, p: Path, q: Path)
    requires At(d, p).Some? && At(d, p).value.Table?
    ensures var r := SetExplicit(d, p);
            var t := At(d, p).value;
            if q == p then At(r, q) == Some(Table(t.flag.(explicit := true), t.entries))
            else NodeAt(r, q) == NodeAt(d, q)
  {
    hide Put;
    var t := At(d, p).value;
    var u := Table(t.flag.(explicit := true), t.entries);
    PutFrame(d, p, u, q);
    if p <= q {
      BelowPlace(d, p, u, q);
    }
  }
}
