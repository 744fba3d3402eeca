/** What copying and merging mean, stated without a pool and without slots. */
module MergeLaws {
  import opened Basics
  import opened Datum
  import opened Merging

  // ---------- the copy of a tree

  /** Strings and containers lose their flags in a copy, other leaves keep them. */
  function Copied(d: Datum): Datum
    decreases d, 0
  {
    match d
    case Leaf(_, Str(t)) => Leaf(NO_FLAGS, Str(t))
    case Leaf(_, _) => d
    case Array(_, xs) => Array(NO_FLAGS, CopiedElems(xs))
    case Table(_, es) => Table(NO_FLAGS, CopiedEntries(es))
  }

  function CopiedElems(xs: seq<Datum>): (ys: seq<Datum>)
    ensures |ys| == |xs|
    decreases xs, 1
  {
    seq(|xs|, i requires 0 <= i < |xs| => Copied(xs[i]))
  }

  function CopiedEntries(es: seq<Entry>): (fs: seq<Entry>)
    ensures |fs| == |es|
    decreases es, 1
  {
    seq(|es|, i requires 0 <= i < |es| => Entry(es[i].key, Copied(es[i].val)))
  }

  lemma {:induction false} CopiedEquiv(d: Datum)
    requires NoUnknown(d)
    ensures Equiv(d, Copied(d))
  {
    match d
    case Leaf(_, _) =>
    case Array(_, xs) =>
      forall i | 0 <= i < |xs| ensures Equiv(xs[i], Copied(xs[i])) { CopiedEquiv(xs[i]); }
    case Table(_, es) =>
      forall i | 0 <= i < |es| ensures Equiv(es[i].val, Copied(es[i].val)) { CopiedEquiv(es[i].val); }
  }

  lemma {:induction false} CopiedWellFormed(d: Datum)
    requires WellFormed(d)
    ensures WellFormed(Copied(d))
  {
    match d
    case Leaf(_, _) =>
    case Array(_, xs) =>
      forall i | 0 <= i < |xs| ensures WellFormed(Copied(xs[i])) { CopiedWellFormed(xs[i]); }
    case Table(_, es) =>
      forall i | 0 <= i < |es| ensures WellFormed(Copied(es[i].val)) { CopiedWellFormed(es[i].val); }
  }

  lemma {:induction false} CopiedBytes(d: Datum)
    ensures StrBytes(Copied(d)) == StrBytes(d)
    decreases d, 0, 0
  {
    match d
    case Leaf(_, _) =>
    case Array(_, xs) => CopiedElemBytes(xs, |xs|);
    case Table(_, es) => CopiedEntryBytes(es, |es|);
  }

  lemma {:induction false} CopiedElemBytes(xs: seq<Datum>, n: nat)
    requires n <= |xs|
    ensures ElemBytes(CopiedElems(xs), n) == ElemBytes(xs, n)
    decreases xs, 1, n
  {
    if n > 0 {
      CopiedElemBytes(xs, n - 1);
      CopiedBytes(xs[n - 1]);
    }
  }

  lemma {:induction false} CopiedEntryBytes(es: seq<Entry>, n: nat)
    requires n <= |es|
    ensures EntryBytes(CopiedEntries(es), n) == EntryBytes(es, n)
    decreases es, 1, n
  {
    if n > 0 {
      CopiedEntryBytes(es, n - 1);
      CopiedBytes(es[n - 1].val);
    }
  }

  // ---------- datum_copy computes it, and says exactly when the pool suffices

  lemma {:induction false} CopyExactly(d: Datum, top: nat, max: nat)
    requires WellFormed(d) && top <= max
    ensures Copy(d, top, max) ==
            if top + StrBytes(d) <= max then Ok((Copied(d), top + StrBytes(d))) else Err(OutOfMemory)
    decreases d, 0
  {
    match d
    case Leaf(_, _) =>
    case Array(_, xs) =>
      CopyElemsExactly(xs, 0, [], top, max);
      assert [] + CopiedElems(xs)[0..] == CopiedElems(xs);
    case Table(_, es) =>
      CopyEntriesExactly(es, 0, top, max);
  }

  lemma {:induction false} CopyElemsExactly(xs: seq<Datum>, i: nat, ys: seq<Datum>, top: nat, max: nat)
    requires forall k :: 0 <= k < |xs| ==> WellFormed(xs[k])
    requires i <= |xs| && |ys| + |xs| - i <= ARRAY_MAX && top <= max
    ensures ElemBytes(xs, i) <= ElemBytes(xs, |xs|)
    ensures var after := top + ElemBytes(xs, |xs|) - ElemBytes(xs, i);
            CopyElems(xs, i, ys, top, max) ==
            if after <= max then Ok((ys + CopiedElems(xs)[i..], after)) else Err(OutOfMemory)
    decreases xs, |xs| - i
  {
    ElemBytesMono(xs, i, |xs|);
    if i == |xs| {
      assert ys + CopiedElems(xs)[i..] == ys;
    } else {
      ElemBytesMono(xs, i + 1, |xs|);
      CopyExactly(xs[i], top, max);
      var y := Copied(xs[i]);
      if top + StrBytes(xs[i]) <= max {
        CopyElemsExactly(xs, i + 1, ys + [y], top + StrBytes(xs[i]), max);
        assert ys + [y] + CopiedElems(xs)[i + 1..] == ys + CopiedElems(xs)[i..];
      }
    }
  }

  /** The next key of a table with distinct keys always gets a slot of its own. */
  lemma {:induction false} EmplaceNext(es: seq<Entry>, i: nat)
    requires DistinctKeys(es) && |es| <= TABLE_MAX && i < |es|
    ensures var r := Emplace(CopiedEntries(es)[..i], es[i].key);
            r.Ok? && r.value.1 == i
            && r.value.0[i := Entry(es[i].key, Copied(es[i].val))] == CopiedEntries(es)[..i + 1]
  {
    var fs := CopiedEntries(es);
    assert forall k :: 0 <= k < i ==> fs[..i][k].key == es[k].key;
  }

  /** One round of the entry loop, when the value copies to its copy or fails. */
  lemma CopyEntriesNext(es: seq<Entry>, i: nat, top: nat, max: nat)
    requires DistinctKeys(es) && |es| <= TABLE_MAX && i < |es|
    requires var c := Copy(es[i].val, top, max); c.Ok? ==> c.value.0 == Copied(es[i].val)
    ensures CopyEntries(es, i, CopiedEntries(es)[..i], top, max) ==
            match Copy(es[i].val, top, max)
            case Ok((_, after)) => CopyEntries(es, i + 1, CopiedEntries(es)[..i + 1], after, max)
            case Err(e) => Err(e)
  {
    EmplaceNext(es, i);
  }

  lemma CopyEntriesEnd(es: seq<Entry>, top: nat, max: nat)
    ensures CopyEntries(es, |es|, CopiedEntries(es)[..|es|], top, max) == Ok((CopiedEntries(es), top))
  {
    assert CopiedEntries(es)[..|es|] == CopiedEntries(es);
  }

  lemma EntryBytesNext(es: seq<Entry>, i: nat)
    requires i < |es|
    ensures EntryBytes(es, i + 1) == EntryBytes(es, i) + StrBytes(es[i].val)
  {}

  lemma {:induction false} CopyEntriesExactly(es: seq<Entry>, i: nat, top: nat, max: nat)
    requires forall k :: 0 <= k < |es| ==> WellFormed(es[k].val)
    requires DistinctKeys(es) && |es| <= TABLE_MAX && i <= |es| && top <= max
    ensures EntryBytes(es, i) <= EntryBytes(es, |es|)
    ensures var after := top + EntryBytes(es, |es|) - EntryBytes(es, i);
            CopyEntries(es, i, CopiedEntries(es)[..i], top, max) ==
            if after <= max then Ok((CopiedEntries(es), after)) else Err(OutOfMemory)
    decreases es, |es| - i
  {
    hide Copy, CopyEntries, CopiedEntries, EntryBytes, WellFormed, DistinctKeys;
    EntryBytesMono(es, i, |es|);
    if i == |es| {
      CopyEntriesEnd(es, top, max);
    } else {
      EntryBytesMono(es, i + 1, |es|);
      EntryBytesNext(es, i);
      CopyExactly(es[i].val, top, max);
      CopyEntriesNext(es, i, top, max);
      if top + StrBytes(es[i].val) <= max {
        CopyEntriesExactly(es, i + 1, top + StrBytes(es[i].val), max);
      }
    }
  }

  // ---------- repeated keys

  /** The keys es[i..] are new and all different. */
  ghost predicate FreshKeys(fs: seq<Entry>, es: seq<Entry>, i: nat)
    requires i <= |es|
  {
    && (forall a, b :: i <= a < b < |es| ==> es[a].key != es[b].key)
    && forall a, c :: i <= a < |es| && 0 <= c < |fs| ==> es[a].key != fs[c].key
  }

  /** The entry loop gives a slot of its own to each entry exactly when its keys are new and
      all different; otherwise some entry is lost. */
  lemma {:induction false} CopyEntriesCount(es: seq<Entry>, i: nat, fs: seq<Entry>, top: nat, max: nat)
    requires i <= |es| && CopyEntries(es, i, fs, top, max).Ok?
    ensures var gs := CopyEntries(es, i, fs, top, max).value.0;
            |gs| <= |fs| + |es| - i && (|gs| == |fs| + |es| - i <==> FreshKeys(fs, es, i))
    decreases |es| - i
  {
    if i < |es| {
      hide Copy;
      var (hs, j) := Emplace(fs, es[i].key).value;
      var (v, after) := Copy(es[i].val, top, max).value;
      var next := hs[j := Entry(es[i].key, v)];
      CopyEntriesCount(es, i + 1, next, after, max);
      FreshNext(fs, es, i, next);
    }
  }

  lemma FreshNext(fs: seq<Entry>, es: seq<Entry>, i: nat, next: seq<Entry>)
    requires i < |es| && |fs| <= |next| <= |fs| + 1
    requires forall c :: 0 <= c < |fs| ==> next[c].key == fs[c].key
    requires if Find(fs, es[i].key) >= 0 then |next| == |fs|
             else |next| == |fs| + 1 && next[|fs|].key == es[i].key
    ensures FreshKeys(fs, es, i) <==> |next| == |fs| + 1 && FreshKeys(next, es, i + 1)
  {}

  /** datum_copy keeps a table's entries exactly when its keys are distinct: with a repeated key
      a copy that succeeds is smaller, and not equivalent to its original. */
  lemma CopyNeedsDistinctKeys(f: Flags, es: seq<Entry>, top: nat, max: nat)
    requires Copy(Table(f, es), top, max).Ok?
    ensures var c := Copy(Table(f, es), top, max).value.0;
            && c.Table? && |c.entries| <= |es|
            && (|c.entries| == |es| <==> DistinctKeys(es))
            && (!DistinctKeys(es) ==> !Equiv(Table(f, es), c))
  {
    CopyEntriesCount(es, 0, [], top, max);
  }
}
