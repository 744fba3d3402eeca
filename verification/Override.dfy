/** toml_merge as an override by path: a reference definition, and the proof that
    datum_merge computes it. */
module Overriding {
  import opened Basics
  import opened Datum
  import opened Merging
  import opened MergeLaws

  // ---------- reference definition

  /** a overridden by b: tables merge, an array of tables on the right is appended to an
      array on the left, anything else on the right wins. */
  function Override(a: Datum, b: Datum): Datum
    decreases b, 0
  {
    if a.Table? && b.Table? then a.(entries := OverrideEntries(a.entries, b.entries))
    else if a.Array? && IsArrayOfTables(b) then a.(elems := a.elems + CopiedElems(b.elems))
    else Copied(b)
  }

  /** The keys of the left first, in their order, then the new keys of the right in theirs. */
  function OverrideEntries(es: seq<Entry>, fs: seq<Entry>): seq<Entry>
    decreases fs, 1
  {
    Overridden(es, fs) + NewEntries(es, fs, |fs|)
  }

  function Overridden(es: seq<Entry>, fs: seq<Entry>): (r: seq<Entry>)
    ensures |r| == |es|
    decreases fs, 0
  {
    seq(|es|, i requires 0 <= i < |es| =>
      var j := Find(fs, es[i].key);
      if j < 0 then es[i] else Entry(es[i].key, Override(es[i].val, fs[j].val)))
  }

  /** Copies of those among the first n entries of fs whose key es lacks. */
  function NewEntries(es: seq<Entry>, fs: seq<Entry>, n: nat): (r: seq<Entry>)
    requires n <= |fs|
    ensures |r| <= n
    ensures forall i :: 0 <= i < |r| ==> Find(es, r[i].key) < 0
    ensures forall i :: 0 <= i < |r| ==> exists j :: 0 <= j < n && fs[j].key == r[i].key
    decreases n
  {
    if n == 0 then []
    else if Find(es, fs[n - 1].key) < 0
    then NewEntries(es, fs, n - 1) + [Entry(fs[n - 1].key, Copied(fs[n - 1].val))]
    else NewEntries(es, fs, n - 1)
  }

  /** No table and no array outgrows its limit in the override. */
  ghost predicate Fits(a: Datum, b: Datum)
    decreases b, 0
  {
    if a.Table? && b.Table? then
      && |a.entries| + |NewEntries(a.entries, b.entries, |b.entries|)| <= TABLE_MAX
      && forall j :: 0 <= j < |b.entries| ==> FitsAt(a.entries, b.entries[j])
    else if a.Array? && IsArrayOfTables(b) then |a.elems| + |b.elems| <= ARRAY_MAX
    else true
  }

  ghost predicate FitsAt(es: seq<Entry>, f: Entry)
    decreases f, 1
  {
    var i := Find(es, f.key);
    i >= 0 ==> Fits(es[i].val, f.val)
  }

  // ---------- datum_merge computes it

  /** The table being filled, after the first n entries of the right have been merged into it. */
  function Progress(es: seq<Entry>, fs: seq<Entry>, n: nat): seq<Entry>
    requires n <= |fs|
  {
    Overridden(es, fs[..n]) + NewEntries(es, fs, n)
  }

  lemma ProgressStart(es: seq<Entry>, fs: seq<Entry>)
    ensures Progress(es, fs, 0) == es
  {}

  /** Merging one more entry whose key the left has: the value there is still the left's own. */
  lemma {:induction false} ProgressAtOld(es: seq<Entry>, fs: seq<Entry>, n: nat)
    requires DistinctKeys(es) && DistinctKeys(fs) && n < |fs|
    requires Find(es, fs[n].key) >= 0
    ensures var i := Find(es, fs[n].key);
            var p := Progress(es, fs, n);
            && Find(p, fs[n].key) == i && p[i].val == es[i].val
            && Progress(es, fs, n + 1) == p[i := Entry(fs[n].key, Override(es[i].val, fs[n].val))]
  {
    hide Override, Copied;
    var i := Find(es, fs[n].key);
    var p, q := Progress(es, fs, n), Progress(es, fs, n + 1);
    assert forall k :: 0 <= k < |es| ==> p[k].key == es[k].key;
    assert Find(fs[..n], fs[n].key) < 0;
    forall k | 0 <= k < |es| && k != i
      ensures q[k] == p[k]
    {
      FindPrefix(fs, n, es[k].key);
    }
    assert fs[..n + 1][n] == fs[n];
    assert Find(fs[..n + 1], fs[n].key) == n;
  }

  /** Looking a key up does not change when an entry with another key is appended. */
  lemma FindPrefix(fs: seq<Entry>, n: nat, k: Text)
    requires n < |fs| && fs[n].key != k
    ensures Find(fs[..n + 1], k) == Find(fs[..n], k)
  {
    var a, b := Find(fs[..n + 1], k), Find(fs[..n], k);
    assert forall i :: 0 <= i < n ==> fs[..n + 1][i] == fs[..n][i];
    assert fs[..n + 1][n] == fs[n];
  }

  /** Merging one more entry whose key is new. */
  lemma ProgressAtNew(es: seq<Entry>, fs: seq<Entry>, n: nat)
    requires DistinctKeys(es) && DistinctKeys(fs) && n < |fs|
    requires Find(es, fs[n].key) < 0
    ensures var p := Progress(es, fs, n);
            && Find(p, fs[n].key) < 0
            && Progress(es, fs, n + 1) == p + [Entry(fs[n].key, Copied(fs[n].val))]
  {
    var p := Progress(es, fs, n);
    forall k | 0 <= k < |es|
      ensures Overridden(es, fs[..n + 1])[k] == Overridden(es, fs[..n])[k]
    {
      FindPrefix(fs, n, es[k].key);
    }
    assert Overridden(es, fs[..n + 1]) == Overridden(es, fs[..n]);
  }

  /** datum_merge computes the override, uses exactly the string bytes of the right, and
      with that much room fails exactly when a table or array would outgrow its limit. */
  lemma {:induction false} MergeExactly(a: Datum, b: Datum, top: nat, max: nat)
    requires WellFormed(a) && WellFormed(b) && top + StrBytes(b) <= max
    ensures Merge(a, b, top, max) ==
            if Fits(a, b) then Ok((Override(a, b), top + StrBytes(b))) else Err(TooLarge)
    decreases b, 0
  {
    if a.Table? && b.Table? {
      var es, fs := a.entries, b.entries;
      ProgressStart(es, fs);
      assert fs[..|fs|] == fs;
      MergeEntriesExactly(es, fs, 0, top, max);
    } else if a.Array? && IsArrayOfTables(b) {
      AppendExactly(a.elems, b.elems, top, max);
    } else {
      CopyExactly(b, top, max);
    }
  }

  ghost predicate EntriesFitFrom(es: seq<Entry>, fs: seq<Entry>, n: nat) {
    && |es| + |NewEntries(es, fs, |fs|)| <= TABLE_MAX
    && forall j :: n <= j < |fs| ==> FitsAt(es, fs[j])
  }

  /** What the merge loop returns when it stands before entry n. */
  ghost function MergeOutcome(es: seq<Entry>, fs: seq<Entry>, n: nat, top: nat): Result<(seq<Entry>, nat)>
    requires n <= |fs|
  {
    EntryBytesMono(fs, n, |fs|);
    if EntriesFitFrom(es, fs, n)
    then Ok((Progress(es, fs, |fs|), top + (EntryBytes(fs, |fs|) - EntryBytes(fs, n))))
    else Err(TooLarge)
  }

  lemma OutcomeNext(es: seq<Entry>, fs: seq<Entry>, n: nat, top: nat)
    requires n < |fs|
    ensures FitsAt(es, fs[n]) ==> MergeOutcome(es, fs, n, top) == MergeOutcome(es, fs, n + 1, top + StrBytes(fs[n].val))
    ensures !FitsAt(es, fs[n]) ==> MergeOutcome(es, fs, n, top) == Err(TooLarge)
  {}

  lemma {:induction false} MergeEntriesExactly(es: seq<Entry>, fs: seq<Entry>, n: nat, top: nat, max: nat)
    requires WellFormed(Table(NO_FLAGS, es)) && WellFormed(Table(NO_FLAGS, fs)) && n <= |fs|
    requires top + EntryBytes(fs, |fs|) <= max + EntryBytes(fs, n)
    requires |es| + |NewEntries(es, fs, n)| <= TABLE_MAX
    ensures MergeEntries(Progress(es, fs, n), fs, n, top, max) == MergeOutcome(es, fs, n, top)
    decreases fs, |fs| - n, 1
  {
    if n == |fs| {
      OutcomeLast(es, fs, top, max);
    } else {
      OutcomeNext(es, fs, n, top);
      EntryBytesMono(fs, n + 1, |fs|);
      NextBytes(fs, n);
      NewFits(es, fs, n);
      hide MergeEntries, MergeOutcome, StrBytes, EntryBytes, Progress, WellFormed, NewEntries, FitsAt;
      if Find(es, fs[n].key) >= 0 {
        MergeOldExactly(es, fs, n, top, max);
      } else {
        MergeNewExactly(es, fs, n, top, max);
      }
    }
  }

  /** No entry is left. */
  lemma {:induction false} OutcomeLast(es: seq<Entry>, fs: seq<Entry>, top: nat, max: nat)
    requires |es| + |NewEntries(es, fs, |fs|)| <= TABLE_MAX
    ensures MergeEntries(Progress(es, fs, |fs|), fs, |fs|, top, max) == MergeOutcome(es, fs, |fs|, top)
  {
    hide Progress, EntryBytes;
  }

  lemma {:induction false} NextBytes(fs: seq<Entry>, n: nat)
    requires n < |fs|
    ensures EntryBytes(fs, n + 1) == EntryBytes(fs, n) + StrBytes(fs[n].val)
  {
    hide StrBytes;
  }

  /** A new key always fits as an entry. */
  lemma {:induction false} NewFits(es: seq<Entry>, fs: seq<Entry>, n: nat)
    requires n < |fs|
    ensures Find(es, fs[n].key) < 0 ==> FitsAt(es, fs[n])
  {}

  lemma {:induction false} MergeOldExactly(es: seq<Entry>, fs: seq<Entry>, n: nat, top: nat, max: nat)
    requires WellFormed(Table(NO_FLAGS, es)) && WellFormed(Table(NO_FLAGS, fs)) && n < |fs|
    requires Find(es, fs[n].key) >= 0
    requires top + EntryBytes(fs, |fs|) <= max + EntryBytes(fs, n) && top + StrBytes(fs[n].val) <= max
    requires EntryBytes(fs, n + 1) == EntryBytes(fs, n) + StrBytes(fs[n].val)
    requires |es| + |NewEntries(es, fs, n)| <= TABLE_MAX
    ensures MergeEntries(Progress(es, fs, n), fs, n, top, max) ==
            if FitsAt(es, fs[n]) then MergeOutcome(es, fs, n + 1, top + StrBytes(fs[n].val)) else Err(TooLarge)
    decreases fs, |fs| - n, 0
  {
    hide MergeEntries, StrBytes, EntryBytes, Merge, Progress, Override;
    var v := es[Find(es, fs[n].key)].val;
    MergeExactly(v, fs[n].val, top, max);
    MergeOldNext(es, fs, n, top, max);
    if Fits(v, fs[n].val) {
      MergeEntriesExactly(es, fs, n + 1, top + StrBytes(fs[n].val), max);
    }
  }

  lemma {:induction false} MergeNewExactly(es: seq<Entry>, fs: seq<Entry>, n: nat, top: nat, max: nat)
    requires WellFormed(Table(NO_FLAGS, es)) && WellFormed(Table(NO_FLAGS, fs)) && n < |fs|
    requires Find(es, fs[n].key) < 0
    requires top + EntryBytes(fs, |fs|) <= max + EntryBytes(fs, n) && top + StrBytes(fs[n].val) <= max
    requires EntryBytes(fs, n + 1) == EntryBytes(fs, n) + StrBytes(fs[n].val)
    requires |es| + |NewEntries(es, fs, n)| <= TABLE_MAX
    ensures MergeEntries(Progress(es, fs, n), fs, n, top, max) ==
            MergeOutcome(es, fs, n + 1, top + StrBytes(fs[n].val))
    decreases fs, |fs| - n, 0
  {
    hide MergeEntries, MergeOutcome, StrBytes, EntryBytes, Copied, Copy, Progress, Override, WellFormed, DistinctKeys, NewEntries;
    EntriesWell(es, 0);
    EntriesWell(fs, n);
    CopyExactly(fs[n].val, top, max);
    NewEntriesNext(es, fs, n);
    MergeNewNext(es, fs, n, top, max);
    if |es| + |NewEntries(es, fs, n)| < TABLE_MAX {
      MergeEntriesExactly(es, fs, n + 1, top + StrBytes(fs[n].val), max);
    } else {
      OutcomeFull(es, fs, n + 1, top + StrBytes(fs[n].val));
    }
  }

  lemma {:induction false} EntriesWell(fs: seq<Entry>, n: nat)
    requires WellFormed(Table(NO_FLAGS, fs))
    ensures DistinctKeys(fs) && (n < |fs| ==> WellFormed(fs[n].val))
  {}

  lemma {:induction false} NewEntriesNext(es: seq<Entry>, fs: seq<Entry>, n: nat)
    requires n < |fs| && Find(es, fs[n].key) < 0
    ensures |NewEntries(es, fs, n + 1)| == |NewEntries(es, fs, n)| + 1
  {}

  /** More new entries than there is room for. */
  lemma {:induction false} OutcomeFull(es: seq<Entry>, fs: seq<Entry>, n: nat, top: nat)
    requires n <= |fs| && |es| + |NewEntries(es, fs, n)| > TABLE_MAX
    ensures MergeOutcome(es, fs, n, top) == Err(TooLarge)
  {
    hide Progress, EntryBytes;
    NewEntriesMono(es, fs, n, |fs|);
  }

  lemma {:induction false} NewEntriesMono(es: seq<Entry>, fs: seq<Entry>, n: nat, m: nat)
    requires n <= m <= |fs|
    ensures |NewEntries(es, fs, n)| <= |NewEntries(es, fs, m)|
  {
    if n < m { NewEntriesMono(es, fs, n, m - 1); }
  }

  /** One round of the merge loop at a key the left has. */
  lemma MergeOldNext(es: seq<Entry>, fs: seq<Entry>, n: nat, top: nat, max: nat)
    requires WellFormed(Table(NO_FLAGS, es)) && DistinctKeys(fs) && n < |fs| && Find(es, fs[n].key) >= 0
    requires var i := Find(es, fs[n].key);
             var m := Merge(es[i].val, fs[n].val, top, max);
             m.Ok? ==> m.value.0 == Override(es[i].val, fs[n].val)
    ensures MergeEntries(Progress(es, fs, n), fs, n, top, max) ==
            match Merge(es[Find(es, fs[n].key)].val, fs[n].val, top, max)
            case Ok((_, after)) => MergeEntries(Progress(es, fs, n + 1), fs, n + 1, after, max)
            case Err(e) => Err(e)
  {
    ProgressAtOld(es, fs, n);
    var i := Find(es, fs[n].key);
    assert WellFormed(es[i].val);
  }

  /** One round of the merge loop at a new key. */
  lemma MergeNewNext(es: seq<Entry>, fs: seq<Entry>, n: nat, top: nat, max: nat)
    requires DistinctKeys(es) && DistinctKeys(fs) && n < |fs| && Find(es, fs[n].key) < 0
    requires Copy(fs[n].val, top, max).Ok? && Copy(fs[n].val, top, max).value.0 == Copied(fs[n].val)
    ensures MergeEntries(Progress(es, fs, n), fs, n, top, max) ==
            if |es| + |NewEntries(es, fs, n)| >= TABLE_MAX then Err(TooLarge)
            else MergeEntries(Progress(es, fs, n + 1), fs, n + 1, Copy(fs[n].val, top, max).value.1, max)
  {
    ProgressAtNew(es, fs, n);
    var p := Progress(es, fs, n);
    var e := Entry(fs[n].key, Copied(fs[n].val));
    assert (p + [Entry(fs[n].key, Leaf(NO_FLAGS, Unknown))])[|p| := e] == p + [e];
  }

  lemma {:induction false} AppendExactly(ys: seq<Datum>, xs: seq<Datum>, top: nat, max: nat)
    requires forall k :: 0 <= k < |xs| ==> WellFormed(xs[k])
    requires |ys| <= ARRAY_MAX && top + ElemBytes(xs, |xs|) <= max
    ensures CopyElems(xs, 0, ys, top, max) ==
            if |ys| + |xs| <= ARRAY_MAX then Ok((ys + CopiedElems(xs), top + ElemBytes(xs, |xs|)))
            else Err(TooLarge)
  {
    if |ys| + |xs| <= ARRAY_MAX {
      CopyElemsExactly(xs, 0, ys, top, max);
      assert CopiedElems(xs)[0..] == CopiedElems(xs);
    } else {
      AppendTooLarge(ys, xs, 0, top, max);
    }
  }

  lemma {:induction false} AppendTooLarge(ys: seq<Datum>, xs: seq<Datum>, i: nat, top: nat, max: nat)
    requires forall k :: 0 <= k < |xs| ==> WellFormed(xs[k])
    requires i <= |xs| && |ys| <= ARRAY_MAX < |ys| + |xs| - i
    requires top + ElemBytes(xs, |xs|) - ElemBytes(xs, i) <= max
    ensures CopyElems(xs, i, ys, top, max) == Err(TooLarge)
    decreases |xs| - i
  {
    if |ys| < ARRAY_MAX {
      ElemBytesMono(xs, i + 1, |xs|);
      CopyExactly(xs[i], top, max);
      AppendTooLarge(ys + [Copied(xs[i])], xs, i + 1, top + StrBytes(xs[i]), max);
    }
  }
}
