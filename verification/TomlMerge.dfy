/** toml_merge: its result, its pool, and what it means path by path. */
module TomlMerge {
  import opened Basics
  import opened Datum
  import opened StringPool
  import opened Merging
  import opened MergeLaws
  import opened Overriding

  // ---------- the result of an override is well formed and needs no more string bytes

  lemma {:induction false} NewEntriesDistinct(es: seq<Entry>, fs: seq<Entry>, n: nat)
    requires DistinctKeys(fs) && n <= |fs|
    ensures DistinctKeys(NewEntries(es, fs, n))
  {
    if n > 0 {
      hide DistinctKeys, Copied;
      NewEntriesDistinct(es, fs, n - 1);
      if Find(es, fs[n - 1].key) < 0 {
        NewKeyIsNew(es, fs, n - 1);
      }
    } else {
      NoneDistinct();
    }
  }

  lemma {:induction false} NoneDistinct()
    ensures DistinctKeys([])
  {}

  lemma {:induction false} NewKeyIsNew(es: seq<Entry>, fs: seq<Entry>, n: nat)
    requires DistinctKeys(fs) && n < |fs| && DistinctKeys(NewEntries(es, fs, n))
    ensures forall v: Datum :: DistinctKeys(NewEntries(es, fs, n) + [Entry(fs[n].key, v)])
  {
    hide NewEntries;
    var r := NewEntries(es, fs, n);
    forall i | 0 <= i < |r| ensures r[i].key != fs[n].key {
      var j :| 0 <= j < n && fs[j].key == r[i].key;
    }
  }

  lemma {:induction false} NewEntriesWellFormed(es: seq<Entry>, fs: seq<Entry>, n: nat)
    requires n <= |fs| && forall i :: 0 <= i < |fs| ==> WellFormed(fs[i].val)
    ensures forall e :: e in NewEntries(es, fs, n) ==> WellFormed(e.val)
  {
    if n > 0 {
      NewEntriesWellFormed(es, fs, n - 1);
      CopiedWellFormed(fs[n - 1].val);
    }
  }

  lemma {:induction false} OverrideWellFormed(a: Datum, b: Datum)
    requires WellFormed(a) && WellFormed(b) && Fits(a, b)
    ensures WellFormed(Override(a, b))
    decreases b
  {
    if a.Table? && b.Table? {
      OverrideTableWellFormed(a, b);
    } else if a.Array? && IsArrayOfTables(b) {
      forall i | 0 <= i < |b.elems| ensures WellFormed(CopiedElems(b.elems)[i]) {
        CopiedWellFormed(b.elems[i]);
      }
    } else {
      CopiedWellFormed(b);
    }
  }

  lemma {:induction false} OverrideTableWellFormed(a: Datum, b: Datum)
    requires WellFormed(a) && WellFormed(b) && Fits(a, b) && a.Table? && b.Table?
    ensures WellFormed(Override(a, b))
    decreases b, 0
  {
    var es, fs := a.entries, b.entries;
    var r := Overridden(es, fs);
    forall i | 0 <= i < |es| ensures r[i].key == es[i].key && WellFormed(r[i].val) {
      var j := Find(fs, es[i].key);
      if j >= 0 {
        FindOwn(es, i);
        assert FitsAt(es, fs[j]);
        OverrideWellFormed(es[i].val, fs[j].val);
      }
    }
    NewEntriesDistinct(es, fs, |fs|);
    NewEntriesWellFormed(es, fs, |fs|);
    assert DistinctKeys(r + NewEntries(es, fs, |fs|));
  }

  lemma FindOwn(es: seq<Entry>, i: nat)
    requires DistinctKeys(es) && i < |es|
    ensures Find(es, es[i].key) == i
  {}

  lemma {:induction false} OverrideBytes(a: Datum, b: Datum)
    requires WellFormed(a) && WellFormed(b)
    ensures StrBytes(Override(a, b)) <= StrBytes(a) + StrBytes(b)
    decreases b, 0
  {
    if a.Table? && b.Table? {
      var es, fs := a.entries, b.entries;
      forall f | f in fs ensures OverrideAtFits(es, f) {
        var i := Find(es, f.key);
        if i >= 0 {
          OverrideBytes(es[i].val, f.val);
        }
      }
      ProgressBytes(es, fs, |fs|);
      assert fs[..|fs|] == fs;
    } else if a.Array? && IsArrayOfTables(b) {
      ConcatBytes(a.elems, CopiedElems(b.elems), |b.elems|);
      CopiedElemBytes(b.elems, |b.elems|);
    } else {
      CopiedBytes(b);
    }
  }

  lemma {:induction false} ConcatBytes(xs: seq<Datum>, ys: seq<Datum>, n: nat)
    requires n <= |ys|
    ensures ElemBytes(xs + ys, |xs| + n) == ElemBytes(xs, |xs|) + ElemBytes(ys, n)
  {
    if n == 0 {
      assert (xs + ys)[..|xs|] == xs == xs[..|xs|];
      ElemBytesSame(xs + ys, xs, |xs|);
    } else {
      ConcatBytes(xs, ys, n - 1);
    }
  }

  ghost function ProgressTotal(es: seq<Entry>, fs: seq<Entry>, n: nat): nat
    requires n <= |fs|
  {
    var p := Progress(es, fs, n);
    EntryBytes(p, |p|)
  }

  lemma ProgressTotalStart(es: seq<Entry>, fs: seq<Entry>)
    ensures ProgressTotal(es, fs, 0) == EntryBytes(es, |es|)
  {
    ProgressStart(es, fs);
  }

  ghost predicate OverrideAtFits(es: seq<Entry>, f: Entry) {
    var i := Find(es, f.key);
    i >= 0 ==> StrBytes(Override(es[i].val, f.val)) <= StrBytes(es[i].val) + StrBytes(f.val)
  }

  lemma {:induction false} ProgressBytes(es: seq<Entry>, fs: seq<Entry>, n: nat)
    requires DistinctKeys(es) && DistinctKeys(fs) && n <= |fs|
    requires forall f :: f in fs ==> OverrideAtFits(es, f)
    ensures ProgressTotal(es, fs, n) <= EntryBytes(es, |es|) + EntryBytes(fs, n)
  {
    hide ProgressTotal, EntryBytes, OverrideAtFits;
    if n == 0 {
      ProgressTotalStart(es, fs);
    } else {
      ProgressBytes(es, fs, n - 1);
      StepBytes(es, fs, n);
    }
  }

  lemma StepBytes(es: seq<Entry>, fs: seq<Entry>, n: nat)
    requires DistinctKeys(es) && DistinctKeys(fs) && 0 < n <= |fs| && OverrideAtFits(es, fs[n - 1])
    ensures ProgressTotal(es, fs, n) + EntryBytes(fs, n - 1) <= ProgressTotal(es, fs, n - 1) + EntryBytes(fs, n)
  {
    if Find(es, fs[n - 1].key) >= 0 {
      OldBytes(es, fs, n - 1);
    } else {
      NewBytes(es, fs, n - 1);
    }
  }

  lemma OldBytes(es: seq<Entry>, fs: seq<Entry>, n: nat)
    requires DistinctKeys(es) && DistinctKeys(fs) && n < |fs| && Find(es, fs[n].key) >= 0
    requires var v := es[Find(es, fs[n].key)].val;
             StrBytes(Override(v, fs[n].val)) <= StrBytes(v) + StrBytes(fs[n].val)
    ensures var p, q := Progress(es, fs, n), Progress(es, fs, n + 1);
            EntryBytes(q, |q|) <= EntryBytes(p, |p|) + StrBytes(fs[n].val)
  {
    hide StrBytes, EntryBytes, Override;
    ProgressAtOld(es, fs, n);
    var i := Find(es, fs[n].key);
    var p := Progress(es, fs, n);
    EntryBytesUpdate(p, i, Entry(fs[n].key, Override(es[i].val, fs[n].val)), |p|);
  }

  lemma NewBytes(es: seq<Entry>, fs: seq<Entry>, n: nat)
    requires DistinctKeys(es) && DistinctKeys(fs) && n < |fs| && Find(es, fs[n].key) < 0
    ensures var p, q := Progress(es, fs, n), Progress(es, fs, n + 1);
            EntryBytes(q, |q|) == EntryBytes(p, |p|) + StrBytes(fs[n].val)
  {
    hide StrBytes, EntryBytes, Copied;
    ProgressAtNew(es, fs, n);
    CopiedBytes(fs[n].val);
    EntryBytesAppend(Progress(es, fs, n), Entry(fs[n].key, Copied(fs[n].val)));
  }

  // ---------- override by path

  /** What a path of keys reaches, descending through tables only. */
  function Seek(d: Datum, path: seq<Text>): Option<Datum> {
    if path == [] then Some(d)
    else if !d.Table? || Find(d.entries, path[0]) < 0 then None
    else Seek(d.entries[Find(d.entries, path[0])].val, path[1..])
  }

  /** The path leaves the tree at a table that lacks its next key. */
  predicate Untouched(d: Datum, path: seq<Text>) {
    path != [] && d.Table? &&
    var j := Find(d.entries, path[0]);
    j < 0 || Untouched(d.entries[j].val, path[1..])
  }

  lemma {:induction false} SeekCopied(d: Datum, path: seq<Text>)
    ensures Seek(Copied(d), path) ==
            match Seek(d, path) case Some(v) => Some(Copied(v)) case None => None
  {
    if path != [] && d.Table? {
      var j := Find(d.entries, path[0]);
      FindCopied(d.entries, path[0]);
      if j >= 0 {
        SeekCopied(d.entries[j].val, path[1..]);
      }
    }
  }

  lemma FindCopied(es: seq<Entry>, k: Text)
    ensures Find(CopiedEntries(es), k) == Find(es, k)
  {
    var i, j := Find(CopiedEntries(es), k), Find(es, k);
    assert forall x :: 0 <= x < |es| ==> CopiedEntries(es)[x].key == es[x].key;
  }

  /** Where the key of a merged table is found, and what is found there. */
  lemma FindOverridden(es: seq<Entry>, fs: seq<Entry>, k: Text)
    requires DistinctKeys(es) && DistinctKeys(fs)
    ensures var r := OverrideEntries(es, fs);
            var h, i, j := Find(r, k), Find(es, k), Find(fs, k);
            && (h >= 0 <==> i >= 0 || j >= 0)
            && (i >= 0 && j < 0 ==> r[h].val == es[i].val)
            && (i >= 0 && j >= 0 ==> r[h].val == Override(es[i].val, fs[j].val))
            && (i < 0 && j >= 0 ==> r[h].val == Copied(fs[j].val))
  {
    var r := OverrideEntries(es, fs);
    var i, j := Find(es, k), Find(fs, k);
    if i >= 0 {
      assert r[i] == Overridden(es, fs)[i];
      FindOverriddenOld(es, fs, k);
    } else {
      FindOverriddenNew(es, fs, k);
    }
  }

  lemma FindOverriddenOld(es: seq<Entry>, fs: seq<Entry>, k: Text)
    requires Find(es, k) >= 0
    ensures Find(OverrideEntries(es, fs), k) == Find(es, k)
  {
    var r := OverrideEntries(es, fs);
    assert forall x :: 0 <= x < |es| ==> r[x].key == Overridden(es, fs)[x].key == es[x].key;
  }

  lemma FindInConcat(es: seq<Entry>, fs: seq<Entry>, k: Text)
    requires Find(es, k) < 0
    ensures Find(es + fs, k) == if Find(fs, k) < 0 then -1 else |es| + Find(fs, k)
  {
    var h, j := Find(es + fs, k), Find(fs, k);
    assert forall x :: 0 <= x < |es| ==> (es + fs)[x] == es[x];
    assert forall x :: 0 <= x < |fs| ==> (es + fs)[|es| + x] == fs[x];
    if h >= 0 {
      assert fs[h - |es|].key == k;
    }
    if j >= 0 {
      assert (es + fs)[|es| + j].key == k;
    }
  }

  lemma FindOverriddenNew(es: seq<Entry>, fs: seq<Entry>, k: Text)
    requires DistinctKeys(fs) && Find(es, k) < 0
    ensures var r := OverrideEntries(es, fs);
            var h, j := Find(r, k), Find(fs, k);
            (h >= 0 <==> j >= 0) && (j >= 0 ==> r[h].val == Copied(fs[j].val))
  {
    hide Copied, Override;
    assert forall x :: 0 <= x < |es| ==> Overridden(es, fs)[x].key == es[x].key;
    FindInConcat(Overridden(es, fs), NewEntries(es, fs, |fs|), k);
    NewEntriesFind(es, fs, |fs|, k);
    assert fs[..|fs|] == fs;
  }

  /** r holds under k a copy of what fs holds under k. */
  ghost predicate FoundAlike(r: seq<Entry>, fs: seq<Entry>, k: Text) {
    var h, j := Find(r, k), Find(fs, k);
    (h >= 0 <==> j >= 0) && (j >= 0 ==> r[h].val == Copied(fs[j].val))
  }

  lemma {:induction false} NewEntriesFind(es: seq<Entry>, fs: seq<Entry>, n: nat, k: Text)
    requires DistinctKeys(fs) && n <= |fs| && Find(es, k) < 0
    ensures FoundAlike(NewEntries(es, fs, n), fs[..n], k)
  {
    if n > 0 {
      hide FoundAlike, Copied;
      NewEntriesFind(es, fs, n - 1, k);
      assert fs[..n] == fs[..n - 1] + [fs[n - 1]];
      DistinctPrefix(fs, n);
      AlikeNext(NewEntries(es, fs, n - 1), fs[..n - 1], fs[n - 1], k);
      if Find(es, fs[n - 1].key) >= 0 {
        AlikeSkips(NewEntries(es, fs, n - 1), fs[..n - 1], fs[n - 1], k);
      }
    } else {
      NothingAlike(k);
    }
  }

  lemma {:induction false} NothingAlike(k: Text)
    ensures FoundAlike([], [], k)
  {}

  lemma {:induction false} DistinctPrefix(fs: seq<Entry>, n: nat)
    requires DistinctKeys(fs) && n <= |fs|
    ensures DistinctKeys(fs[..n])
  {}

  /** An entry of fs with another key makes no difference. */
  lemma {:induction false} AlikeSkips(r: seq<Entry>, fs: seq<Entry>, f: Entry, k: Text)
    requires FoundAlike(r, fs, k) && f.key != k
    ensures FoundAlike(r, fs + [f], k)
  {
    hide Copied;
    FindSkipsLast(fs, f, k);
  }

  lemma AlikeNext(r: seq<Entry>, fs: seq<Entry>, f: Entry, k: Text)
    requires FoundAlike(r, fs, k) && DistinctKeys(fs + [f])
    ensures FoundAlike(r + [Entry(f.key, Copied(f.val))], fs + [f], k)
  {
    hide Copied;
    var e := Entry(f.key, Copied(f.val));
    if f.key == k {
      assert (fs + [f])[|fs|] == f;
      assert Find(fs, k) < 0 by {
        assert forall x :: 0 <= x < |fs| ==> (fs + [f])[x] == fs[x];
      }
      FindInConcat(fs, [f], k);
      FindInConcat(r, [e], k);
    } else {
      FindSkipsLast(r, e, k);
      FindSkipsLast(fs, f, k);
    }
  }

  lemma FindSkipsLast(es: seq<Entry>, e: Entry, k: Text)
    requires e.key != k
    ensures Find(es + [e], k) == Find(es, k)
  {
    var i, j := Find(es + [e], k), Find(es, k);
    assert forall x :: 0 <= x < |es| ==> (es + [e])[x] == es[x];
  }

  /** Every path, in exactly one of three cases: the right reaches it, the right leaves it
      alone, or something on the right that is not a table cuts it off. */
  lemma {:induction false} OverrideByPath(a: Datum, b: Datum, path: seq<Text>)
    requires WellFormed(a) && WellFormed(b)
    ensures Seek(Override(a, b), path) ==
            match Seek(b, path)
            case Some(v) => Some(match Seek(a, path) case Some(u) => Override(u, v) case None => Copied(v))
            case None => if Untouched(b, path) then Seek(a, path) else None
  {
    if path == [] {
    } else if a.Table? && b.Table? {
      var es, fs := a.entries, b.entries;
      FindOverridden(es, fs, path[0]);
      var i, j := Find(es, path[0]), Find(fs, path[0]);
      if j >= 0 {
        if i >= 0 {
          OverrideByPath(es[i].val, fs[j].val, path[1..]);
        } else {
          SeekCopied(fs[j].val, path[1..]);
        }
      }
    } else {
      SeekCopied(b, path);
    }
  }

  // ---------- toml_merge

  /** pool_create(n). */
  function PoolSize(n: nat): nat { if n == 0 then 100 else n }

  /** toml_merge of two parse results: the merged tree and the top of its pool. */
  function MergeResults(t1: Datum, top1: nat, t2: Datum, top2: nat): Result<(Datum, nat)> {
    var max := PoolSize(top1 + top2);
    var (copy, top) :- Copy(t1, 0, max);
    Merge(copy, t2, top, max)
  }

  /** toml_result_t. */
  datatype TomlResult = Failed(error: Error) | Parsed(toptab: Datum, pool: Pool)

  method Merged(r1: TomlResult, r2: TomlResult) returns (r: TomlResult)
    requires r1.Parsed? ==> r1.pool.Valid()
    requires r2.Parsed? ==> r2.pool.Valid()
    ensures r.Parsed? ==> fresh(r.pool) && fresh(r.pool.buf) && r.pool.Valid()
    ensures r1.Parsed? && r2.Parsed? ==>
              match MergeResults(r1.toptab, r1.pool.top, r2.toptab, r2.pool.top)
              case Ok((t, top)) => r.Parsed? && r.toptab == t && r.pool.top == top
              case Err(e) => r == Failed(e)
    ensures r1.Failed? || r2.Failed? ==> r.Failed?
  {
    if r1.Failed? || r2.Failed? {
      return Failed(Internal);
    }
    var pool := new Pool(r1.pool.top + r2.pool.top);
    var copy := DatumCopy(r1.toptab, pool);
    if copy.Err? {
      return Failed(copy.error);
    }
    var merged := DatumMerge(copy.value, r2.toptab, pool);
    if merged.Err? {
      return Failed(merged.error);
    }
    return Parsed(merged.value, pool);
  }

  lemma {:induction false} NewEntriesCopied(es: seq<Entry>, fs: seq<Entry>, n: nat)
    requires n <= |fs|
    ensures NewEntries(CopiedEntries(es), fs, n) == NewEntries(es, fs, n)
  {
    if n > 0 {
      NewEntriesCopied(es, fs, n - 1);
      FindCopied(es, fs[n - 1].key);
    }
  }

  lemma {:induction false} FitsCopied(a: Datum, b: Datum)
    ensures Fits(Copied(a), b) <==> Fits(a, b)
    decreases b
  {
    if a.Table? && b.Table? {
      NewEntriesCopied(a.entries, b.entries, |b.entries|);
      forall j | 0 <= j < |b.entries|
        ensures FitsAt(CopiedEntries(a.entries), b.entries[j]) <==> FitsAt(a.entries, b.entries[j])
      {
        var f := b.entries[j];
        FindCopied(a.entries, f.key);
        var i := Find(a.entries, f.key);
        if i >= 0 {
          FitsCopied(a.entries[i].val, f.val);
        }
      }
    }
  }

  /** What a finished parse or merge guarantees of its tree and its pool. */
  ghost predicate Finished(t: Datum, top: nat) {
    t.Table? && WellFormed(t) && StrBytes(t) <= top
  }

  /** toml_merge fails exactly when a table or array would outgrow its limit, never for want
      of pool; otherwise it returns the override, each string has been copied once, and the
      result is again fit to be merged. */
  lemma MergeOfFinished(t1: Datum, top1: nat, t2: Datum, top2: nat)
    requires Finished(t1, top1) && Finished(t2, top2)
    ensures var r := MergeResults(t1, top1, t2, top2);
            && (r == if Fits(t1, t2)
                     then Ok((Override(Copied(t1), t2), StrBytes(t1) + StrBytes(t2)))
                     else Err(TooLarge))
            && (r.Ok? ==> r.value.1 <= PoolSize(top1 + top2) && Finished(r.value.0, r.value.1))
  {
    hide Copy, Merge, Override, Fits, StrBytes, WellFormed;
    var max := PoolSize(top1 + top2);
    var c := Copied(t1);
    CopyExactly(t1, 0, max);
    CopiedWellFormed(t1);
    CopiedBytes(t1);
    FitsCopied(t1, t2);
    MergeExactly(c, t2, StrBytes(t1), max);
    OverrideBytes(c, t2);
    if Fits(t1, t2) {
      OverrideWellFormed(c, t2);
      OverrideIsTable(c, t2);
    }
  }

  lemma OverrideIsTable(a: Datum, b: Datum)
    requires a.Table? && b.Table?
    ensures Override(a, b).Table?
  {}

  lemma {:induction false} SeekWellFormed(d: Datum, path: seq<Text>)
    requires WellFormed(d) && Seek(d, path).Some?
    ensures WellFormed(Seek(d, path).value)
  {
    if path != [] {
      SeekWellFormed(d.entries[Find(d.entries, path[0])].val, path[1..]);
    }
  }

  lemma {:induction false} UntouchedMisses(d: Datum, path: seq<Text>)
    ensures Untouched(d, path) ==> Seek(d, path).None?
  {
    if Untouched(d, path) && Find(d.entries, path[0]) >= 0 {
      UntouchedMisses(d.entries[Find(d.entries, path[0])].val, path[1..]);
    }
  }

  lemma CopiedEquivBack(d: Datum)
    requires WellFormed(d)
    ensures Equiv(Copied(d), d)
  {
    WellFormedNoUnknown(d);
    CopiedEquiv(d);
    EquivSymmetric(d, Copied(d));
  }

  /** Appending copies of tables to the copy of an array, up to equivalence. */
  lemma {:induction false} AppendEquiv(x: Datum, v: Datum)
    requires WellFormed(x) && WellFormed(v) && x.Array? && IsArrayOfTables(v)
    ensures Equiv(Override(Copied(x), v), x.(elems := x.elems + v.elems))
  {
    var ys, zs := CopiedElems(x.elems) + CopiedElems(v.elems), x.elems + v.elems;
    forall i | 0 <= i < |zs| ensures Equiv(ys[i], zs[i]) {
      hide Override, Equiv, Copied;
      CopiedEquivBack(zs[i]);
      assert ys[i] == Copied(zs[i]);
    }
  }

  /** The value that wins at a path the right reaches: see MergeByPath. */
  function Winner(u: Option<Datum>, v: Datum): Datum {
    match u case Some(x) => Override(Copied(x), v) case None => Copied(v)
  }

  lemma WinnerEquiv(u: Option<Datum>, v: Datum)
    requires WellFormed(v) && (u.Some? ==> WellFormed(u.value))
    ensures !v.Table? && !IsArrayOfTables(v) ==> Equiv(Winner(u, v), v)
    ensures u.None? ==> Equiv(Winner(u, v), v)
    ensures IsArrayOfTables(v) ==>
              Equiv(Winner(u, v), if u.Some? && u.value.Array? then u.value.(elems := u.value.elems + v.elems) else v)
  {
    hide Equiv, WellFormed;
    CopiedEquivBack(v);
    if u.Some? && u.value.Array? && IsArrayOfTables(v) {
      AppendEquiv(u.value, v);
    }
  }

  /** toml_merge, path by path, up to toml_equiv. */
  lemma MergeByPath(t1: Datum, top1: nat, t2: Datum, top2: nat, path: seq<Text>)
    requires Finished(t1, top1) && Finished(t2, top2) && Fits(t1, t2)
    ensures MergeResults(t1, top1, t2, top2).Ok?
    ensures var t := MergeResults(t1, top1, t2, top2).value.0;
            var u, v, w := Seek(t1, path), Seek(t2, path), Seek(t, path);
            // a leaf or a plain array on the right wins
            && (v.Some? && !v.value.Table? && !IsArrayOfTables(v.value) ==>
                  w.Some? && Equiv(w.value, v.value))
            // an array of tables on the right is appended to an array, and replaces anything else
            && (v.Some? && IsArrayOfTables(v.value) ==>
                  w.Some? && Equiv(w.value, if u.Some? && u.value.Array?
                                            then u.value.(elems := u.value.elems + v.value.elems) else v.value))
            // a path that is new on the left gets what the right has
            && (v.Some? && u.None? ==> w.Some? && Equiv(w.value, v.value))
            // what the right leaves alone stays
            && (Untouched(t2, path) ==>
                  match u case Some(x) => w.Some? && Equiv(w.value, x) case None => w.None?)
            // and nothing lies below a value of the right that is not a table
            && (v.None? && !Untouched(t2, path) ==> w.None?)
  {
    hide Seek, Untouched, WellFormed, StrBytes, MergeResults, Fits, Override, Copied, Equiv;
    MergeOfFinished(t1, top1, t2, top2);
    CopiedWellFormed(t1);
    OverrideByPath(Copied(t1), t2, path);
    SeekCopied(t1, path);
    UntouchedMisses(t2, path);
    var u, v := Seek(t1, path), Seek(t2, path);
    if u.Some? {
      SeekWellFormed(t1, path);
      CopiedEquivBack(u.value);
    }
    if v.Some? {
      SeekWellFormed(t2, path);
      WinnerEquiv(u, v.value);
    }
  }

  // ---------- order of keys, and the empty table

  /** The keys of the left come first, in order; the new keys of the right follow in theirs. */
  lemma KeyOrder(es: seq<Entry>, fs: seq<Entry>)
    ensures var r := OverrideEntries(es, fs);
            && |r| >= |es| && (forall i :: 0 <= i < |es| ==> r[i].key == es[i].key)
            && Keys(r[|es|..]) == NewKeys(es, fs, |fs|)
  {
    var r := OverrideEntries(es, fs);
    assert r[|es|..] == NewEntries(es, fs, |fs|);
    NewKeysOf(es, fs, |fs|);
  }

  function Keys(es: seq<Entry>): (ks: seq<Text>)
    ensures |ks| == |es|
  {
    seq(|es|, i requires 0 <= i < |es| => es[i].key)
  }

  /** The keys of fs that es lacks, in order. */
  function NewKeys(es: seq<Entry>, fs: seq<Entry>, n: nat): seq<Text>
    requires n <= |fs|
  {
    if n == 0 then []
    else if fs[n - 1].key in Keys(es) then NewKeys(es, fs, n - 1)
    else NewKeys(es, fs, n - 1) + [fs[n - 1].key]
  }

  lemma {:induction false} NewKeysOf(es: seq<Entry>, fs: seq<Entry>, n: nat)
    requires n <= |fs|
    ensures Keys(NewEntries(es, fs, n)) == NewKeys(es, fs, n)
  {
    hide Keys, Find, Copied;
    if n > 0 {
      NewKeysOf(es, fs, n - 1);
      KeyIn(es, fs[n - 1].key);
      KeysAppend(NewEntries(es, fs, n - 1), Entry(fs[n - 1].key, Copied(fs[n - 1].val)));
    }
  }

  lemma KeysAppend(es: seq<Entry>, e: Entry)
    ensures Keys(es + [e]) == Keys(es) + [e.key]
  {}

  lemma KeyIn(es: seq<Entry>, k: Text)
    ensures k in Keys(es) <==> Find(es, k) >= 0
  {
    var j := Find(es, k);
    if j >= 0 {
      assert Keys(es)[j] == k;
    }
  }

  /** The empty table is a right and a left identity of toml_merge, up to toml_equiv. */
  lemma EmptyIsIdentity(t: Datum, top: nat, top0: nat)
    requires Finished(t, top)
    ensures var r := MergeResults(t, top, EMPTY_TABLE, top0); r.Ok? && Equiv(r.value.0, t)
    ensures var r := MergeResults(EMPTY_TABLE, top0, t, top); r.Ok? && Equiv(r.value.0, t)
  {
    hide MergeResults, Override, Copied, Equiv, Fits, WellFormed;
    EmptyFinished(top0);
    CopiedEquivBack(t);
    MergeOfFinished(t, top, EMPTY_TABLE, top0);
    MergeOfFinished(EMPTY_TABLE, top0, t, top);
    RightEmpty(t);
    LeftEmpty(t);
  }

  lemma EmptyFinished(top: nat)
    ensures Finished(EMPTY_TABLE, top)
  {}

  lemma RightEmpty(t: Datum)
    requires WellFormed(t) && t.Table?
    ensures Fits(t, EMPTY_TABLE) && Override(Copied(t), EMPTY_TABLE) == Copied(t)
  {
    NothingNew(t.entries);
  }

  lemma LeftEmpty(t: Datum)
    requires WellFormed(t) && t.Table?
    ensures Fits(EMPTY_TABLE, t) && Override(Copied(EMPTY_TABLE), t) == Copied(t)
  {
    AllNew(t.entries, |t.entries|);
    assert CopiedEntries([]) == [] && Overridden([], t.entries) == [];
    assert CopiedEntries(t.entries)[..|t.entries|] == CopiedEntries(t.entries);
  }

  lemma NothingNew(es: seq<Entry>)
    ensures OverrideEntries(CopiedEntries(es), []) == CopiedEntries(es)
    ensures Fits(Table(NO_FLAGS, es), EMPTY_TABLE) <==> |es| <= TABLE_MAX
  {
    NothingOver(CopiedEntries(es));
    NothingFits(es);
  }

  lemma NothingOver(es: seq<Entry>)
    ensures OverrideEntries(es, []) == es
  {
    hide Override;
    assert NewEntries(es, [], 0) == [];
    assert Overridden(es, []) == es;
  }

  lemma NothingFits(es: seq<Entry>)
    ensures Fits(Table(NO_FLAGS, es), EMPTY_TABLE) <==> |es| <= TABLE_MAX
  {
    assert NewEntries(es, [], 0) == [];
  }

  lemma {:induction false} AllNew(fs: seq<Entry>, n: nat)
    requires n <= |fs|
    ensures NewEntries([], fs, n) == CopiedEntries(fs)[..n]
  {
    if n > 0 {
      AllNew(fs, n - 1);
    }
  }
}
