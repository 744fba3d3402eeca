/** Deep copy and merging of trees, in one string pool. */
module Merging {
  import opened Basics
  import opened Datum
  import opened StringPool

  // ---------- tab_emplace and arr_emplace on values

  /** The slot of key k, appended with a zeroed datum when the key is new. */
  function Emplace(es: seq<Entry>, k: Text): (r: Result<(seq<Entry>, nat)>)
    ensures r.Ok? ==>
              var (fs, j) := r.value;
              j < |fs| && fs[j].key == k && (fs == es || (es <= fs && j == |es| == |fs| - 1))
  {
    var j := Find(es, k);
    if j >= 0 then Ok((es, j))
    else if |es| >= TABLE_MAX then Err(TooLarge)
    else Ok((es + [Entry(k, Leaf(NO_FLAGS, Unknown))], |es|))
  }

  method TabEmplace(tab: Datum, k: Text) returns (r: Result<(seq<Entry>, nat)>)
    requires tab.Table?
    ensures r == Emplace(tab.entries, k)
  {
    var j := TabFind(tab, k);
    if j >= 0 {
      return Ok((tab.entries, j));
    }
    var n := |tab.entries|;
    if n >= TABLE_MAX {
      return Err(TooLarge);
    }
    return Ok((tab.entries + [Entry(k, Leaf(NO_FLAGS, Unknown))], n));
  }

  // ---------- datum_copy

  /** datum_copy into a pool that has handed out top of its max bytes: the copy and the new top. */
  function Copy(d: Datum, top: nat, max: nat): Result<(Datum, nat)>
    decreases d, 0
  {
    match d
    case Leaf(_, Str(t)) =>
      if top + |t| + 1 > max then Err(OutOfMemory) else Ok((Leaf(NO_FLAGS, Str(t)), top + |t| + 1))
    case Leaf(_, _) => Ok((d, top))
    case Array(_, xs) =>
      var (ys, top') :- CopyElems(xs, 0, [], top, max);
      Ok((Array(NO_FLAGS, ys), top'))
    case Table(_, es) =>
      var (fs, top') :- CopyEntries(es, 0, [], top, max);
      Ok((Table(NO_FLAGS, fs), top'))
  }

  /** Copies xs[i..] behind ys; also the loop with which datum_merge appends an array of tables. */
  function CopyElems(xs: seq<Datum>, i: nat, ys: seq<Datum>, top: nat, max: nat): Result<(seq<Datum>, nat)>
    requires i <= |xs|
    decreases xs, |xs| - i
  {
    if i == |xs| then Ok((ys, top))
    else if |ys| >= ARRAY_MAX then Err(TooLarge)
    else
      var (y, top') :- Copy(xs[i], top, max);
      CopyElems(xs, i + 1, ys + [y], top', max)
  }

  function CopyEntries(es: seq<Entry>, i: nat, fs: seq<Entry>, top: nat, max: nat): Result<(seq<Entry>, nat)>
    requires i <= |es|
    decreases es, |es| - i
  {
    if i == |es| then Ok((fs, top))
    else
      var (gs, j) :- Emplace(fs, es[i].key);
      var (v, top') :- Copy(es[i].val, top, max);
      CopyEntries(es, i + 1, gs[j := Entry(es[i].key, v)], top', max)
  }

  method DatumCopy(d: Datum, pool: Pool) returns (r: Result<Datum>)
    requires pool.Valid()
    modifies pool`top
    ensures pool.Valid()
    ensures match Copy(d, old(pool.top), pool.max)
            case Ok((c, top)) => r == Ok(c) && pool.top == top
            case Err(e) => r == Err(e)
    decreases d, 0
  {
    match d
    case Leaf(_, Str(t)) =>
      var p := pool.Alloc(|t| + 1);
      return if p == None then Err(OutOfMemory) else Ok(Leaf(NO_FLAGS, Str(t)));
    case Leaf(_, _) =>
      return Ok(d);
    case Array(_, xs) =>
      var ys := [];
      var i := 0;
      while i < |xs|
        invariant 0 <= i <= |xs| && pool.Valid()
        invariant CopyElems(xs, i, ys, pool.top, pool.max) == CopyElems(xs, 0, [], old(pool.top), pool.max)
      {
        if |ys| >= ARRAY_MAX {
          return Err(TooLarge);
        }
        var y :- DatumCopy(xs[i], pool);
        ys := ys + [y];
        i := i + 1;
      }
      return Ok(Array(NO_FLAGS, ys));
    case Table(_, es) =>
      var fs := [];
      var i := 0;
      while i < |es|
        invariant 0 <= i <= |es| && pool.Valid()
        invariant CopyEntries(es, i, fs, pool.top, pool.max) == CopyEntries(es, 0, [], old(pool.top), pool.max)
      {
        var slot :- TabEmplace(Table(NO_FLAGS, fs), es[i].key);
        var v :- DatumCopy(es[i].val, pool);
        fs := slot.0[slot.1 := Entry(es[i].key, v)];
        i := i + 1;
      }
      return Ok(Table(NO_FLAGS, fs));
  }

  // ---------- datum_merge

  predicate IsArrayOfTables(d: Datum) {
    d.Array? && forall i :: 0 <= i < |d.elems| ==> d.elems[i].Table?
  }

  /** datum_merge of src into dst. */
  function Merge(dst: Datum, src: Datum, top: nat, max: nat): Result<(Datum, nat)>
    decreases src, 0
  {
    if TypeOf(dst) != TypeOf(src) then Copy(src, top, max)
    else if src.Table? then
      var (fs, top') :- MergeEntries(dst.entries, src.entries, 0, top, max);
      Ok((dst.(entries := fs), top'))
    else if IsArrayOfTables(src) then
      var (ys, top') :- CopyElems(src.elems, 0, dst.elems, top, max);
      Ok((dst.(elems := ys), top'))
    else Copy(src, top, max)
  }

  function MergeEntries(es: seq<Entry>, fs: seq<Entry>, i: nat, top: nat, max: nat): Result<(seq<Entry>, nat)>
    requires i <= |fs|
    decreases fs, |fs| - i
  {
    if i == |fs| then Ok((es, top))
    else
      var (gs, j) :- Emplace(es, fs[i].key);
      var (v, top') :- if TypeOf(gs[j].val) != TUnknown then Merge(gs[j].val, fs[i].val, top, max)
                       else Copy(fs[i].val, top, max);
      MergeEntries(gs[j := Entry(fs[i].key, v)], fs, i + 1, top', max)
  }

  method DatumMerge(dst: Datum, src: Datum, pool: Pool) returns (r: Result<Datum>)
    requires pool.Valid()
    modifies pool`top
    ensures pool.Valid()
    ensures match Merge(dst, src, old(pool.top), pool.max)
            case Ok((c, top)) => r == Ok(c) && pool.top == top
            case Err(e) => r == Err(e)
    decreases src, 0
  {
    if TypeOf(dst) != TypeOf(src) {
      r := DatumCopy(src, pool);
      return;
    }
    if src.Table? {
      var fs := src.entries;
      var es := dst.entries;
      var i := 0;
      while i < |fs|
        invariant 0 <= i <= |fs| && pool.Valid()
        invariant MergeEntries(es, fs, i, pool.top, pool.max)
               == MergeEntries(dst.entries, fs, 0, old(pool.top), pool.max)
      {
        var slot :- TabEmplace(dst.(entries := es), fs[i].key);
        var v;
        if TypeOf(slot.0[slot.1].val) != TUnknown {
          v :- DatumMerge(slot.0[slot.1].val, fs[i].val, pool);
        } else {
          v :- DatumCopy(fs[i].val, pool);
        }
        es := slot.0[slot.1 := Entry(fs[i].key, v)];
        i := i + 1;
      }
      return Ok(dst.(entries := es));
    }
    if IsArrayOfTables(src) {
      var xs := src.elems;
      var ys := dst.elems;
      var i := 0;
      while i < |xs|
        invariant 0 <= i <= |xs| && pool.Valid()
        invariant CopyElems(xs, i, ys, pool.top, pool.max)
               == CopyElems(xs, 0, dst.elems, old(pool.top), pool.max)
      {
        if |ys| >= ARRAY_MAX {
          return Err(TooLarge);
        }
        var y :- DatumCopy(xs[i], pool);
        ys := ys + [y];
        i := i + 1;
      }
      return Ok(dst.(elems := ys));
    }
    r := DatumCopy(src, pool);
  }
}
