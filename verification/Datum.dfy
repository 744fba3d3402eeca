/** The tree a parse produces: toml_datum_t without its memory. */
module Datum {
  import opened Basics

  const TABLE_MAX := 16384
  const ARRAY_MAX := 16384

  /** The three bits of toml_datum_t::flag. */
  datatype Flags = Flags(inlined: bool, stdexpr: bool, explicit: bool) {
    ghost predicate Within(f: Flags) {
      (inlined ==> f.inlined) && (stdexpr ==> f.stdexpr) && (explicit ==> f.explicit)
    }
  }

  const NO_FLAGS := Flags(false, false, false)

  /** A double, up to what equality and isnan can tell; a NaN keeps its payload. */
  datatype Double = NaN(payload: nat) | PosInf | NegInf | NegZero | Finite(r: real)

  /** The C operator == on doubles. */
  predicate DoubleEq(a: Double, b: Double) {
    if a.NaN? || b.NaN? then false
    else if a == NegZero then b == NegZero || b == Finite(0.0)
    else if b == NegZero then a == Finite(0.0)
    else a == b
  }

  datatype Stamp = Stamp(year: int, month: int, day: int,
                         hour: int, minute: int, second: int, usec: int, tz: int)

  datatype Scalar =
    | Unknown                // TOML_UNKNOWN, the type of a zeroed datum
    | Str(text: Text)
    | Int64(i: int)
    | Fp64(d: Double)
    | Boolean(b: bool)
    | Date(ts: Stamp)
    | Time(ts: Stamp)
    | DateTime(ts: Stamp)
    | DateTimeTz(ts: Stamp)

  datatype Entry = Entry(key: Text, val: Datum)

  datatype Datum =
    | Leaf(flag: Flags, scalar: Scalar)
    | Array(flag: Flags, elems: seq<Datum>)
    | Table(flag: Flags, entries: seq<Entry>)

  /** toml_type_t. */
  datatype Type = TUnknown | TStr | TInt64 | TFp64 | TBoolean
                | TDate | TTime | TDateTime | TDateTimeTz | TArray | TTable

  function TypeOf(d: Datum): Type {
    match d
    case Array(_, _) => TArray
    case Table(_, _) => TTable
    case Leaf(_, s) =>
      match s
      case Unknown => TUnknown
      case Str(_) => TStr
      case Int64(_) => TInt64
      case Fp64(_) => TFp64
      case Boolean(_) => TBoolean
      case Date(_) => TDate
      case Time(_) => TTime
      case DateTime(_) => TDateTime
      case DateTimeTz(_) => TDateTimeTz
  }

  const EMPTY_TABLE := Table(NO_FLAGS, [])

  // ---------- looking a key up

  /** The index tab_find returns: the first entry with this key, or -1. */
  function Find(es: seq<Entry>, k: Text): (j: int)
    ensures -1 <= j < |es|
    ensures 0 <= j ==> es[j].key == k && forall i :: 0 <= i < j ==> es[i].key != k
    ensures j < 0 ==> forall i :: 0 <= i < |es| ==> es[i].key != k
  {
    FindFrom(es, k, 0)
  }

  function FindFrom(es: seq<Entry>, k: Text, n: nat): (j: int)
    requires n <= |es|
    ensures j == -1 || n <= j < |es|
    ensures 0 <= j ==> es[j].key == k && forall i :: n <= i < j ==> es[i].key != k
    ensures j < 0 ==> forall i :: n <= i < |es| ==> es[i].key != k
    decreases |es| - n
  {
    if n == |es| then -1 else if es[n].key == k then n else FindFrom(es, k, n + 1)
  }

  method TabFind(tab: Datum, k: Text) returns (j: int)
    requires tab.Table?
    ensures j == Find(tab.entries, k)
  {
    var i := 0;
    while i < |tab.entries|
      invariant 0 <= i <= |tab.entries|
      invariant forall x :: 0 <= x < i ==> tab.entries[x].key != k
    {
      if tab.entries[i].key == k {
        return i;
      }
      i := i + 1;
    }
    return -1;
  }

  ghost predicate DistinctKeys(es: seq<Entry>) {
    forall i, j :: 0 <= i < j < |es| ==> es[i].key != es[j].key
  }

  // ---------- well-formed trees

  /** What every finished tree satisfies: distinct keys, size limits, no
      TOML_UNKNOWN, and the two table flags on tables only. */
  ghost predicate WellFormed(d: Datum) {
    match d
    case Leaf(f, s) => s != Unknown && !f.stdexpr && !f.explicit
    case Array(f, xs) =>
      && !f.stdexpr && !f.explicit && |xs| <= ARRAY_MAX
      && forall i :: 0 <= i < |xs| ==> WellFormed(xs[i])
    case Table(f, es) =>
      && |es| <= TABLE_MAX && DistinctKeys(es)
      && forall i :: 0 <= i < |es| ==> WellFormed(es[i].val)
  }

  // ---------- comparing trees

  predicate ScalarEquiv(a: Scalar, b: Scalar) {
    match (a, b)
    case (Str(s), Str(t)) => s == t
    case (Int64(i), Int64(j)) => i == j
    case (Fp64(x), Fp64(y)) => DoubleEq(x, y) || (x.NaN? && y.NaN?)
    case (Boolean(p), Boolean(q)) => p == q
    case (Date(s), Date(t)) => s.year == t.year && s.month == t.month && s.day == t.day
    case (Time(s), Time(t)) =>
      s.hour == t.hour && s.minute == t.minute && s.second == t.second && s.usec == t.usec
    case (DateTime(s), DateTime(t)) => s.(tz := 0) == t.(tz := 0)
    case (DateTimeTz(s), DateTimeTz(t)) => s == t
    case _ => false
  }

  /** datum_equiv: flags are not looked at, orders are. */
  predicate Equiv(a: Datum, b: Datum) {
    match (a, b)
    case (Leaf(_, s), Leaf(_, t)) => ScalarEquiv(s, t)
    case (Array(_, xs), Array(_, ys)) =>
      |xs| == |ys| && forall i :: 0 <= i < |xs| ==> Equiv(xs[i], ys[i])
    case (Table(_, es), Table(_, fs)) =>
      |es| == |fs| && forall i :: 0 <= i < |es| ==> es[i].key == fs[i].key && Equiv(es[i].val, fs[i].val)
    case _ => false
  }

  method DatumEquiv(a: Datum, b: Datum) returns (same: bool)
    ensures same == Equiv(a, b)
  {
    if TypeOf(a) != TypeOf(b) {
      return false;
    }
    match a
    case Leaf(_, s) =>
      return ScalarEquiv(s, b.scalar);
    case Array(_, xs) =>
      if |xs| != |b.elems| {
        return false;
      }
      for i := 0 to |xs|
        invariant forall x :: 0 <= x < i ==> Equiv(xs[x], b.elems[x])
      {
        var eq := DatumEquiv(xs[i], b.elems[i]);
        if !eq {
          return false;
        }
      }
      return true;
    case Table(_, es) =>
      if |es| != |b.entries| {
        return false;
      }
      for i := 0 to |es|
        invariant forall x :: 0 <= x < i ==> es[x].key == b.entries[x].key && Equiv(es[x].val, b.entries[x].val)
      {
        if es[i].key != b.entries[i].key {
          return false;
        }
        var eq := DatumEquiv(es[i].val, b.entries[i].val);
        if !eq {
          return false;
        }
      }
      return true;
  }

  /** No zeroed datum anywhere in the tree. */
  ghost predicate NoUnknown(d: Datum) {
    match d
    case Leaf(_, s) => s != Unknown
    case Array(_, xs) => forall i :: 0 <= i < |xs| ==> NoUnknown(xs[i])
    case Table(_, es) => forall i :: 0 <= i < |es| ==> NoUnknown(es[i].val)
  }

  /** A tree is equivalent to itself exactly when it holds no zeroed datum. */
  lemma {:induction false} EquivReflexive(d: Datum)
    ensures Equiv(d, d) <==> NoUnknown(d)
  {
    match d
    case Leaf(_, _) =>
    case Array(_, xs) =>
      forall i | 0 <= i < |xs| ensures Equiv(xs[i], xs[i]) <==> NoUnknown(xs[i]) { EquivReflexive(xs[i]); }
    case Table(_, es) =>
      forall i | 0 <= i < |es| ensures Equiv(es[i].val, es[i].val) <==> NoUnknown(es[i].val) {
        EquivReflexive(es[i].val);
      }
  }

  lemma {:induction false} WellFormedNoUnknown(d: Datum)
    requires WellFormed(d)
    ensures NoUnknown(d)
  {
    match d
    case Leaf(_, _) =>
    case Array(_, xs) =>
      forall i | 0 <= i < |xs| ensures NoUnknown(xs[i]) { WellFormedNoUnknown(xs[i]); }
    case Table(_, es) =>
      forall i | 0 <= i < |es| ensures NoUnknown(es[i].val) { WellFormedNoUnknown(es[i].val); }
  }

  lemma {:induction false} EquivSymmetric(a: Datum, b: Datum)
    requires Equiv(a, b)
    ensures Equiv(b, a)
  {
    match a
    case Leaf(_, _) =>
    case Array(_, xs) =>
      forall i | 0 <= i < |xs| ensures Equiv(b.elems[i], xs[i]) { EquivSymmetric(xs[i], b.elems[i]); }
    case Table(_, es) =>
      forall i | 0 <= i < |es| ensures Equiv(b.entries[i].val, es[i].val) {
        EquivSymmetric(es[i].val, b.entries[i].val);
      }
  }

  lemma {:induction false} EquivTransitive(a: Datum, b: Datum, c: Datum)
    requires Equiv(a, b) && Equiv(b, c)
    ensures Equiv(a, c)
  {
    match a
    case Leaf(_, _) =>
    case Array(_, xs) =>
      forall i | 0 <= i < |xs| ensures Equiv(xs[i], c.elems[i]) {
        EquivTransitive(xs[i], b.elems[i], c.elems[i]);
      }
    case Table(_, es) =>
      forall i | 0 <= i < |es| ensures es[i].key == c.entries[i].key && Equiv(es[i].val, c.entries[i].val) {
        EquivTransitive(es[i].val, b.entries[i].val, c.entries[i].val);
      }
  }

  // ---------- the bytes of the string values of a tree

  /** One NUL per string value is counted too; keys are not. */
  ghost function StrBytes(d: Datum): nat
    decreases d, 0, 0
  {
    match d
    case Leaf(_, Str(t)) => |t| + 1
    case Leaf(_, _) => 0
    case Array(_, xs) => ElemBytes(xs, |xs|)
    case Table(_, es) => EntryBytes(es, |es|)
  }

  /** The string bytes of the first n elements. */
  ghost function ElemBytes(xs: seq<Datum>, n: nat): nat
    requires n <= |xs|
    decreases xs, 1, n
  {
    if n == 0 then 0 else ElemBytes(xs, n - 1) + StrBytes(xs[n - 1])
  }

  /** The string bytes of the values of the first n entries. */
  ghost function EntryBytes(es: seq<Entry>, n: nat): nat
    requires n <= |es|
    decreases es, 1, n
  {
    if n == 0 then 0 else EntryBytes(es, n - 1) + StrBytes(es[n - 1].val)
  }

  lemma {:induction false} ElemBytesSame(xs: seq<Datum>, ys: seq<Datum>, n: nat)
    requires n <= |xs| && n <= |ys| && xs[..n] == ys[..n]
    ensures ElemBytes(xs, n) == ElemBytes(ys, n)
  {
    if n > 0 {
      assert xs[n - 1] == xs[..n][n - 1] == ys[..n][n - 1] == ys[n - 1];
      assert xs[..n - 1] == xs[..n][..n - 1] == ys[..n][..n - 1] == ys[..n - 1];
      ElemBytesSame(xs, ys, n - 1);
    }
  }

  lemma {:induction false} EntryBytesSame(es: seq<Entry>, fs: seq<Entry>, n: nat)
    requires n <= |es| && n <= |fs| && es[..n] == fs[..n]
    ensures EntryBytes(es, n) == EntryBytes(fs, n)
  {
    if n > 0 {
      assert es[n - 1] == es[..n][n - 1] == fs[..n][n - 1] == fs[n - 1];
      assert es[..n - 1] == es[..n][..n - 1] == fs[..n][..n - 1] == fs[..n - 1];
      EntryBytesSame(es, fs, n - 1);
    }
  }

  lemma {:induction false} ElemBytesMono(xs: seq<Datum>, n: nat, m: nat)
    requires n <= m <= |xs|
    ensures ElemBytes(xs, n) <= ElemBytes(xs, m)
  {
    if n < m { ElemBytesMono(xs, n, m - 1); }
  }

  lemma {:induction false} EntryBytesMono(es: seq<Entry>, n: nat, m: nat)
    requires n <= m <= |es|
    ensures EntryBytes(es, n) <= EntryBytes(es, m)
  {
    if n < m { EntryBytesMono(es, n, m - 1); }
  }

  lemma ElemBytesAppend(xs: seq<Datum>, x: Datum)
    ensures ElemBytes(xs + [x], |xs| + 1) == ElemBytes(xs, |xs|) + StrBytes(x)
  {
    assert (xs + [x])[..|xs|] == xs == xs[..|xs|];
    ElemBytesSame(xs + [x], xs, |xs|);
  }

  lemma EntryBytesAppend(es: seq<Entry>, e: Entry)
    ensures EntryBytes(es + [e], |es| + 1) == EntryBytes(es, |es|) + StrBytes(e.val)
  {
    assert (es + [e])[..|es|] == es == es[..|es|];
    EntryBytesSame(es + [e], es, |es|);
  }

  lemma {:induction false} ElemBytesUpdate(xs: seq<Datum>, i: nat, x: Datum, n: nat)
    requires i < n <= |xs|
    ensures ElemBytes(xs[i := x], n) == ElemBytes(xs, n) - StrBytes(xs[i]) + StrBytes(x)
  {
    if i < n - 1 {
      ElemBytesUpdate(xs, i, x, n - 1);
    } else {
      assert xs[i := x][..i] == xs[..i];
      ElemBytesSame(xs[i := x], xs, i);
    }
  }

  lemma {:induction false} EntryBytesUpdate(es: seq<Entry>, i: nat, e: Entry, n: nat)
    requires i < n <= |es|
    ensures EntryBytes(es[i := e], n) == EntryBytes(es, n) - StrBytes(es[i].val) + StrBytes(e.val)
  {
    if i < n - 1 {
      EntryBytesUpdate(es, i, e, n - 1);
    } else {
      assert es[i := e][..i] == es[..i];
      EntryBytesSame(es[i := e], es, i);
    }
  }
}
