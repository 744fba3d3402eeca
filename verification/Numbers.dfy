/** The text of numbers: process_numstr and the conversions that follow it. */
module Numbers {
  import opened Basics

  const POINT: byte := 46

  // ---------- what the text of a number must satisfy

  predicate DigitIn(c: int, base: nat) { IsDigit(c) || (base == 16 && IsHex(c)) }

  /** Every underscore stands between two digits. */
  predicate UnderscoresOk(t: seq<byte>, base: nat) {
    forall i :: 0 <= i < |t| && t[i] == UNDERSCORE ==>
      0 < i && i + 1 < |t| && DigitIn(t[i - 1], base) && DigitIn(t[i + 1], base)
  }

  function Squeezed(t: seq<byte>): (r: seq<byte>)
    ensures |r| <= |t|
  {
    if t == [] then []
    else
      var r := Squeezed(t[..|t| - 1]);
      if t[|t| - 1] == UNDERSCORE then r else r + [t[|t| - 1]]
  }

  /** Every decimal point stands between two decimal digits. */
  predicate PointsOk(t: seq<byte>) {
    forall i :: 0 <= i < |t| && t[i] == POINT ==>
      0 < i && i + 1 < |t| && IsDigit(t[i - 1]) && IsDigit(t[i + 1])
  }

  function Lowered(t: seq<byte>): (r: seq<byte>)
    ensures |r| == |t|
  {
    seq(|t|, i requires 0 <= i < |t| => ToLower(t[i]))
  }

  predicate IsSign(c: int) { c == 43 || c == 45 }

  /** No decimal number starts with 0 and another digit. */
  predicate LeadingOk(t: seq<byte>) {
    var s := if t != [] && IsSign(t[0]) then 1 else 0;
    !(s + 1 < |t| && t[s] == 48 && IsDigit(t[s + 1]))
  }

  /** process_numstr on the characters before the NUL. */
  function NumText(t: seq<byte>, base: nat): Result<seq<byte>> {
    var s := Squeezed(t);
    if !UnderscoresOk(t, base) || !PointsOk(s) || (base == 10 && !LeadingOk(s)) then Err(Lexical)
    else Ok(Lowered(s))
  }

  // ---------- process_numstr, in place

  /** The characters of the buffer before its NUL, which stands at n. */
  ghost predicate Holds(buf: array<byte>, t: seq<byte>)
    reads buf
  {
    |t| < buf.Length && buf[..|t|] == t && buf[|t|] == 0 && 0 !in t
  }

  lemma SqueezedNext(t: seq<byte>, i: nat)
    requires i < |t|
    ensures Squeezed(t[..i + 1]) ==
            if t[i] == UNDERSCORE then Squeezed(t[..i]) else Squeezed(t[..i]) + [t[i]]
  {
    assert t[..i + 1][..i] == t[..i];
  }

  lemma {:induction false} SqueezedPlain(t: seq<byte>)
    requires UNDERSCORE !in t
    ensures Squeezed(t) == t
  {
    if t != [] {
      SqueezedPlain(t[..|t| - 1]);
      assert t[..|t| - 1] + [t[|t| - 1]] == t;
    }
  }

  lemma {:induction false} SqueezedNoNul(t: seq<byte>)
    requires 0 !in t
    ensures 0 !in Squeezed(t)
  {
    if t != [] {
      SqueezedNoNul(t[..|t| - 1]);
    }
  }

  /** UnderscoresOk for the first n characters of t. */
  ghost predicate UnderscoresOkTo(t: seq<byte>, base: nat, n: nat)
    requires n <= |t|
  {
    forall i :: 0 <= i < n && t[i] == UNDERSCORE ==> UnderscoreOkAt(t, base, i)
  }

  ghost predicate UnderscoreOkAt(t: seq<byte>, base: nat, i: nat)
    requires i < |t|
  {
    0 < i && i + 1 < |t| && DigitIn(t[i - 1], base) && DigitIn(t[i + 1], base)
  }

  lemma OkToNext(t: seq<byte>, base: nat, i: nat)
    requires i < |t| && UnderscoresOkTo(t, base, i)
    ensures UnderscoresOkTo(t, base, i + 1) <==> (t[i] == UNDERSCORE ==> UnderscoreOkAt(t, base, i))
    ensures t[i] == UNDERSCORE && !UnderscoreOkAt(t, base, i) ==> !UnderscoresOk(t, base)
  {}

  lemma OkToAll(t: seq<byte>, base: nat)
    ensures UnderscoresOkTo(t, base, |t|) <==> UnderscoresOk(t, base)
  {}

  lemma OkToNone(t: seq<byte>, base: nat, n: nat)
    requires n <= |t| && UNDERSCORE !in t[..n]
    ensures UnderscoresOkTo(t, base, n)
  {
    assert forall i :: 0 <= i < n ==> t[..n][i] == t[i];
  }

  lemma {:induction false} Neighbours(t: seq<byte>, base: nat, i: nat, left: int, right: int)
    requires i < |t| && left == (if i == 0 then 0 else t[i - 1]) && right == (if i + 1 < |t| then t[i + 1] else 0)
    ensures UnderscoreOkAt(t, base, i) <==> DigitIn(left, base) && DigitIn(right, base)
  {}

  /** The underscore phase: compacts the buffer, testing the neighbours of every underscore.
      Both neighbours are read before the compaction can overwrite them. */
  method Squeeze(buf: array<byte>, base: nat, ghost t: seq<byte>) returns (ok: bool)
    requires Holds(buf, t)
    modifies buf
    ensures ok == UnderscoresOk(t, base)
    ensures ok ==> Holds(buf, Squeezed(t))
  {
    hide Squeezed, UnderscoresOkTo, UnderscoresOk, UnderscoreOkAt, DigitIn;
    SqueezedNoNul(t);
    OkToAll(t, base);
    var q := FirstUnderscore(buf, t);
    OkToNone(t, base, q);
    SqueezedPlain(t[..q]);
    if buf[q] == 0 {
      assert t[..q] == t;
      return true;
    }
    assert forall k :: 0 <= k < |t| ==> buf[k] == buf[..|t|][k] == t[k];
    ghost var s := t[..q];
    var i := q;
    while buf[i] != 0
      invariant q <= i <= |t|
      invariant i == q ==> q < |t| && t[q] == UNDERSCORE
      invariant i > 0 ==> buf[i - 1] == t[i - 1]
      invariant forall k :: i <= k < |t| ==> buf[k] == t[k]
      invariant buf[|t|] == 0
      invariant s == Squeezed(t[..i]) && q == |s|
      invariant forall k :: 0 <= k < q ==> buf[k] == s[k]
      invariant UnderscoresOkTo(t, base, i)
      decreases |t| - i
    {
      SqueezedNext(t, i);
      OkToNext(t, base, i);
      if buf[i] != UNDERSCORE {
        buf[q] := buf[i];
        q := q + 1;
        s := s + [t[i]];
      } else {
        var left: int := if i == 0 then 0 else buf[i - 1];
        var right: int := buf[i + 1];
        Neighbours(t, base, i, left, right);
        if !DigitIn(left, base) || !DigitIn(right, base) {
          return false;
        }
      }
      i := i + 1;
    }
    assert t[..|t|] == t;
    buf[q] := 0;
    return true;
  }

  /** strchr(buffer, '_'), or the position of the NUL. */
  method FirstUnderscore(buf: array<byte>, ghost t: seq<byte>) returns (q: nat)
    requires Holds(buf, t)
    ensures q <= |t| && UNDERSCORE !in t[..q]
    ensures q < |t| ==> t[q] == UNDERSCORE
    ensures q == |t| ==> UNDERSCORE !in t
    ensures buf[q] == if q < |t| then UNDERSCORE else 0
  {
    q := 0;
    while buf[q] != 0 && buf[q] != UNDERSCORE
      invariant 0 <= q <= |t| && UNDERSCORE !in t[..q]
      decreases |t| - q
    {
      q := q + 1;
    }
    assert q < |t| ==> buf[..|t|][q] == t[q];
  }

  ghost predicate PointOkAt(t: seq<byte>, i: nat)
    requires i < |t|
  {
    0 < i && i + 1 < |t| && IsDigit(t[i - 1]) && IsDigit(t[i + 1])
  }

  ghost predicate PointsOkTo(t: seq<byte>, n: nat)
    requires n <= |t|
  {
    forall i :: 0 <= i < n && t[i] == POINT ==> PointOkAt(t, i)
  }

  /** The second phase: checks the decimal points and lowers the letters in the same pass. */
  method CheckPoints(buf: array<byte>, ghost s: seq<byte>) returns (ok: bool)
    requires Holds(buf, s)
    modifies buf
    ensures ok == PointsOk(s)
    ensures ok ==> Holds(buf, Lowered(s))
  {
    var i := 0;
    while buf[i] != 0
      invariant 0 <= i <= |s|
      invariant forall k :: 0 <= k < i ==> buf[k] == ToLower(s[k])
      invariant forall k :: i <= k <= |s| ==> buf[k] == old(buf[k])
      invariant PointsOkTo(s, i)
      decreases |s| - i
    {
      assert buf[i] == old(buf[..|s|])[i];
      assert i > 0 ==> (IsDigit(buf[i - 1]) <==> IsDigit(s[i - 1]));
      assert buf[i + 1] == if i + 1 < |s| then old(buf[..|s|])[i + 1] else 0;
      if buf[i] == POINT {
        if i == 0 || !IsDigit(buf[i - 1]) || !IsDigit(buf[i + 1]) {
          assert !PointOkAt(s, i);
          return false;
        }
      } else if IsUpper(buf[i]) {
        buf[i] := ToLower(buf[i]);
      }
      i := i + 1;
    }
    assert i == |s|;
    return true;
  }

  method ProcessNumstr(buf: array<byte>, base: nat, ghost t: seq<byte>) returns (ok: bool)
    requires Holds(buf, t)
    modifies buf
    ensures ok == NumText(t, base).Ok?
    ensures ok ==> Holds(buf, NumText(t, base).value)
  {
    ok := Squeeze(buf, base, t);
    if !ok {
      return;
    }
    ghost var s := Squeezed(t);
    ok := CheckPoints(buf, s);
    if !ok {
      return;
    }
    assert forall k :: 0 <= k < |s| ==> buf[k] == buf[..|s|][k] == ToLower(s[k]);
    if base == 10 {
      var q := if IsSign(buf[0]) then 1 else 0;
      if buf[q] == 48 && IsDigit(buf[q + 1]) {
        return false;
      }
    }
  }

  // ---------- what squeezing means

  /** The kept characters are those that are not underscores, in order. */
  lemma {:induction false} SqueezedKeeps(t: seq<byte>, u: seq<byte>)
    ensures UNDERSCORE !in Squeezed(t)
    ensures Squeezed(t + u) == Squeezed(t) + Squeezed(u)
  {
    if u == [] {
      assert t + u == t;
      SqueezedNoUnderscore(t);
    } else {
      var n := |u| - 1;
      assert (t + u)[..|t| + n] == t + u[..n];
      SqueezedKeeps(t, u[..n]);
    }
  }

  lemma {:induction false} SqueezedNoUnderscore(t: seq<byte>)
    ensures UNDERSCORE !in Squeezed(t)
  {
    if t != [] {
      SqueezedNoUnderscore(t[..|t| - 1]);
    }
  }

  // ---------- strtoll on such a text

  const INT64_MIN := -0x8000_0000_0000_0000
  const INT64_MAX := 0x7FFF_FFFF_FFFF_FFFF

  function DigitValue(c: int): nat {
    if IsDigit(c) then c - 48 else if IsLower(c) then c - 87 else if IsUpper(c) then c - 55 else 99
  }

  /** The end of the run of digits of the base that starts at i. */
  function DigitRun(t: seq<byte>, i: nat, base: nat): (e: nat)
    requires i <= |t|
    ensures i <= e <= |t|
    decreases |t| - i
  {
    if i < |t| && DigitValue(t[i]) < base then DigitRun(t, i + 1, base) else i
  }

  function ValueOf(t: seq<byte>, i: nat, e: nat, base: nat): nat
    requires i <= e <= |t|
    decreases e
  {
    if i == e then 0 else ValueOf(t, i, e - 1, base) * base + DigitValue(t[e - 1])
  }

  /** The value and the index of the first character not converted; no value on overflow. */
  function StrToLL(t: seq<byte>, base: nat): (r: (Option<int>, nat))
    ensures r.1 <= |t|
  {
    var s := if t != [] && IsSign(t[0]) then 1 else 0;
    var e := DigitRun(t, s, base);
    if e == s then (Some(0), 0)
    else
      var m: int := ValueOf(t, s, e, base);
      var v := if s == 1 && t[0] == 45 then -m else m;
      (if INT64_MIN <= v <= INT64_MAX then Some(v) else None, e)
  }
}
