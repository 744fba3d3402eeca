/** parse_norm: the text of a string or key, unescaped in place in the pool. */
module Normalizing {
  import opened Basics
  import opened Scanning
  import opened Utf8
  import opened Unescaping

  /** The part of the token at o that has not been read yet: b[p..] and the NUL behind it. */
  ghost predicate Unread(s: seq<byte>, o: nat, b: seq<byte>, p: nat)
    requires p <= |b| && o + |b| < |s|
  {
    (forall k :: p <= k < |b| ==> s[o + k] == b[k]) && s[o + |b|] == 0
  }

  /** s with t written over it at position at. */
  ghost function Patch(s: seq<byte>, at: nat, t: seq<byte>): (r: seq<byte>)
    requires at + |t| <= |s|
    ensures |r| == |s|
  {
    s[..at] + t + s[at + |t|..]
  }

  method WriteAt(buf: array<byte>, at: nat, t: seq<byte>)
    requires at + |t| <= buf.Length
    modifies buf
    ensures buf[..] == Patch(old(buf[..]), at, t)
  {
    var k := 0;
    while k < |t|
      invariant 0 <= k <= |t|
      invariant forall x :: 0 <= x < k ==> buf[at + x] == t[x]
      invariant forall x :: 0 <= x < buf.Length && (x < at || at + k <= x) ==> buf[x] == old(buf[x])
    {
      buf[at + k] := t[k];
      k := k + 1;
    }
  }

  lemma PatchNothing(s: seq<byte>, at: nat)
    requires at <= |s|
    ensures Patch(s, at, []) == s
  {}

  /** What a patch leaves readable: everything before it with the new text appended, and
      every byte behind it. */
  lemma PatchReads(s: seq<byte>, o: nat, dst: nat, t: seq<byte>, m: nat)
    requires o + dst + |t| <= m <= |s|
    ensures var r := Patch(s, o + dst, t);
            && r[..o] == s[..o] && r[m..] == s[m..]
            && r[o..o + dst + |t|] == s[o..o + dst] + t
            && forall k :: o + dst + |t| <= k < |s| ==> r[k] == s[k]
  {}

  /** strspn over the unread part. */
  method SkipIn(buf: array<byte>, o: nat, ghost b: seq<byte>, p: nat, lf: bool) returns (j: nat)
    requires p <= |b| && o + |b| < buf.Length && Unread(buf[..], o, b, p) && 0 !in b
    ensures j == SkipWhite(b, p, lf)
  {
    j := p;
    while buf[o + j] == SPACE || buf[o + j] == TAB || buf[o + j] == CR || (lf && buf[o + j] == LF)
      invariant p <= j <= |b| && SkipWhite(b, j, lf) == SkipWhite(b, p, lf)
      decreases |b| - j
    {
      j := j + 1;
    }
    assert j < |b| ==> buf[o + j] == b[j];
  }

  /** memcpy of the digits and strtol in base 16. */
  method ReadHex(buf: array<byte>, o: nat, ghost b: seq<byte>, p: nat, n: nat) returns (code: nat)
    requires p + n <= |b| && o + |b| < buf.Length && Unread(buf[..], o, b, p) && HexDigits(b, p, n)
    ensures code == HexNumber(b, p, n)
  {
    code := 0;
    var k := 0;
    while k < n
      invariant 0 <= k <= n && code == HexNumber(b, p, k)
    {
      assert buf[o + p + k] == b[p + k];
      code := code * 16 + HexValue(buf[o + p + k]);
      k := k + 1;
    }
  }

  /** One turn of the switch: reads the escape at p, writes what it stands for at dst, and
      returns both pointers. The writing pointer stays behind the reading one. */
  method EscapeStep(buf: array<byte>, o: nat, ghost b: seq<byte>, p: nat, dst: nat) returns (r: Result<(nat, nat)>)
    requires dst <= p < |b| && o + |b| < buf.Length && Unread(buf[..], o, b, p) && 0 !in b
    requires b[p] == BACKSLASH && Escape(b, p) != Err(Internal)
    modifies buf
    ensures match Escape(b, p)
            case Ok((t, j)) => r == Ok((j, dst + |t|)) && buf[..] == Patch(old(buf[..]), o + dst, t)
            case Err(e) => r == Err(e) && buf[..] == old(buf[..])
  {
    hide Patch, Encode, SkipWhite, HexNumber;
    assert p + 1 < |b| && buf[o + p + 1] == b[p + 1];
    var c := buf[o + p + 1];
    if IsSimpleEscape(c) {
      WriteAt(buf, o + dst, [SimpleEscape(c)]);
      return Ok((p + 2, dst + 1));
    }
    var n := HexCount(c);
    if n > 0 {
      var code := ReadHex(buf, o, b, p + 2, n);
      if n > 2 && IsSurrogate(code) {
        return Err(BadUnicode);
      }
      var t := Encode(code);
      if t == None {
        return Err(BadUnicode);
      }
      WriteAt(buf, o + dst, t.value);
      return Ok((p + 2 + n, dst + |t.value|));
    }
    var m := SkipIn(buf, o, b, p + 1, false);
    var j := SkipIn(buf, o, b, m, true);
    PatchNothing(buf[..], o + dst);
    return Ok((j, dst));
  }

  /** What parse_norm must still find when it has written out and stands at p. */
  ghost predicate Pending(b: seq<byte>, p: nat, out: seq<byte>)
    requires p <= |b|
  {
    Unescape(b, 0) ==
    match Unescape(b, p)
    case Ok(r) => Ok(out + r)
    case Err(e) => Err(e)
  }

  lemma PendingPlain(b: seq<byte>, p: nat, out: seq<byte>)
    requires p < |b| && b[p] != 0 && b[p] != BACKSLASH && Pending(b, p, out)
    ensures Pending(b, p + 1, out + [b[p]])
  {
    if Unescape(b, p + 1).Ok? {
      var r := Unescape(b, p + 1).value;
      assert out + ([b[p]] + r) == out + [b[p]] + r;
    }
  }

  lemma PendingEscape(b: seq<byte>, p: nat, out: seq<byte>)
    requires p < |b| && b[p] == BACKSLASH && Pending(b, p, out)
    ensures var r := Escape(b, p);
            if r.Ok? then Pending(b, r.value.1, out + r.value.0) else Unescape(b, 0) == Err(r.error)
  {
    if Escape(b, p).Ok? {
      var (t, j) := Escape(b, p).value;
      if Unescape(b, j).Ok? {
        var r := Unescape(b, j).value;
        assert out + (t + r) == out + t + r;
      }
    }
  }

  lemma PendingEnd(b: seq<byte>, out: seq<byte>)
    requires Pending(b, |b|, out)
    ensures Unescape(b, 0) == Ok(out)
  {
    hide Escape;
    assert Unescape(b, |b|) == Ok([]);
    assert out + [] == out;
  }

  /** Before the first backslash there is nothing to do. */
  lemma {:induction false} PendingPrefix(b: seq<byte>, p: nat)
    requires p <= |b| && 0 !in b && BACKSLASH !in b[..p]
    ensures Pending(b, p, b[..p])
  {
    if p == 0 {
      PendingStart(b);
    } else {
      assert b[..p - 1] + [b[p - 1]] == b[..p];
      PendingPrefix(b, p - 1);
      PendingPlain(b, p - 1, b[..p - 1]);
    }
  }

  lemma PendingStart(b: seq<byte>)
    ensures Pending(b, 0, [])
  {
    if Unescape(b, 0).Ok? {
      assert [] + Unescape(b, 0).value == Unescape(b, 0).value;
    }
  }

  /** The loop invariant: s is the pool, s0 what it was, and both pointers are relative to o. */
  ghost predicate Midway(s: seq<byte>, s0: seq<byte>, o: nat, b: seq<byte>, p: nat, dst: nat) {
    && o + |b| < |s| == |s0| && dst <= p <= |b|
    && s[..o] == s0[..o] && s[o + |b| + 1..] == s0[o + |b| + 1..]
    && Unread(s, o, b, p)
    && Pending(b, p, s[o..o + dst])
  }

  lemma MidwayStart(s: seq<byte>, o: nat, b: seq<byte>, escp: nat)
    requires o + |b| < |s| && s[o..o + |b|] == b && s[o + |b|] == 0 && 0 !in b
    requires escp < |b| && BACKSLASH !in b[..escp]
    ensures Midway(s, s, o, b, escp, escp)
  {
    PendingPrefix(b, escp);
    assert forall k :: 0 <= k < |b| ==> b[k] == s[o..o + |b|][k] == s[o + k];
    assert s[o..o + escp] == s[o..o + |b|][..escp];
  }

  lemma MidwayPlain(s: seq<byte>, s0: seq<byte>, o: nat, b: seq<byte>, p: nat, dst: nat)
    requires Midway(s, s0, o, b, p, dst) && p < |b| && b[p] != 0 && b[p] != BACKSLASH
    ensures Midway(Patch(s, o + dst, [b[p]]), s0, o, b, p + 1, dst + 1)
  {
    hide Pending, Patch;
    PendingPlain(b, p, s[o..o + dst]);
    PatchReads(s, o, dst, [b[p]], o + |b| + 1);
  }

  lemma MidwayEscape(s: seq<byte>, s0: seq<byte>, o: nat, b: seq<byte>, p: nat, dst: nat)
    requires Midway(s, s0, o, b, p, dst) && p < |b| && b[p] == BACKSLASH
    ensures var r := Escape(b, p);
            if r.Ok?
            then dst + |r.value.0| <= |b|
                 && Midway(Patch(s, o + dst, r.value.0), s0, o, b, r.value.1, dst + |r.value.0|)
            else Unescape(b, 0) == Err(r.error)
    ensures Escape(b, p) == Err(Internal) ==> Unescape(b, 0) == Err(Internal)
  {
    hide Pending, Patch, Escape;
    PendingEscape(b, p, s[o..o + dst]);
    if Escape(b, p).Ok? {
      PatchReads(s, o, dst, Escape(b, p).value.0, o + |b| + 1);
    }
  }

  lemma MidwayEnd(s: seq<byte>, s0: seq<byte>, o: nat, b: seq<byte>, p: nat, dst: nat)
    requires Midway(s, s0, o, b, p, dst) && 0 !in b
    ensures s[o + p] == 0 <==> p == |b|
    ensures p < |b| ==> s[o + p] == b[p]
    ensures p == |b| ==> Unescape(b, 0) == Ok(s[o..o + dst])
  {
    hide Unescape, Pending;
    if p == |b| {
      PendingEnd(b, s[o..o + dst]);
    } else {
      assert b[p] in b;
    }
  }

  /** The two-pointer loop on the token b copied to offset o of the pool, started at its
      first backslash. It needs no byte beyond the token and its NUL, and leaves the rest of
      the pool alone. */
  method UnescapeInPlace(buf: array<byte>, o: nat, ghost b: seq<byte>, escp: nat) returns (r: Result<nat>)
    requires o + |b| < buf.Length && buf[o..o + |b|] == b && buf[o + |b|] == 0 && 0 !in b
    requires escp < |b| && BACKSLASH !in b[..escp] && b[escp] == BACKSLASH
    requires Unescape(b, 0) != Err(Internal)
    modifies buf
    ensures match Unescape(b, 0)
            case Ok(t) => r == Ok(|t|) && |t| <= |b| && buf[o..o + |t|] == t && buf[o + |t|] == 0
            case Err(e) => r == Err(e)
    ensures buf[..o] == old(buf[..o]) && buf[o + |b| + 1..] == old(buf[o + |b| + 1..])
  {
    hide Unescape, Escape, Patch, Pending;
    ghost var s0 := buf[..];
    MidwayStart(s0, o, b, escp);
    var p: nat, dst: nat := escp, escp;
    MidwayEnd(buf[..], s0, o, b, p, dst);
    while buf[o + p] != 0
      invariant dst <= p <= |b| && Midway(buf[..], s0, o, b, p, dst)
      decreases |b| - p
    {
      MidwayEnd(buf[..], s0, o, b, p, dst);
      if buf[o + p] != BACKSLASH {
        MidwayPlain(buf[..], s0, o, b, p, dst);
        WriteAt(buf, o + dst, [buf[o + p]]);
        dst := dst + 1;
        p := p + 1;
      } else {
        MidwayEscape(buf[..], s0, o, b, p, dst);
        EscapeBounds(b, p);
        var next := EscapeStep(buf, o, b, p, dst);
        if next.Err? {
          return Err(next.error);
        }
        p, dst := next.value.0, next.value.1;
      }
    }
    MidwayEnd(buf[..], s0, o, b, p, dst);
    buf[o + dst] := 0;
    return Ok(dst);
  }

  lemma EscapeBounds(b: seq<byte>, p: nat)
    requires p < |b| && b[p] == BACKSLASH
    ensures Escape(b, p).Ok? ==> p < Escape(b, p).value.1 <= |b| && p + |Escape(b, p).value.0| < Escape(b, p).value.1
  {}
}
