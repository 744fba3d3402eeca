/** UTF-8 coding: utf8_to_ucs, ucs_to_utf8 and the validation loop of toml_parse. */
module Utf8 {
  import opened Basics

  // A C expression such as 0xC0 | (code >> 6) joins disjoint bits; it is written
  // here as the sum 0xC0 + code / 64, a mask x & 0x3F as x % 64, and a shift by 12
  // or 18 bits as two or three shifts by 6.

  const MAX_CODE := 0x1FFFFF

  /** ucs_to_utf8. */
  function Encode(code: nat): (r: Option<seq<byte>>)
    ensures r.Some? <==> code <= MAX_CODE
    ensures r.Some? ==> 1 <= |r.value| <= 4
  {
    if code <= 0x7F then Some([code])
    else if code <= 0x7FF then Some([0xC0 + code / 64, 0x80 + code % 64])
    else if code <= 0xFFFF then Some([0xE0 + code / 64 / 64, 0x80 + code / 64 % 64, 0x80 + code % 64])
    else if code <= MAX_CODE then
      Some([0xF0 + code / 64 / 64 / 64, 0x80 + code / 64 / 64 % 64, 0x80 + code / 64 % 64, 0x80 + code % 64])
    else None
  }

  /** What the lead byte announces: the length of the form and the bits it holds itself. */
  function Lead(b: byte): (r: Option<(nat, nat)>)
    ensures r.Some? ==> 1 <= r.value.0 <= 4
  {
    if b / 128 == 0 then Some((1, b))
    else if b / 32 == 0x6 then Some((2, b % 32))
    else if b / 16 == 0xE then Some((3, b % 16))
    else if b / 8 == 0x1E then Some((4, b % 8))
    else None
  }

  /** v continued by the n bytes of s at i, each of which must be 10xxxxxx. */
  function Continue(s: seq<byte>, i: nat, n: nat, v: nat): Option<nat>
    requires i + n <= |s|
    decreases n
  {
    if n == 0 then Some(v)
    else if s[i] / 64 != 0x2 then None
    else Continue(s, i + 1, n - 1, v * 64 + s[i] % 64)
  }

  /** utf8_to_ucs at position i of s: the code and the number of bytes it takes. */
  function Decode(s: seq<byte>, i: nat): (r: Option<(nat, nat)>)
    requires i < |s|
    ensures r.Some? ==> 1 <= r.value.1 <= 4 && i + r.value.1 <= |s|
  {
    var (n, v) :- Lead(s[i]);
    if |s| - i < n then None
    else
      var code :- Continue(s, i + 1, n - 1, v);
      Some((code, n))
  }

  method Utf8ToUcs(s: seq<byte>, i: nat) returns (r: Option<(nat, nat)>)
    requires i < |s|
    ensures r == Decode(s, i)
  {
    var lead := Lead(s[i]);
    if lead == None {
      return None;
    }
    var n: nat, v: nat := lead.value.0, lead.value.1;
    if |s| - i < n {
      return None;
    }
    var j := 1;
    while j < n
      invariant 1 <= j <= n
      invariant Continue(s, i + j, n - j, v) == Continue(s, i + 1, n - 1, lead.value.1)
    {
      var b := s[i + j];
      if b / 64 != 0x2 {
        return None;
      }
      v := v * 64 + b % 64;
      j := j + 1;
    }
    return Some((v, n));
  }

  predicate IsSurrogate(code: nat) { 0xD800 <= code <= 0xDFFF }

  /** Does the check_utf8 loop, started at i, reach the end of s? */
  predicate ValidFrom(s: seq<byte>, i: nat)
    requires i <= |s|
    decreases |s| - i
  {
    if i == |s| then true
    else
      match Decode(s, i)
      case None => false
      case Some((code, n)) => !IsSurrogate(code) && ValidFrom(s, i + n)
  }

  /** The loop of toml_parse that runs when check_utf8 is set. */
  method CheckUtf8(s: seq<byte>) returns (ok: bool)
    ensures ok == ValidFrom(s, 0)
  {
    var i := 0;
    while i < |s|
      invariant 0 <= i <= |s|
      invariant ValidFrom(s, i) == ValidFrom(s, 0)
    {
      var r := Utf8ToUcs(s, i);
      if r == None || IsSurrogate(r.value.0) {
        return false;
      }
      i := i + r.value.1;
    }
    return true;
  }

  // ---------- reference: the bit layouts of section 3 of RFC 3629

  /** The number of codes a form of n bytes has room for. */
  function Room(n: nat): nat {
    if n == 1 then 0x80 else if n == 2 then 0x800 else if n == 3 then 0x10000
    else if n == 4 then 0x200000 else 0
  }

  /** code laid out in exactly n bytes, shortest or not. */
  function Form(code: nat, n: nat): (t: seq<byte>)
    requires code < Room(n)
    ensures |t| == n
  {
    if n == 1 then [code]
    else if n == 2 then [0xC0 + code / 64, 0x80 + code % 64]
    else if n == 3 then [0xE0 + code / 64 / 64, 0x80 + code / 64 % 64, 0x80 + code % 64]
    else [0xF0 + code / 64 / 64 / 64, 0x80 + code / 64 / 64 % 64, 0x80 + code / 64 % 64, 0x80 + code % 64]
  }

  /** One round of Continue on the byte that carries the low six bits of x. */
  lemma ContinueWith(s: seq<byte>, i: nat, n: nat, x: nat)
    requires n > 0 && i + n <= |s| && s[i] == 0x80 + x % 64
    ensures Continue(s, i, n, x / 64) == Continue(s, i + 1, n - 1, x)
  {
    assert s[i] / 64 == 2 && s[i] % 64 == x % 64;
    assert x / 64 * 64 + x % 64 == x;
  }

  /** Decoding inverts every layout, wherever it stands in a string. */
  lemma DecodeOfForm(code: nat, n: nat, s: seq<byte>, i: nat)
    requires code < Room(n) && i + n <= |s| && s[i..i + n] == Form(code, n)
    ensures Decode(s, i) == Some((code, n))
  {
    FormLead(code, n);
    var t := Form(code, n);
    assert forall j :: 0 <= j < n ==> s[i + j] == t[j];
    if n == 2 {
      ContinueWith(s, i + 1, 1, code);
    } else if n == 3 {
      ContinueWith(s, i + 1, 2, code / 64);
      ContinueWith(s, i + 2, 1, code);
    } else if n == 4 {
      ContinueWith(s, i + 1, 3, code / 64 / 64);
      ContinueWith(s, i + 2, 2, code / 64);
      ContinueWith(s, i + 3, 1, code);
    }
  }

  /** The lead byte of a layout announces its length and the bits above the others. */
  lemma FormLead(code: nat, n: nat)
    requires code < Room(n)
    ensures Lead(Form(code, n)[0]) ==
            Some((n, if n == 1 then code else if n == 2 then code / 64
                     else if n == 3 then code / 64 / 64 else code / 64 / 64 / 64))
  {}

  /** A continuation byte appends its six bits to v. */
  lemma ContinueStep(s: seq<byte>, i: nat, n: nat, v: nat) returns (w: nat)
    requires n > 0 && i + n <= |s| && Continue(s, i, n, v).Some?
    ensures Continue(s, i, n, v) == Continue(s, i + 1, n - 1, w)
    ensures w / 64 == v && s[i] == 0x80 + w % 64
  {
    w := v * 64 + s[i] % 64;
    assert w / 64 == v && w % 64 == s[i] % 64;
  }

  /** The continuation bytes of a code, six bits each. */
  lemma {:induction false} FormContinued(s: seq<byte>, i: nat, n: nat, v: nat, code: nat)
    requires 2 <= n <= 4 && i + n <= |s| && Continue(s, i + 1, n - 1, v) == Some(code)
    ensures s[i + n - 1] == 0x80 + code % 64
    ensures n >= 3 ==> s[i + n - 2] == 0x80 + code / 64 % 64
    ensures n == 4 ==> s[i + n - 3] == 0x80 + code / 64 / 64 % 64
    ensures v == if n == 2 then code / 64 else if n == 3 then code / 64 / 64 else code / 64 / 64 / 64
  {
    var v1 := ContinueStep(s, i + 1, n - 1, v);
    if n >= 3 {
      var v2 := ContinueStep(s, i + 2, n - 2, v1);
      if n >= 4 {
        var v3 := ContinueStep(s, i + 3, n - 3, v2);
      }
    }
  }

  /** Whatever the decoder accepts is a layout of the code it returns. */
  lemma {:induction false} FormOfDecode(s: seq<byte>, i: nat)
    requires i < |s| && Decode(s, i).Some?
    ensures var (code, n) := Decode(s, i).value; code < Room(n) && s[i..i + n] == Form(code, n)
  {
    var (code, n) := Decode(s, i).value;
    var v := Lead(s[i]).value.1;
    if n >= 2 {
      FormContinued(s, i, n, v, code);
      hide Continue;
    }
    assert forall j :: 0 <= j < n ==> s[i..i + n][j] == s[i + j] == Form(code, n)[j];
  }

  // ---------- the three promises

  /** Decoding inverts the encoder, wherever its bytes stand. */
  lemma {:induction false} DecodeAt(code: nat, s: seq<byte>, i: nat)
    requires code <= MAX_CODE
    requires var t := Encode(code).value; i + |t| <= |s| && s[i..i + |t|] == t
    ensures Decode(s, i) == Some((code, |Encode(code).value|))
  {
    DecodeOfForm(code, |Encode(code).value|, s, i);
  }

  lemma DecodeEncode(code: nat, before: seq<byte>, after: seq<byte>)
    requires code <= MAX_CODE
    ensures var t := Encode(code).value;
            Decode(before + t + after, |before|) == Some((code, |t|))
  {
    var t := Encode(code).value;
    var s := before + t + after;
    assert s[|before|..|before| + |t|] == t;
    DecodeAt(code, s, |before|);
  }

  /** The encoder picks the shortest layout, and a decodable string is the encoder's
      own exactly when it has that length. */
  lemma EncodeIsShortest(code: nat, t: seq<byte>)
    requires code <= MAX_CODE && t != [] && Decode(t, 0) == Some((code, |t|))
    ensures |Encode(code).value| <= |t|
    ensures t == Encode(code).value <==> |t| == |Encode(code).value|
  {
    FormOfDecode(t, 0);
    assert t[0..|t|] == t;
  }

  datatype RawUnit = Unit(code: nat, n: nat)

  /** A non-surrogate code laid out in a given number of bytes. */
  type Unit = u: RawUnit | u.code < Room(u.n) && !IsSurrogate(u.code) witness Unit(0, 1)

  ghost function Layout(us: seq<Unit>): seq<byte>
  {
    if us == [] then [] else Form(us[0].code, us[0].n) + Layout(us[1..])
  }

  lemma {:induction false} LayoutIsValid(us: seq<Unit>, s: seq<byte>, i: nat)
    requires i <= |s| && s[i..] == Layout(us)
    ensures ValidFrom(s, i)
  {
    if us != [] {
      Cut(s, i, Form(us[0].code, us[0].n), Layout(us[1..]));
      DecodeOfForm(us[0].code, us[0].n, s, i);
      LayoutIsValid(us[1..], s, i + us[0].n);
    }
  }

  lemma {:induction false} ValidIsLayout(s: seq<byte>, i: nat) returns (us: seq<Unit>)
    requires i <= |s| && ValidFrom(s, i)
    ensures s[i..] == Layout(us)
    decreases |s| - i
  {
    if i == |s| {
      us := [];
    } else {
      FormOfDecode(s, i);
      var (code, n) := Decode(s, i).value;
      var rest := ValidIsLayout(s, i + n);
      us := [Unit(code, n)] + rest;
      assert us[1..] == rest;
      assert s[i..] == s[i..i + n] + s[i + n..];
    }
  }

  /** The validation loop accepts exactly the concatenations of layouts of
      non-surrogate codes, shortest or not. */
  lemma ValidExactly(s: seq<byte>)
    ensures ValidFrom(s, 0) <==> exists us: seq<Unit> :: s == Layout(us)
  {
    assert s[0..] == s;
    if ValidFrom(s, 0) {
      var us := ValidIsLayout(s, 0);
    }
    if us: seq<Unit> :| s == Layout(us) {
      LayoutIsValid(us, s, 0);
    }
  }

  ghost function EncodeAll(codes: seq<nat>): seq<byte>
    requires forall j :: 0 <= j < |codes| ==> codes[j] <= MAX_CODE
  {
    if codes == [] then [] else Encode(codes[0]).value + EncodeAll(codes[1..])
  }

  lemma {:induction false} ValidOn(s: seq<byte>, i: nat)
    requires i < |s| && Decode(s, i).Some? && !IsSurrogate(Decode(s, i).value.0)
    ensures ValidFrom(s, i) == ValidFrom(s, i + Decode(s, i).value.1)
  {
    hide Decode;
  }

  lemma {:induction false} ValidAtEnd(s: seq<byte>)
    ensures ValidFrom(s, |s|)
  {}

  lemma {:induction false} EncodingsAreValidFrom(codes: seq<nat>, s: seq<byte>, i: nat)
    requires forall j :: 0 <= j < |codes| ==> codes[j] <= MAX_CODE && !IsSurrogate(codes[j])
    requires i <= |s| && s[i..] == EncodeAll(codes)
    ensures ValidFrom(s, i)
  {
    hide Decode, Encode, ValidFrom;
    if codes == [] {
      ValidAtEnd(s);
    } else {
      var t := Encode(codes[0]).value;
      Cut(s, i, t, EncodeAll(codes[1..]));
      DecodeAt(codes[0], s, i);
      ValidOn(s, i);
      EncodingsAreValidFrom(codes[1..], s, i + |t|);
    }
  }

  /** Any string written by the encoder from non-surrogate codes passes. */
  lemma EncodingsAreValid(codes: seq<nat>)
    requires forall j :: 0 <= j < |codes| ==> codes[j] <= MAX_CODE && !IsSurrogate(codes[j])
    ensures ValidFrom(EncodeAll(codes), 0)
  {
    EncodingsAreValidFrom(codes, EncodeAll(codes), 0);
  }
}
