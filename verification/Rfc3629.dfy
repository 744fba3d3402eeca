/** The validation loop against RFC 3629: which of the texts that pass the standard does not allow. */
module Rfc3629 {
  import opened Basics
  import opened Utf8

  /** A character of section 3: up to U+10FFFF, and no surrogate. */
  type Code = c: nat | c <= 0x10FFFF && !IsSurrogate(c)

  /** A sequence of encoded characters. */
  ghost predicate IsUtf8(s: seq<byte>) { exists codes: seq<Code> :: s == EncodeAll(codes) }

  // ---------- at the positions where the loop stops

  /** The loop, started at i, comes to k. */
  ghost predicate Reaches(s: seq<byte>, i: nat, k: nat)
    requires i <= |s|
    decreases |s| - i
  {
    i == k || (i < |s| && Decode(s, i).Some? && Reaches(s, i + Decode(s, i).value.1, k))
  }

  /** What stands at k is a character in its shortest form. */
  ghost predicate Proper(s: seq<byte>, k: nat)
    requires k < |s|
  {
    var r := Decode(s, k);
    r.Some? && r.value.0 <= 0x10FFFF && r.value.1 == |Encode(r.value.0).value|
  }

  ghost predicate ProperFrom(s: seq<byte>, i: nat)
    requires i <= |s|
  {
    forall k :: i <= k < |s| && Reaches(s, i, k) ==> Proper(s, k)
  }

  lemma {:induction false} ReachesOn(s: seq<byte>, i: nat, k: nat)
    requires i < |s| && Decode(s, i).Some?
    ensures var n := Decode(s, i).value.1; Reaches(s, i, k) <==> i == k || Reaches(s, i + n, k)
  {
    hide Decode;
  }

  lemma {:induction false} ReachesForward(s: seq<byte>, i: nat, k: nat)
    requires i <= |s| && Reaches(s, i, k)
    ensures i <= k
    decreases |s| - i
  {
    hide Decode;
    if i != k {
      ReachesForward(s, i + Decode(s, i).value.1, k);
    }
  }

  /** One more character in front. */
  lemma {:induction false} ProperNext(s: seq<byte>, i: nat)
    requires i < |s| && Decode(s, i).Some?
    ensures ProperFrom(s, i) <==> Proper(s, i) && ProperFrom(s, i + Decode(s, i).value.1)
  {
    hide Decode, Proper, Reaches;
    var n := Decode(s, i).value.1;
    forall k: nat ensures Reaches(s, i, k) <==> i == k || Reaches(s, i + n, k) {
      ReachesOn(s, i, k);
    }
    ReachesOn(s, i, i);
    var j := i + n;
    forall k: nat | Reaches(s, j, k) ensures j <= k {
      ReachesForward(s, j, k);
    }
  }

  /** The first character of an encoded text. */
  lemma {:induction false} FirstEncoded(codes: seq<Code>, s: seq<byte>, i: nat)
    requires codes != [] && i <= |s| && s[i..] == EncodeAll(codes)
    ensures var t := Encode(codes[0]).value;
            && i < |s| && i + |t| <= |s| && s[i + |t|..] == EncodeAll(codes[1..])
            && Decode(s, i) == Some((codes[0], |t|))
  {
    hide Decode, Encode;
    var t := Encode(codes[0]).value;
    Cut(s, i, t, EncodeAll(codes[1..]));
    DecodeAt(codes[0], s, i);
  }

  lemma {:induction false} EncodedIsProper(codes: seq<Code>, s: seq<byte>, i: nat)
    requires i <= |s| && s[i..] == EncodeAll(codes)
    ensures ValidFrom(s, i) && ProperFrom(s, i)
    decreases |codes|
  {
    hide ProperFrom, Decode, Encode, ValidFrom, EncodeAll;
    if codes == [] {
      NothingEncoded(codes);
      AtTheEnd(s);
    } else {
      FirstEncoded(codes, s, i);
      EncodedIsProper(codes[1..], s, i + |Encode(codes[0]).value|);
      ProperNext(s, i);
      ValidNext(s, i);
    }
  }

  lemma {:induction false} NothingEncoded(codes: seq<Code>)
    requires codes == []
    ensures EncodeAll(codes) == []
  {}

  lemma {:induction false} AtTheEnd(s: seq<byte>)
    ensures ValidFrom(s, |s|) && ProperFrom(s, |s|)
  {}

  lemma {:induction false} ValidNext(s: seq<byte>, i: nat)
    requires i < |s| && Decode(s, i).Some? && !IsSurrogate(Decode(s, i).value.0)
    requires ValidFrom(s, i + Decode(s, i).value.1)
    ensures ValidFrom(s, i)
  {
    hide Decode, IsSurrogate;
  }

  lemma {:induction false} ProperIsShortest(s: seq<byte>, i: nat)
    requires i < |s| && Proper(s, i)
    ensures var (code, n) := Decode(s, i).value; s[i..i + n] == Encode(code).value
  {
    FormOfDecode(s, i);
  }

  lemma {:induction false} MoreEncoded(code: Code, rest: seq<Code>, s: seq<byte>, i: nat)
    requires var t := Encode(code).value;
             i + |t| <= |s| && s[i..i + |t|] == t && s[i + |t|..] == EncodeAll(rest)
    ensures s[i..] == EncodeAll([code] + rest)
  {
    hide Encode;
    var n := |Encode(code).value|;
    assert ([code] + rest)[1..] == rest;
    assert s[i..] == s[i..i + n] + s[i + n..];
  }

  lemma {:induction false} ProperIsEncoded(s: seq<byte>, i: nat) returns (codes: seq<Code>)
    requires i <= |s| && ValidFrom(s, i) && ProperFrom(s, i)
    ensures s[i..] == EncodeAll(codes)
    decreases |s| - i
  {
    codes := [];
    if i < |s| {
      hide Decode, ProperFrom, Encode, Form, EncodeAll, IsSurrogate;
      var (code, n) := Decode(s, i).value;
      ProperNext(s, i);
      ProperIsShortest(s, i);
      var rest := ProperIsEncoded(s, i + n);
      codes := [code] + rest;
      MoreEncoded(code, rest, s, i);
    }
  }

  /** Text is UTF-8 in the sense of the standard exactly when the loop accepts it and finds, at
      every position where it stops, a code up to U+10FFFF in its shortest form. */
  lemma {:induction false} Utf8Exactly(s: seq<byte>)
    ensures IsUtf8(s) <==> ValidFrom(s, 0) && ProperFrom(s, 0)
  {
    assert s[0..] == s;
    hide ValidFrom, ProperFrom, EncodeAll;
    if codes: seq<Code> :| s == EncodeAll(codes) {
      EncodedIsProper(codes, s, 0);
    }
    if ValidFrom(s, 0) && ProperFrom(s, 0) {
      var codes := ProperIsEncoded(s, 0);
    }
  }

  // ---------- by looking at bytes

  /** A byte that section 4 never allows, or a second byte that it does not allow there. */
  predicate Departs(s: seq<byte>, k: nat)
    requires k < |s|
  {
    || s[k] == 0xC0 || s[k] == 0xC1 || s[k] >= 0xF5
    || (k + 1 < |s| && s[k] == 0xE0 && s[k + 1] < 0xA0)
    || (k + 1 < |s| && s[k] == 0xF0 && s[k + 1] < 0x90)
    || (k + 1 < |s| && s[k] == 0xF4 && s[k + 1] >= 0x90)
  }

  lemma {:induction false} FormDeparts(code: nat, n: nat, s: seq<byte>, k: nat)
    requires code < Room(n) && k + n <= |s| && s[k..k + n] == Form(code, n)
    ensures Departs(s, k) <==> code > 0x10FFFF || n != |Encode(code).value|
  {
    assert forall j :: 0 <= j < n ==> s[k + j] == Form(code, n)[j];
    assert s[k] == Form(code, n)[0] && (n > 1 ==> s[k + 1] == Form(code, n)[1]);
    FirstBytes(code, n);
  }

  /** What the first two bytes of a form tell. */
  lemma {:induction false} FirstBytes(code: nat, n: nat)
    requires code < Room(n)
    ensures var t := Form(code, n);
            && (n == 1 ==> t[0] < 0x80)
            && (n == 2 ==> 0xC0 <= t[0] < 0xE0 && (t[0] < 0xC2 <==> code < 0x80))
            && (n == 3 ==> 0xE0 <= t[0] < 0xF0 && (t[0] == 0xE0 && t[1] < 0xA0 <==> code < 0x800))
            && (n == 4 ==> 0xF0 <= t[0] < 0xF8 && (t[0] == 0xF0 && t[1] < 0x90 <==> code < 0x10000)
                           && (t[0] >= 0xF5 || (t[0] == 0xF4 && t[1] >= 0x90) <==> code > 0x10FFFF))
  {}

  lemma {:induction false} UnitDeparts(s: seq<byte>, k: nat)
    requires k < |s| && Decode(s, k).Some?
    ensures var n := Decode(s, k).value.1;
            && (Departs(s, k) <==> !Proper(s, k))
            && forall j :: k < j < k + n ==> !Departs(s, j)
  {
    var (code, n) := Decode(s, k).value;
    FormOfDecode(s, k);
    FormDeparts(code, n, s, k);
    forall j | k < j < k + n ensures s[j] < 0xC0 {
      assert s[j] == Form(code, n)[j - k];
    }
  }

  lemma {:induction false} ProperByBytes(s: seq<byte>, i: nat)
    requires i <= |s| && ValidFrom(s, i)
    ensures ProperFrom(s, i) <==> forall k :: i <= k < |s| ==> !Departs(s, k)
    decreases |s| - i
  {
    if i < |s| {
      var n := Decode(s, i).value.1;
      ProperNext(s, i);
      UnitDeparts(s, i);
      ProperByBytes(s, i + n);
      hide Decode, ProperFrom, Proper, Departs, ValidFrom;
    }
  }

  /** A test of the bytes of a text that has passed: exactly those with a byte C0, C1 or F5 and
      above, with E0 before a byte below A0, F0 before one below 90, or F4 before one from 90
      on, pass although the standard does not allow them. */
  lemma {:induction false} AcceptedDeparts(s: seq<byte>)
    requires ValidFrom(s, 0)
    ensures IsUtf8(s) <==> forall k :: 0 <= k < |s| ==> !Departs(s, k)
  {
    Utf8Exactly(s);
    ProperByBytes(s, 0);
  }

  /** Two such texts: an overlong NUL, and a code above U+10FFFF. */
  lemma {:induction false} OverlongAccepted()
    ensures ValidFrom([0xC0, 0x80], 0) && !IsUtf8([0xC0, 0x80])
    ensures ValidFrom([0xF4, 0x90, 0x80, 0x80], 0) && !IsUtf8([0xF4, 0x90, 0x80, 0x80])
  {
    LayoutIsValid([Unit(0, 2)], [0xC0, 0x80], 0);
    var s: seq<byte> := [0xF4, 0x90, 0x80, 0x80];
    assert Form(0x110000, 4) == s;
    LayoutIsValid([Unit(0x110000, 4)], s, 0);
    hide ValidFrom, IsUtf8;
    AcceptedDeparts([0xC0, 0x80]);
    AcceptedDeparts(s);
    assert Departs([0xC0, 0x80], 0) && Departs(s, 0);
  }
}
