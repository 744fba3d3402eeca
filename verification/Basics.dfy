/** Bytes, character classes and the error type shared by the TOML modules. */
module Basics {

  type byte = x: int | 0 <= x < 256

  /** The key of a table, or the text of a string value. */
  type Text = seq<byte>

  datatype Option<+T> = None | Some(value: T) {
    predicate IsFailure() { None? }

    function PropagateFailure<U>(): Option<U>
      requires None?
    { None }

    function Extract(): T
      requires Some?
    { value }
  }

  /** One constructor per kind of refusal; the wording of messages is not modelled. */
  datatype Error =
    | OutOfMemory      // the string pool is exhausted
    | Internal         // a branch the code itself calls "internal", or calls impossible
    | BadUnicode       // an escape naming a surrogate or a code above 0x1FFFFF
    | Lexical          // the scanner cannot form a token
    | StackOverflow    // too many open brackets or braces
    | Syntax           // an unexpected token
    | TooManyKeyParts
    | NotATable        // a key part names something that cannot be descended into
    | Inlined          // an inline table or array cannot be extended
    | Redefined        // a table is defined a second time
    | DuplicateKey
    | TooLarge         // a table or an array is full

  datatype Result<+T> = Ok(value: T) | Err(error: Error) {
    predicate IsFailure() { Err? }

    function PropagateFailure<U>(): Result<U>
      requires Err?
    { Err(error) }

    function Extract(): T
      requires Ok?
    { value }
  }

  const INT32_MAX := 0x7FFF_FFFF

  const TAB: byte := 9
  const LF: byte := 10
  const CR: byte := 13
  const SPACE: byte := 32
  const QUOTE: byte := 34
  const APOSTROPHE: byte := 39
  const OPEN: byte := 91
  const BACKSLASH: byte := 92
  const CLOSE: byte := 93
  const UNDERSCORE: byte := 95

  predicate IsDigit(c: int) { 48 <= c <= 57 }

  predicate IsUpper(c: int) { 65 <= c <= 90 }

  predicate IsLower(c: int) { 97 <= c <= 122 }

  predicate IsHex(c: int) { IsDigit(c) || 65 <= c <= 70 || 97 <= c <= 102 }

  /** A character of a bare key. */
  predicate IsBare(c: int) {
    IsDigit(c) || IsUpper(c) || IsLower(c) || c == UNDERSCORE || c == 45
  }

  /** isprint(c), or a byte above 0x7F. */
  predicate IsValidChar(c: int) { 32 <= c <= 126 || 128 <= c }

  function HexValue(c: byte): (v: nat)
    requires IsHex(c)
    ensures v < 16
  {
    if IsDigit(c) then c - 48 else if c >= 97 then c - 87 else c - 55
  }

  function Pow10(n: nat): nat { if n == 0 then 1 else 10 * Pow10(n - 1) }

  function ToLower(c: byte): byte { if IsUpper(c) then c + 32 else c }

  /** The bytes of a plain ASCII text. */
  function Ascii(s: string): (t: Text)
    ensures |t| == |s| && 0 !in t
    ensures forall i :: 0 <= i < |s| ==> t[i] == Letter(s[i])
  {
    seq(|s|, i requires 0 <= i < |s| => Letter(s[i]))
  }

  function Letter(c: char): (b: byte)
    ensures b != 0
  {
    if 0 < c as int < 128 then c as int else 63
  }

  /** The bytes of s before its first NUL: the string a C function sees. */
  function CStr(s: seq<byte>): (r: seq<byte>)
    ensures |r| <= |s| && r == s[..|r|] && 0 !in r
    ensures |r| < |s| ==> s[|r|] == 0
  {
    if s == [] || s[0] == 0 then [] else [s[0]] + CStr(s[1..])
  }

  /** A text without NUL is seen whole, and no other. */
  lemma {:induction false} CStrPlain(t: Text)
    ensures CStr(t) == t <==> 0 !in t
  {
    if t != [] && t[0] != 0 {
      CStrPlain(t[1..]);
      assert t == [t[0]] + t[1..];
    }
  }

  /** Taking apart a suffix that is known to be a concatenation. */
  lemma Cut<T>(s: seq<T>, i: nat, t: seq<T>, r: seq<T>)
    requires i <= |s| && s[i..] == t + r
    ensures i + |t| <= |s| && s[i..i + |t|] == t && s[i + |t|..] == r
  {
    assert |s| - i == |t| + |r|;
    assert forall j :: 0 <= j < |t| ==> s[i + j] == s[i..][j] == t[j];
    assert forall j :: 0 <= j < |r| ==> s[i + |t| + j] == s[i..][|t| + j] == r[j];
  }

  lemma SliceAt<T>(s: seq<T>, i: nat, t: seq<T>, k: nat)
    requires i + |t| <= |s| && s[i..i + |t|] == t && k < |t|
    ensures s[i + k] == t[k]
  {
    assert s[i..i + |t|][k] == s[i + k];
  }

  lemma Around<T>(s: seq<T>, k: nat)
    requires k < |s|
    ensures s[..k] + [s[k]] + s[k + 1..] == s
  {}

  lemma Shorter<T>(s: seq<T>, n: nat, m: nat)
    requires m <= n <= |s|
    ensures s[..n][..m] == s[..m]
  {}

  lemma Assoc<T>(a: seq<T>, b: seq<T>, c: seq<T>)
    ensures a + b + c == a + (b + c)
  {}

  /** t stands at position i of src. */
  ghost predicate Stands(src: seq<byte>, i: nat, t: seq<byte>) {
    i + |t| <= |src| && src[i..i + |t|] == t
  }

  lemma StandsTwo(src: seq<byte>, i: nat, a: seq<byte>, b: seq<byte>)
    ensures Stands(src, i, a + b) <==> Stands(src, i, a) && Stands(src, i + |a|, b)
  {
    if i + |a + b| <= |src| {
      assert src[i..i + |a + b|] == src[i..i + |a|] + src[i + |a|..i + |a| + |b|];
      assert (a + b)[..|a|] == a && (a + b)[|a|..] == b;
    }
  }

  lemma StandsOne(src: seq<byte>, i: nat, c: byte)
    ensures Stands(src, i, [c]) <==> i < |src| && src[i] == c
  {
    if i < |src| {
      assert src[i..i + 1] == [src[i]];
    }
  }

  /** The first byte of a text, and the others. */
  lemma StandsFirst(src: seq<byte>, i: nat, t: seq<byte>)
    requires t != []
    ensures Stands(src, i, t) <==> i < |src| && src[i] == t[0] && Stands(src, i + 1, t[1..])
  {
    StandsTwo(src, i, [t[0]], t[1..]);
    StandsOne(src, i, t[0]);
    assert t == [t[0]] + t[1..];
  }

  lemma StandsAt(src: seq<byte>, i: nat, t: seq<byte>, k: nat)
    requires Stands(src, i, t) && k < |t|
    ensures i + k < |src| && src[i + k] == t[k]
  {
    SliceAt(src, i, t, k);
  }

  lemma StandsLength(src: seq<byte>, i: nat, t: seq<byte>)
    requires Stands(src, i, t)
    ensures i + |t| <= |src|
  {}

  /** What stands where a text was cut out. */
  lemma StandsCut(src: seq<byte>, i: nat, j: nat)
    requires i <= j <= |src|
    ensures Stands(src, i, src[i..j])
  {}

  lemma InRest<T>(w: seq<T>)
    requires w != []
    ensures w[0] in w && forall c :: c in w[1..] ==> c in w
  {
    forall c | c in w[1..] ensures c in w {
      var i :| 0 <= i < |w[1..]| && w[1..][i] == c;
      assert w[i + 1] == c;
    }
  }
}
