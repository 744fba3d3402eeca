/** Valid text can be cut at every byte that is no continuation, and put together again. */
module Utf8Cuts {
  import opened Basics
  import opened Utf8

  /** The validation loop accepts all of t. */
  ghost predicate Valid(t: seq<byte>) { ValidFrom(t, 0) }

  predicate IsContinuation(c: int) { 0x80 <= c < 0xC0 }

  lemma {:induction false} LayoutJoins(us: seq<Unit>, vs: seq<Unit>)
    ensures Layout(us + vs) == Layout(us) + Layout(vs)
  {
    if us == [] {
      assert us + vs == vs;
    } else {
      assert (us + vs)[0] == us[0] && (us + vs)[1..] == us[1..] + vs;
      LayoutJoins(us[1..], vs);
    }
  }

  lemma {:induction false} JoinValid(a: seq<byte>, b: seq<byte>)
    requires Valid(a) && Valid(b)
    ensures Valid(a + b)
  {
    hide ValidFrom, Layout;
    ValidExactly(a);
    ValidExactly(b);
    var us: seq<Unit> :| a == Layout(us);
    var vs: seq<Unit> :| b == Layout(vs);
    LayoutJoins(us, vs);
    ValidExactly(a + b);
  }

  lemma {:induction false} UnitValid(code: nat, n: nat)
    requires code < Room(n) && !IsSurrogate(code)
    ensures Valid(Form(code, n))
  {
    var us: seq<Unit> := [Unit(code, n)];
    assert us[1..] == [] && Form(code, n) + [] == Form(code, n);
    assert Layout(us) == Form(code, n);
    hide Layout, Form, ValidFrom;
    ValidExactly(Form(code, n));
  }

  lemma {:induction false} AsciiValid(c: byte)
    requires c < 0x80
    ensures Valid([c])
  {
    UnitValid(c, 1);
  }

  /** The loop does not care what stands before the place where it starts. */
  lemma {:induction false} TailValid(t: seq<byte>, k: nat)
    requires k <= |t| && ValidFrom(t, k)
    ensures Valid(t[k..])
  {
    hide ValidFrom, Layout;
    var us := ValidIsLayout(t, k);
    assert t[k..][0..] == t[k..];
    LayoutIsValid(us, t[k..], 0);
  }

  /** The first unit of valid text: no byte but its first could start a cut, and what follows
      is valid. */
  lemma {:induction false} FirstUnit(t: seq<byte>) returns (n: nat)
    requires Valid(t) && t != []
    ensures 1 <= n <= |t| && Valid(t[..n]) && Valid(t[n..])
    ensures forall k :: 1 <= k < n ==> IsContinuation(t[k])
    ensures if t[0] < 0x80 then n == 1 else forall k :: 0 <= k < n ==> t[k] >= 0x80
  {
    var code := Decode(t, 0).value.0;
    n := Decode(t, 0).value.1;
    FormOfDecode(t, 0);
    FormBytes(code, n);
    assert forall k :: 0 <= k < n ==> t[k] == t[0..0 + n][k] == Form(code, n)[k];
    assert t[..n] == t[0..0 + n];
    TailValid(t, n);
    hide Form, ValidFrom;
    UnitValid(code, n);
  }

  lemma {:induction false} FormBytes(code: nat, n: nat)
    requires code < Room(n)
    ensures forall k :: 1 <= k < n ==> IsContinuation(Form(code, n)[k])
    ensures if n == 1 then Form(code, n)[0] < 0x80 else Form(code, n)[0] >= 0xC0
  {}

  /** Text can be cut in front of any byte that is no continuation. */
  lemma {:induction false} CutValid(t: seq<byte>, k: nat)
    requires Valid(t) && k <= |t| && (k < |t| ==> !IsContinuation(t[k]))
    ensures Valid(t[..k]) && Valid(t[k..])
    decreases |t|
  {
    if k == 0 {
      assert t[0..] == t && t[..0] == [];
    } else {
      hide ValidFrom;
      var n := FirstUnit(t);
      assert n <= k;
      var u := t[n..];
      CutValid(u, k - n);
      assert u[..k - n] == t[n..k] && u[k - n..] == t[k..];
      assert t[..k] == t[..n] + t[n..k];
      JoinValid(t[..n], u[..k - n]);
    }
  }

  /** And right behind an ASCII character. */
  lemma {:induction false} CutBehindAscii(t: seq<byte>, k: nat)
    requires Valid(t) && k < |t| && t[k] < 0x80
    ensures Valid(t[k + 1..])
  {
    hide ValidFrom;
    CutValid(t, k);
    var n := FirstUnit(t[k..]);
    assert t[k..][1..] == t[k + 1..];
  }

  /** Behind any number of them. */
  lemma {:induction false} CutBehindRun(t: seq<byte>, i: nat, j: nat)
    requires i <= j <= |t| && Valid(t[i..]) && forall k :: i <= k < j ==> t[k] < 0x80
    ensures Valid(t[j..])
    decreases j - i
  {
    hide ValidFrom;
    if i < j {
      CutBehindAscii(t[i..], 0);
      assert t[i..][1..] == t[i + 1..];
      CutBehindRun(t, i + 1, j);
    }
  }

  /** A piece of valid text between ASCII characters, or one that is all ASCII. */
  lemma {:induction false} PieceValid(t: seq<byte>, i: nat, j: nat)
    requires Valid(t) && 0 < i <= j < |t| && t[i - 1] < 0x80 && t[j] < 0x80
    ensures Valid(t[i..j])
  {
    hide ValidFrom;
    CutBehindAscii(t, i - 1);
    CutValid(t[i..], j - i);
    assert t[i..][..j - i] == t[i..j];
  }

  lemma {:induction false} AllAsciiValid(t: seq<byte>)
    requires forall k :: 0 <= k < |t| ==> t[k] < 0x80
    ensures Valid(t)
  {
    if t != [] {
      AllAsciiValid(t[1..]);
      hide ValidFrom;
      AsciiValid(t[0]);
      JoinValid([t[0]], t[1..]);
      assert [t[0]] + t[1..] == t;
    }
  }
}
