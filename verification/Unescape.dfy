/** Unescaping the body of a basic string, and why it agrees with the scanner. */
module Unescaping {
  import opened Basics
  import opened Scanning
  import opened Utf8

  // ---------- reference: a left-to-right unescape

  /** The value of n hexadecimal digits. */
  function HexNumber(b: seq<byte>, i: nat, n: nat): nat
    requires HexDigits(b, i, n)
    decreases n
  {
    if n == 0 then 0 else HexNumber(b, i, n - 1) * 16 + HexValue(b[i + n - 1])
  }

  function SimpleEscape(c: byte): byte
    requires IsSimpleEscape(c)
  {
    if c == 98 then 8 else if c == 116 then 9 else if c == 110 then 10 else if c == 102 then 12
    else if c == 114 then 13 else if c == 101 then 27 else c
  }

  /** The first position from i on that is not a space, a tab or a carriage return,
      nor a line feed when lf is set. */
  function SkipWhite(b: seq<byte>, i: nat, lf: bool): (j: nat)
    requires i <= |b|
    ensures i <= j <= |b|
    decreases |b| - i
  {
    if i < |b| && (b[i] == SPACE || b[i] == TAB || b[i] == CR || (lf && b[i] == LF)) then SkipWhite(b, i + 1, lf)
    else i
  }

  /** What the escape at position i stands for, and where it ends. Codes written with x
      are not checked for surrogates: they cannot be. */
  function Escape(b: seq<byte>, i: nat): (r: Result<(seq<byte>, nat)>)
    requires i < |b| && b[i] == BACKSLASH
    ensures r.Ok? ==> i + 1 < r.value.1 <= |b| && i + |r.value.0| < r.value.1
    ensures r.Err? ==> r.error in {BadUnicode, Internal}
  {
    if i + 1 == |b| then Err(Internal)
    else
      var c := b[i + 1];
      if IsSimpleEscape(c) then Ok(([SimpleEscape(c)], i + 2))
      else if HexCount(c) > 0 then
        var n := HexCount(c);
        if !HexDigits(b, i + 2, n) then Err(Internal)
        else
          var code := HexNumber(b, i + 2, n);
          if n > 2 && IsSurrogate(code) then Err(BadUnicode)
          else
            match Encode(code)
            case None => Err(BadUnicode)
            case Some(t) =>
              HexBound(b, i + 2, n);
              Ok((t, i + 2 + n))
      else if c == SPACE || c == TAB || c == CR || c == LF then
        var m := SkipWhite(b, i + 1, false);
        if m < |b| && b[m] == LF then Ok(([], SkipWhite(b, m, true))) else Err(Internal)
      else Err(Internal)
  }

  /** The text that b[i..] stands for. */
  function Unescape(b: seq<byte>, i: nat): (r: Result<seq<byte>>)
    requires i <= |b|
    ensures r.Ok? ==> |r.value| <= |b| - i
    ensures r.Err? ==> r.error in {BadUnicode, Internal}
    decreases |b| - i
  {
    if i == |b| || b[i] == 0 then Ok([])
    else if b[i] != BACKSLASH then
      var r :- Unescape(b, i + 1);
      Ok([b[i]] + r)
    else
      var (t, j) :- Escape(b, i);
      var r :- Unescape(b, j);
      Ok(t + r)
  }

  /** n hexadecimal digits encode to no more than n + 1 bytes. */
  lemma HexBound(b: seq<byte>, i: nat, n: nat)
    requires HexDigits(b, i, n) && n in {2, 4, 8}
    ensures Encode(HexNumber(b, i, n)).Some? ==> |Encode(HexNumber(b, i, n)).value| <= n
  {
    if n == 2 {
      HexNumberBound(b, i, 2);
    } else if n == 4 {
      HexNumberBound(b, i, 4);
    }
  }

  function Pow16(n: nat): nat { if n == 0 then 1 else 16 * Pow16(n - 1) }

  lemma {:induction false} HexNumberBound(b: seq<byte>, i: nat, n: nat)
    requires HexDigits(b, i, n)
    ensures HexNumber(b, i, n) < Pow16(n)
    decreases n
  {
    if n > 0 {
      HexNumberBound(b, i, n - 1);
    }
  }

  // ---------- the scanner and the unescaper agree on where an escape ends

  /** b is the body src[o..o + |b|], ended by a closing quote. */
  ghost predicate Body(src: seq<byte>, o: nat, b: seq<byte>) {
    o + |b| < |src| && src[o..o + |b|] == b && src[o + |b|] == QUOTE
  }

  lemma BodyAt(src: seq<byte>, o: nat, b: seq<byte>, k: nat)
    requires Body(src, o, b) && k <= |b|
    ensures src[o + k] == if k < |b| then b[k] else QUOTE
  {
    assert k < |b| ==> src[o..o + |b|][k] == src[o + k];
  }

  /** Spaces and tabs up to a newline: the unescaper steps over a carriage return as well. */
  lemma {:induction false} SkipToNewline(src: seq<byte>, o: nat, b: seq<byte>, i: nat)
    requires Body(src, o, b) && i <= |b|
    requires var m := SkipSpaces(src, o + i);
             GetChar(src, m) == LF && m + GetLen(src, m) <= o + |b|
    ensures var m := SkipSpaces(src, o + i);
            var w := SkipWhite(b, i, false);
            o + w + 1 == m + GetLen(src, m) && w < |b| && b[w] == LF
    decreases |b| - i
  {
    BodyAt(src, o, b, i);
    var m := SkipSpaces(src, o + i);
    if m > o + i {
      SkipToNewline(src, o, b, i + 1);
    } else if src[m] == CR {
      BodyAt(src, o, b, i + 1);
    }
  }

  lemma {:induction false} SkipBlanksStops(src: seq<byte>, i: nat)
    requires i <= |src|
    ensures !Match(src, SkipBlanks(src, i), LF)
    decreases |src| - i
  {
    if SkipBlanks(src, i) > i {
      SkipBlanksStops(src, i + GetLen(src, i));
    }
  }

  /** The run of blanks after the newline, when what follows it is neither blank nor a
      stray carriage return. */
  lemma {:induction false} SkipSame(src: seq<byte>, o: nat, b: seq<byte>, i: nat)
    requires Body(src, o, b) && i <= |b| && SkipBlanks(src, o + i) <= o + |b|
    requires GetChar(src, SkipBlanks(src, o + i)) != CR
    ensures o + SkipWhite(b, i, true) == SkipBlanks(src, o + i)
    decreases |b| - i
  {
    BodyAt(src, o, b, i);
    SkipBlanksStops(src, o + i);
    var n := GetLen(src, o + i);
    if SkipBlanks(src, o + i) > o + i {
      if n == 2 {
        BodyAt(src, o, b, i + 1);
      }
      SkipSame(src, o, b, i + n);
    }
  }

  lemma HexSame(src: seq<byte>, o: nat, b: seq<byte>, i: nat, n: nat)
    requires Body(src, o, b) && i + n <= |b| && HexDigits(src, o + i, n)
    ensures HexDigits(b, i, n)
  {
    forall k | i <= k < i + n ensures IsHex(b[k]) {
      BodyAt(src, o, b, k);
    }
  }

  /** The escape at position i of the body ends where the scanner says, or names a code
      that cannot be encoded. */
  lemma EscapeAgrees(src: seq<byte>, o: nat, b: seq<byte>, i: nat, multiline: bool)
    requires Body(src, o, b) && i < |b| && b[i] == BACKSLASH
    requires var r := EscapeEnd(src, o + i + 1, multiline);
             r.Some? && r.value <= o + |b| && GetChar(src, r.value) != CR
    ensures var r := Escape(b, i);
            if r.Ok? then o + r.value.1 == EscapeEnd(src, o + i + 1, multiline).value
            else r.error == BadUnicode
  {
    var c := GetChar(src, o + i + 1);
    BodyAt(src, o, b, i + 1);
    if IsSimpleEscape(c) {
    } else if HexCount(c) > 0 {
      HexSame(src, o, b, i + 2, HexCount(c));
    } else {
      NewlineAgrees(src, o, b, i);
    }
  }

  /** The same for a backslash at the end of a line. */
  lemma {:induction false} NewlineAgrees(src: seq<byte>, o: nat, b: seq<byte>, i: nat)
    requires Body(src, o, b) && i + 1 < |b| && b[i] == BACKSLASH
    requires GetChar(src, o + i + 1) in {SPACE as int, TAB as int, LF as int}
    requires var r := EscapeEnd(src, o + i + 1, true);
             r.Some? && r.value <= o + |b| && GetChar(src, r.value) != CR
    ensures var r := Escape(b, i);
            r.Ok? && o + r.value.1 == EscapeEnd(src, o + i + 1, true).value
  {
    hide Encode, HexNumber, HexDigits, Body;
    BodyAt(src, o, b, i + 1);
    SkipToNewline(src, o, b, i + 1);
    var w := SkipWhite(b, i + 1, false);
    SkipSame(src, o, b, w + 1);
  }

  // ---------- the agreement

  /** Nothing the scanner accepts as a string body can make the unescaper meet an escape it
      does not know, or anything but a newline after a line-ending backslash. */
  lemma {:induction false} StringAgrees(src: seq<byte>, o: nat, b: seq<byte>, i: nat)
    requires Body(src, o, b) && i <= |b| && StringEnd(src, o + i) == Some(o + |b|)
    ensures Unescape(b, i).Ok? || Unescape(b, i).error == BadUnicode
    decreases |b| - i
  {
    BodyAt(src, o, b, i);
    if i < |b| {
      if b[i] == BACKSLASH {
        EscapeAgrees(src, o, b, i, false);
        if Escape(b, i).Ok? {
          StringAgrees(src, o, b, Escape(b, i).value.1);
        }
      } else {
        StringAgrees(src, o, b, i + 1);
      }
    }
  }

  lemma {:induction false} MlStringAgrees(src: seq<byte>, o: nat, b: seq<byte>, i: nat)
    requires Body(src, o, b) && i <= |b| && MlStringEnd(src, o + i) == Some(o + |b|)
    ensures Unescape(b, i).Ok? || Unescape(b, i).error == BadUnicode
    decreases |b| - i
  {
    hide MlStringEnd, Escape;
    BodyAt(src, o, b, i);
    if i < |b| {
      if b[i] == BACKSLASH {
        MlEscapeAgrees(src, o, b, i);
        if Escape(b, i).Ok? {
          MlStringAgrees(src, o, b, Escape(b, i).value.1);
        }
      } else {
        MlPlainNext(src, o + i, o + |b|);
        var n := GetLen(src, o + i);
        if n == 2 {
          BodyAt(src, o, b, i + 1);
        }
        MlStringAgrees(src, o, b, i + n);
      }
    }
  }

  lemma MlPlainNext(src: seq<byte>, i: nat, e: nat)
    requires i < e <= |src| && MlStringEnd(src, i) == Some(e) && src[i] != BACKSLASH
    ensures src[i] != 0 && MlStringEnd(src, i + GetLen(src, i)) == Some(e) && i + GetLen(src, i) <= e
  {}

  lemma MlEscapeAgrees(src: seq<byte>, o: nat, b: seq<byte>, i: nat)
    requires Body(src, o, b) && i < |b| && b[i] == BACKSLASH && src[o + i] == BACKSLASH
    requires MlStringEnd(src, o + i) == Some(o + |b|)
    ensures EscapeEnd(src, o + i + 1, true).Some?
    ensures MlStringEnd(src, EscapeEnd(src, o + i + 1, true).value) == Some(o + |b|)
    ensures Escape(b, i).Ok? ==> o + Escape(b, i).value.1 == EscapeEnd(src, o + i + 1, true).value
    ensures Escape(b, i).Err? ==> Escape(b, i).error == BadUnicode
  {
    hide EscapeEnd, Escape;
    EscapeAgrees(src, o, b, i, true);
  }

  /** For every token the scanner returns for a basic string, the text it stands for exists
      unless an escape names a surrogate or a code above 0x1FFFFF. */
  lemma TokenUnescapes(src: seq<byte>, p: nat)
    requires p < |src| && src[p] == QUOTE && ScanString(src, p).Ok?
    ensures var t := ScanString(src, p).value.0;
            var r := Unescape(src[t.start..t.start + t.len], 0);
            r.Ok? || r.error == BadUnicode
  {
    hide MlStringEnd, StringEnd, Unescape;
    var t := ScanString(src, p).value.0;
    var b := src[t.start..t.start + t.len];
    if t.typ == MlString {
      MlStringAgrees(src, t.start, b, 0);
    } else {
      StringAgrees(src, t.start, b, 0);
    }
  }
}
