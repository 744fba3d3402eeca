/** From valid UTF-8 only valid UTF-8: the keys and strings of a parsed document. */
module TextLaws {
  import opened Basics
  import opened Utf8
  import opened Utf8Cuts
  import opened Scanning
  import opened Unescaping
  import opened Parsing

  // ---------- tokens

  /** A token's characters stand between ASCII characters, or are ASCII themselves. */
  ghost predicate Fenced(src: seq<byte>, t: Token) {
    var e := t.start + t.len;
    && e <= |src|
    && (|| (0 < t.start && e < |src| && src[t.start - 1] < 0x80 && src[e] < 0x80)
        || (forall k :: t.start <= k < e ==> src[k] < 0x80))
  }

  lemma {:induction false} FencedValid(s: Input, t: Token)
    requires Valid(s.src) && Fenced(s.src, t)
    ensures Valid(TokText(s, t))
  {
    hide Valid;
    var e := t.start + t.len;
    if forall k :: t.start <= k < e ==> s.src[k] < 0x80 {
      AllAsciiValid(s.src[t.start..e]);
    } else {
      PieceValid(s.src, t.start, e);
    }
  }

  lemma {:induction false} BareAscii(src: seq<byte>, i: nat)
    requires i <= |src|
    ensures forall k :: i <= k < BareEnd(src, i) ==> src[k] < 0x80
    decreases |src| - i
  {
    if BareEnd(src, i) > i {
      BareAscii(src, i + 1);
    }
  }

  /** Behind three quotes, and behind a newline after them, a character is ASCII. */
  lemma {:induction false} BodyStartFence(src: seq<byte>, p: nat, c: byte)
    requires MatchN(src, p, c, 3) && c < 0x80
    ensures var i := BodyStart(src, p + 3); 0 < i && src[i - 1] < 0x80
  {
    assert src[p + 2] == c;
  }

  lemma {:induction false} StringFenced(src: seq<byte>, p: nat)
    requires p < |src| && src[p] == QUOTE
    ensures ScanString(src, p).Ok? ==> Fenced(src, ScanString(src, p).value.0)
  {
    hide StringEnd, MlStringEnd, FirstOf, MatchN, BodyStart;
    if MatchN(src, p, QUOTE, 3) {
      BodyStartFence(src, p, QUOTE);
    }
  }

  lemma {:induction false} FirstMatched(src: seq<byte>, i: nat, c: byte)
    requires MatchN(src, i, c, 3)
    ensures i < |src| && src[i] == c
  {}

  lemma {:induction false} LitStringFenced(src: seq<byte>, p: nat)
    requires p < |src| && src[p] == APOSTROPHE
    ensures ScanLitString(src, p).Ok? ==> Fenced(src, ScanLitString(src, p).value.0)
  {
    hide LitStringEnd, MlLitStringEnd, MatchN, BodyStart;
    LitQuote(src, p + 1);
    if MatchN(src, p, APOSTROPHE, 3) {
      BodyStartFence(src, p, APOSTROPHE);
      var i := BodyStart(src, p + 3);
      MlApostrophes(src, i);
      if MlLitStringEnd(src, i).Some? {
        FirstMatched(src, MlLitStringEnd(src, i).value, APOSTROPHE);
      }
    }
  }

  lemma {:induction false} TokenFenced(s: Input, p: nat, keymode: bool)
    requires p <= |s.src|
    ensures var r := ScanAt(s, p, keymode);
            r.Ok? && IsText(r.value.0.typ) ==> Fenced(s.src, r.value.0)
  {
    hide ScanString, ScanLitString, ScanValue, Fenced, BareEnd;
    var c := GetChar(s.src, p);
    if c == QUOTE {
      StringFenced(s.src, p);
    } else if c == APOSTROPHE {
      LitStringFenced(s.src, p);
    } else {
      BareAscii(s.src, p);
      BareFenced(s.src, p);
    }
  }

  lemma {:induction false} BareFenced(src: seq<byte>, p: nat)
    requires p <= |src| && forall k :: p <= k < BareEnd(src, p) ==> src[k] < 0x80
    ensures Fenced(src, ScanLiteral(src, p).0)
  {
    hide BareEnd;
  }

  /** The characters of every key and string token are valid. */
  lemma {:induction false} TokenValid(s: Input, st: State, keymode: bool)
    requires Valid(s.src) && Inside(s, st)
    ensures var r := ScanTok(s, st, keymode);
            r.Ok? && IsText(r.value.0.typ) ==> Valid(TokText(s, r.value.0))
  {
    hide Valid, TokenStart, ScanAt, Fenced, TokText;
    var r := ScanTok(s, st, keymode);
    if r.Ok? && IsText(r.value.0.typ) {
      var p := TokenStart(s.src, st.cur).value;
      TokenFenced(s, p, keymode);
      FencedValid(s, r.value.0);
    }
  }

  // ---------- unescaping

  /** Bytes above 0x7F are copied. */
  lemma {:induction false} HighCopied(b: seq<byte>, i: nat, n: nat)
    requires i + n <= |b| && forall k :: i <= k < i + n ==> b[k] >= 0x80
    ensures Unescape(b, i).Ok? ==>
              Unescape(b, i + n).Ok? && Unescape(b, i).value == b[i..i + n] + Unescape(b, i + n).value
    decreases n
  {
    if n > 0 {
      HighCopied(b, i + 1, n - 1);
      assert b[i..i + n] == [b[i]] + b[i + 1..i + n];
    }
  }

  lemma {:induction false} WhiteAscii(b: seq<byte>, i: nat, lf: bool)
    requires i <= |b|
    ensures forall k :: i <= k < SkipWhite(b, i, lf) ==> b[k] < 0x80
    decreases |b| - i
  {
    if SkipWhite(b, i, lf) > i {
      WhiteAscii(b, i + 1, lf);
    }
  }

  /** An escape is spelled in ASCII. */
  lemma {:induction false} EscapeAscii(b: seq<byte>, i: nat)
    requires i < |b| && b[i] == BACKSLASH && Escape(b, i).Ok?
    ensures forall k :: i <= k < Escape(b, i).value.1 ==> b[k] < 0x80
  {
    hide Encode, HexNumber;
    WhiteAscii(b, i + 1, false);
    var m := SkipWhite(b, i + 1, false);
    WhiteAscii(b, m, true);
  }

  /** And stands for valid text: a character, or nothing. */
  lemma {:induction false} EscapeValid(b: seq<byte>, i: nat)
    requires i < |b| && b[i] == BACKSLASH && Escape(b, i).Ok?
    ensures Valid(Escape(b, i).value.0)
  {
    hide Valid, SkipWhite, HexDigits;
    NothingValid();
    var c := b[i + 1];
    if IsSimpleEscape(c) {
      AsciiValid(SimpleEscape(c));
    } else if HexCount(c) > 0 {
      var n := HexCount(c);
      var code := HexNumber(b, i + 2, n);
      HexNumberBound(b, i + 2, n);
      if n == 2 {
        assert Pow16(2) == 256;
      }
      EncodingValid(code);
    }
  }

  lemma {:induction false} NothingValid()
    ensures Valid([])
  {}

  lemma {:induction false} EncodingValid(code: nat)
    requires !IsSurrogate(code)
    ensures Encode(code).Some? ==> Valid(Encode(code).value)
  {
    hide Valid;
    if Encode(code).Some? {
      UnitValid(code, |Encode(code).value|);
    }
  }

  lemma {:induction false} UnescapeValid(b: seq<byte>, i: nat)
    requires i <= |b| && Valid(b[i..])
    ensures Unescape(b, i).Ok? ==> Valid(Unescape(b, i).value)
    decreases |b| - i
  {
    hide Valid, Escape;
    if i == |b| || b[i] == 0 {
      NothingValid();
    } else if Unescape(b, i).Ok? {
      if b[i] == BACKSLASH {
        var (t, j) := Escape(b, i).value;
        EscapeAscii(b, i);
        EscapeValid(b, i);
        CutBehindRun(b, i, j);
        UnescapeValid(b, j);
        JoinValid(t, Unescape(b, j).value);
      } else {
        UnitCopied(b, i);
      }
    }
  }

  lemma {:induction false} UnitCopied(b: seq<byte>, i: nat)
    requires i < |b| && Valid(b[i..]) && b[i] != BACKSLASH && b[i] != 0 && Unescape(b, i).Ok?
    ensures Valid(Unescape(b, i).value)
    decreases |b| - i, 0
  {
    hide Valid, Unescape;
    var n := FirstUnit(b[i..]);
    assert b[i..][..n] == b[i..i + n] && b[i..][n..] == b[i + n..];
    if b[i] < 0x80 {
      AsciiCopied(b, i);
    } else {
      assert forall k :: i <= k < i + n ==> b[k] == b[i..][k - i];
      HighCopied(b, i, n);
    }
    UnescapeValid(b, i + n);
    JoinValid(b[i..i + n], Unescape(b, i + n).value);
  }

  lemma {:induction false} AsciiCopied(b: seq<byte>, i: nat)
    requires i < |b| && b[i] != BACKSLASH && b[i] != 0 && Unescape(b, i).Ok?
    ensures Unescape(b, i + 1).Ok? && Unescape(b, i).value == b[i..i + 1] + Unescape(b, i + 1).value
  {
    assert b[i..i + 1] == [b[i]];
  }

  /** parse_norm of valid characters. */
  lemma {:induction false} NormValid(s: Input, st: State, t: Token)
    requires Valid(TokText(s, t))
    ensures Norm(s, st, t).Ok? ==> Valid(Norm(s, st, t).value.0)
  {
    hide Valid, Unescape, TokText;
    assert TokText(s, t)[0..] == TokText(s, t);
    UnescapeValid(TokText(s, t), 0);
  }
}
