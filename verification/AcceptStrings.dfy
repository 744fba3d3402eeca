/** Every string that is scanned is one that can be written. */
module AcceptedStrings {
  import opened Basics
  import opened Scanning
  import opened Unescaping
  import opened Layouts
  import opened StringTexts
  import opened ReadingStrings

  /** The text t is what stands between i and j. */
  ghost predicate Spans(src: seq<byte>, i: nat, j: nat, t: seq<byte>) { i <= j <= |src| && src[i..j] == t }

  lemma {:induction false} SpansJoin(src: seq<byte>, i: nat, j: nat, k: nat, a: seq<byte>, b: seq<byte>)
    requires Spans(src, i, j, a) && Spans(src, j, k, b)
    ensures Spans(src, i, k, a + b)
  {
    assert src[i..k] == src[i..j] + src[j..k];
  }

  lemma {:induction false} SpansOne(src: seq<byte>, i: nat, c: byte)
    requires i < |src| && src[i] == c
    ensures Spans(src, i, i + 1, [c])
  {
    assert src[i..i + 1] == [src[i]];
  }

  lemma {:induction false} SpansNothing(src: seq<byte>, i: nat)
    requires i <= |src|
    ensures Spans(src, i, i, [])
  {}

  lemma {:induction false} SpansThree(src: seq<byte>, i: nat, c: byte)
    requires MatchN(src, i, c, 3)
    ensures Spans(src, i, i + 3, [c, c, c])
  {
    assert src[i..i + 3] == [src[i], src[i + 1], src[i + 2]];
  }

  // ---------- white space

  /** The newline that scan_get takes for one. */
  lemma {:induction false} NewlineOf(src: seq<byte>, i: nat) returns (n: Newline)
    requires i <= |src| && GetChar(src, i) == LF
    ensures Spans(src, i, i + GetLen(src, i), NewlineText(n))
  {
    n := if src[i] == LF then Lf else CrLf;
    if n.Lf? {
      SpansOne(src, i, LF);
    } else {
      assert src[i..i + 2] == [src[i], src[i + 1]];
    }
  }

  lemma {:induction false} SpacesOf(src: seq<byte>, i: nat)
    requires i <= |src|
    ensures IsBlank(src[i..SkipSpaces(src, i)])
    decreases |src| - i
  {
    var j := SkipSpaces(src, i);
    if i < j {
      SpacesOf(src, i + 1);
      assert src[i..j] == [src[i]] + src[i + 1..j];
    }
  }

  lemma {:induction false} WhitesOf(src: seq<byte>, i: nat) returns (ws: seq<White>)
    requires i <= |src|
    ensures Spans(src, i, SkipBlanks(src, i), WhitesText(ws))
    ensures var j := SkipBlanks(src, i); j < |src| ==> !Match(src, j, SPACE) && !Match(src, j, TAB) && !Match(src, j, LF)
    decreases |src| - i
  {
    ws := [];
    if Match(src, i, SPACE) || Match(src, i, TAB) || Match(src, i, LF) {
      var j := i + GetLen(src, i);
      var rest := WhitesOf(src, j);
      var w := Space;
      if src[i] == SPACE {
        SpansOne(src, i, SPACE);
      } else if src[i] == TAB {
        w := Tab;
        SpansOne(src, i, TAB);
      } else {
        var n := NewlineOf(src, i);
        w := NewLine(n);
      }
      ws := [w] + rest;
      assert ws[1..] == rest;
      SpansJoin(src, i, j, SkipBlanks(src, i), WhiteText(w), WhitesText(rest));
    } else {
      SpansNothing(src, i);
    }
  }

  // ---------- escapes

  function CapsOf(src: seq<byte>, i: nat, n: nat): (r: seq<bool>)
    requires i + n <= |src|
    ensures |r| == n
  {
    seq(n, k requires 0 <= k < n => IsUpper(src[i + k]))
  }

  lemma {:induction false} HexTextMore(v: nat, n: nat, a: seq<bool>, b: seq<bool>)
    requires n <= |a| <= |b| && a == b[..|a|]
    ensures HexText(v, n, a) == HexText(v, n, b)
    decreases n
  {
    hide HexLetter;
    if n > 0 {
      HexTextMore(v / 16, n - 1, a, b);
      assert b[..|a|][n - 1] == b[n - 1];
    }
  }

  lemma {:induction false} LetterOf(c: byte)
    requires IsHex(c)
    ensures HexLetter(HexValue(c), IsUpper(c)) == c
  {}

  lemma {:induction false} HexTextNext(u: nat, h: nat, n: nat, caps: seq<bool>)
    requires h < 16 && 0 < n == |caps| && u < Power16(n - 1)
    ensures HexText(u * 16 + h, n, caps) == HexText(u, n - 1, caps) + [HexLetter(h, caps[n - 1])]
    ensures u * 16 + h < Power16(n)
  {
    hide HexLetter;
    assert (u * 16 + h) / 16 == u && (u * 16 + h) % 16 == h;
  }

  lemma {:induction false} NoDigits(src: seq<byte>, i: nat)
    requires HexDigits(src, i, 0)
    ensures HexNumber(src, i, 0) < Power16(0) && Spans(src, i, i, HexText(HexNumber(src, i, 0), 0, CapsOf(src, i, 0)))
  {}

  lemma {:induction false} CapsNext(src: seq<byte>, i: nat, n: nat)
    requires n > 0 && i + n <= |src|
    ensures CapsOf(src, i, n - 1) == CapsOf(src, i, n)[..n - 1] && CapsOf(src, i, n)[n - 1] == IsUpper(src[i + n - 1])
  {}

  lemma {:induction false} HexNumberNext(src: seq<byte>, i: nat, n: nat)
    requires n > 0 && HexDigits(src, i, n)
    ensures i + n <= |src| && IsHex(src[i + n - 1])
    ensures HexDigits(src, i, n - 1) && HexNumber(src, i, n) == HexNumber(src, i, n - 1) * 16 + HexValue(src[i + n - 1])
  {
    hide HexValue;
  }

  lemma {:induction false} HexTextOf(src: seq<byte>, i: nat, n: nat)
    requires HexDigits(src, i, n)
    ensures var v := HexNumber(src, i, n);
            v < Power16(n) && Spans(src, i, i + n, HexText(v, n, CapsOf(src, i, n)))
    decreases n
  {
    hide HexLetter, HexValue, HexText, Spans, Power16, HexNumber, HexDigits, CapsOf;
    if n == 0 {
      NoDigits(src, i);
    } else {
      HexNumberNext(src, i, n);
      HexTextOf(src, i, n - 1);
      var u, c := HexNumber(src, i, n - 1), src[i + n - 1];
      LetterOf(c);
      var caps := CapsOf(src, i, n);
      CapsNext(src, i, n);
      HexTextMore(u, n - 1, CapsOf(src, i, n - 1), caps);
      SpansOne(src, i + n - 1, c);
      SpansJoin(src, i, i + n - 1, i + n, HexText(u, n - 1, caps), [c]);
      HexTextNext(u, HexValue(c), n, caps);
    }
  }

  /** The letter of a simple escape and the byte it stands for. */
  lemma {:induction false} ShortOf(letter: byte) returns (c: byte)
    requires IsSimpleEscape(letter)
    ensures HasShort(c) && ShortLetter(c) == letter
  {
    c := if letter == 98 then 8 else if letter == 116 then 9 else if letter == 110 then 10 else if letter == 102 then 12
         else if letter == 114 then 13 else if letter == 101 then 27 else letter;
  }

  /** An escape of another kind than a line-ending backslash. */
  lemma {:induction false} CodeOf(src: seq<byte>, i: nat) returns (p: Piece)
    requires i + 1 < |src| && src[i] == BACKSLASH && HexCount(src[i + 1]) > 0 && HexDigits(src, i + 2, HexCount(src[i + 1]))
    ensures p.Code? && PieceOk(p, false) && Spans(src, i, i + 2 + HexCount(src[i + 1]), PieceText(p))
  {
    hide HexText, CapsOf, HexNumber, Power16;
    var n := HexCount(src[i + 1]);
    HexTextOf(src, i + 2, n);
    var v := HexNumber(src, i + 2, n);
    p := Code(n, v, CapsOf(src, i + 2, n));
    assert src[i..i + 2] == [BACKSLASH, CodeLetter(n)];
    SpansJoin(src, i, i + 2, i + 2 + n, [BACKSLASH, CodeLetter(n)], HexText(v, n, p.caps));
  }

  lemma {:induction false} JoinOf(src: seq<byte>, i: nat) returns (p: Piece)
    requires i < |src| && src[i] == BACKSLASH && GetChar(src, SkipSpaces(src, i + 1)) == LF
    ensures var m := SkipSpaces(src, i + 1);
            var j := SkipBlanks(src, m + GetLen(src, m));
            && p.Join? && PieceOk(p, true) && Spans(src, i, j, PieceText(p)) && i < j
            && (j < |src| ==> !Match(src, j, SPACE) && !Match(src, j, TAB) && !Match(src, j, LF))
  {
    hide WhitesText, NewlineText;
    var m := SkipSpaces(src, i + 1);
    var k := m + GetLen(src, m);
    SpacesOf(src, i + 1);
    var n := NewlineOf(src, m);
    var ws := WhitesOf(src, k);
    var j := SkipBlanks(src, k);
    p := Join(src[i + 1..m], n, ws);
    SpansJoin(src, m, k, j, NewlineText(n), WhitesText(ws));
    SpansJoin(src, i + 1, m, j, p.blank, NewlineText(n) + WhitesText(ws));
    SpansOne(src, i, BACKSLASH);
    SpansJoin(src, i, i + 1, j, [BACKSLASH], p.blank + (NewlineText(n) + WhitesText(ws)));
  }

  /** What stands behind a line-ending backslash is no white space. */
  ghost predicate JoinIsWhole(src: seq<byte>, j: nat, p: Piece) {
    p.Join? && j < |src| ==> !Match(src, j, SPACE) && !Match(src, j, TAB) && !Match(src, j, LF)
  }

  lemma {:induction false} EscapeOf(src: seq<byte>, i: nat, multiline: bool) returns (p: Piece)
    requires i < |src| && src[i] == BACKSLASH && EscapeEnd(src, i + 1, multiline).Some?
    ensures var j := EscapeEnd(src, i + 1, multiline).value;
            && PieceOk(p, multiline) && Spans(src, i, j, PieceText(p)) && i < j && JoinIsWhole(src, j, p)
            && (p.Short? || p.Code? || p.Join?)
  {
    hide HexDigits, SkipSpaces, SkipBlanks, Match, HexText, HexNumber;
    var c := GetChar(src, i + 1);
    if IsSimpleEscape(c) {
      var x := ShortOf(src[i + 1]);
      p := Short(x);
      assert src[i..i + 2] == [src[i], src[i + 1]];
    } else if HexCount(c) > 0 {
      p := CodeOf(src, i);
    } else {
      p := JoinOf(src, i);
    }
  }

  // ---------- bodies of basic strings

  lemma {:induction false} MorePieces(p: Piece, ps: seq<Piece>, multiline: bool)
    requires PieceOk(p, multiline) && PiecesOk(ps, multiline)
    requires |ps| >= 2 ==> !(p == ps[0] == ps[1] == Raw(QUOTE))
    requires ps != [] && p.Join? ==> !IsWhitePiece(ps[0])
    ensures PiecesOk([p] + ps, multiline) && PiecesText([p] + ps) == PieceText(p) + PiecesText(ps)
  {
    hide PieceOk, PieceText;
    var qs := [p] + ps;
    assert qs[1..] == ps;
    forall k | 0 <= k < |qs| - 2 ensures !(qs[k] == qs[k + 1] == qs[k + 2] == Raw(QUOTE)) {
      if k > 0 {
        assert !(ps[k - 1] == ps[k] == ps[k + 1] == Raw(QUOTE));
      }
    }
    forall k | 0 <= k < |qs| - 1 && qs[k].Join? ensures !IsWhitePiece(qs[k + 1]) {
      if k > 0 {
        assert ps[k - 1].Join?;
      }
    }
  }

  lemma {:induction false} NoPiecesOk(multiline: bool)
    ensures PiecesOk([], multiline) && PiecesText([]) == []
  {}

  /** No quote and no line-ending backslash stands in a body of one line. */
  lemma {:induction false} OneLine(p: Piece)
    requires PieceOk(p, false)
    ensures p != Raw(QUOTE) && !p.Join?
  {}

  lemma {:induction false} RawOf(src: seq<byte>, i: nat)
    requires i < |src| && src[i] != QUOTE && src[i] != BACKSLASH && (IsValidChar(GetChar(src, i)) || GetChar(src, i) == TAB)
    ensures GetLen(src, i) == 1 && PieceOk(Raw(src[i]), false) && Spans(src, i, i + 1, PieceText(Raw(src[i])))
  {
    SpansOne(src, i, src[i]);
  }

  lemma {:induction false} PiecesBetween(src: seq<byte>, i: nat) returns (ps: seq<Piece>)
    requires i <= |src| && StringEnd(src, i).Some?
    ensures PiecesOk(ps, false) && Spans(src, i, StringEnd(src, i).value, PiecesText(ps))
    decreases |src| - i
  {
    hide PiecesOk, PieceOk, PiecesText, PieceText, EscapeEnd, Spans, JoinIsWhole;
    var e := StringEnd(src, i).value;
    if src[i] == QUOTE {
      ps := [];
      NoPiecesOk(false);
      SpansNothing(src, i);
    } else {
      var p, j := Raw(src[i]), i + 1;
      if src[i] == BACKSLASH {
        j := EscapeEnd(src, i + 1, false).value;
        p := EscapeOf(src, i, false);
      } else {
        RawOf(src, i);
      }
      var rest := PiecesBetween(src, j);
      OneLine(p);
      MorePieces(p, rest, false);
      SpansJoin(src, i, j, e, PieceText(p), PiecesText(rest));
      ps := [p] + rest;
    }
  }

  // ---------- bodies of multi-line basic strings

  /** A newline, or another character of a multi-line body. */
  lemma {:induction false} MlRawOf(src: seq<byte>, i: nat) returns (p: Piece)
    requires i < |src| && src[i] != BACKSLASH
    requires var c := GetChar(src, i); IsValidChar(c) || c == SPACE || c == TAB || c == LF
    ensures PieceOk(p, true) && Spans(src, i, i + GetLen(src, i), PieceText(p)) && !p.Join?
    ensures p == Raw(QUOTE) ==> src[i] == QUOTE
    ensures IsWhitePiece(p) ==> Match(src, i, SPACE) || Match(src, i, TAB) || Match(src, i, LF)
    ensures p.Break? ==> GetChar(src, i) == LF
  {
    if GetChar(src, i) == LF {
      var n := NewlineOf(src, i);
      p := Break(n);
    } else {
      p := Raw(src[i]);
      SpansOne(src, i, src[i]);
    }
  }

  /** How many quotes stand at i, up to three. */
  ghost predicate QuotesAt(src: seq<byte>, i: nat, ps: seq<Piece>) {
    && (ps != [] && ps[0] == Raw(QUOTE) ==> i < |src| && src[i] == QUOTE)
    && (|ps| >= 2 && ps[0] == ps[1] == Raw(QUOTE) ==> MatchN(src, i, QUOTE, 2))
  }

  /** What stands at the start of a body. */
  ghost predicate BodyStartsAt(src: seq<byte>, i: nat, ps: seq<Piece>) {
    && QuotesAt(src, i, ps)
    && (ps != [] && IsWhitePiece(ps[0]) ==> Match(src, i, SPACE) || Match(src, i, TAB) || Match(src, i, LF))
    && (ps != [] && ps[0].Break? ==> GetChar(src, i) == LF)
  }

  /** No three quotes in a row are read. */
  lemma {:induction false} NotThreeQuotes(src: seq<byte>, i: nat)
    requires i <= |src| && MlStringEnd(src, i).Some? && MatchN(src, i, QUOTE, 3) && MlStringEnd(src, i).value != i
    ensures MlStringEnd(src, i).value <= i + 2
  {
    var k := i + 1;
    assert MatchN(src, i, QUOTE, 4) && !MatchN(src, i, QUOTE, 6);
    assert src[i] == QUOTE && src[k] == QUOTE && src[k + 1] == QUOTE;
    assert MlStringEnd(src, i) == MlStringEnd(src, k);
    if MatchN(src, i, QUOTE, 5) {
      assert !MatchN(src, k, QUOTE, 5) && !MatchN(src, k, QUOTE, 6) && MatchN(src, k, QUOTE, 4);
      assert MlStringEnd(src, k) == MlStringEnd(src, k + 1);
      assert MatchN(src, k + 1, QUOTE, 3) && !MatchN(src, k + 1, QUOTE, 4);
    } else {
      assert MatchN(src, k, QUOTE, 3) && !MatchN(src, k, QUOTE, 4);
    }
  }

  lemma {:induction false} MlPiecesBetween(src: seq<byte>, i: nat) returns (ps: seq<Piece>)
    requires i <= |src| && MlStringEnd(src, i).Some?
    ensures PiecesOk(ps, true) && Spans(src, i, MlStringEnd(src, i).value, PiecesText(ps)) && BodyStartsAt(src, i, ps)
    decreases |src| - i
  {
    hide PiecesOk, PieceOk, PiecesText, PieceText, EscapeEnd, Spans, MatchN, Match, IsWhitePiece;
    var e := MlStringEnd(src, i).value;
    if MatchN(src, i, QUOTE, 3) && !MatchN(src, i, QUOTE, 4) {
      ps := [];
      NoPiecesOk(true);
      SpansNothing(src, i);
    } else {
      var p, j := Raw(0), i + GetLen(src, i);
      if src[i] == BACKSLASH {
        j := EscapeEnd(src, i + 1, true).value;
        p := EscapeOf(src, i, true);
        EscapeIsDark(p);
      } else {
        p := MlRawOf(src, i);
      }
      var rest := MlPiecesBetween(src, j);
      MlQuotes(src, i, p, j, rest);
      MorePieces(p, rest, true);
      SpansJoin(src, i, j, e, PieceText(p), PiecesText(rest));
      ps := [p] + rest;
    }
  }

  lemma {:induction false} EscapeIsDark(p: Piece)
    requires p.Short? || p.Code? || p.Join?
    ensures !IsWhitePiece(p) && p != Raw(QUOTE) && !p.Break?
  {}

  /** Two quotes and a piece that is another one. */
  lemma {:induction false} MlQuotes(src: seq<byte>, i: nat, p: Piece, j: nat, ps: seq<Piece>)
    requires i < j <= |src| && MlStringEnd(src, i).Some? && MlStringEnd(src, j) == MlStringEnd(src, i)
    requires !(MatchN(src, i, QUOTE, 3) && !MatchN(src, i, QUOTE, 4)) && BodyStartsAt(src, j, ps)
    requires p == Raw(QUOTE) ==> src[i] == QUOTE && j == i + 1
    requires Spans(src, j, MlStringEnd(src, i).value, PiecesText(ps)) && PiecesOk(ps, true)
    ensures QuotesAt(src, i, [p] + ps)
    ensures |ps| >= 2 ==> !(p == ps[0] == ps[1] == Raw(QUOTE))
  {
    hide PiecesOk;
    if |ps| >= 2 && p == ps[0] == ps[1] == Raw(QUOTE) {
      TwoPieces(ps);
      assert MatchN(src, i, QUOTE, 3);
      NotThreeQuotes(src, i);
    }
  }

  lemma {:induction false} TwoPieces(ps: seq<Piece>)
    requires |ps| >= 2
    ensures |PiecesText(ps)| >= 2
  {
    assert PiecesText(ps) == PieceText(ps[0]) + (PieceText(ps[1]) + PiecesText(ps[1..][1..]));
  }

  // ---------- literal text

  lemma {:induction false} LiteralBetween(src: seq<byte>, i: nat)
    requires i <= |src| && LitStringEnd(src, i).Some?
    ensures LiteralOk(src[i..LitStringEnd(src, i).value])
    decreases |src| - i
  {
    var e := LitStringEnd(src, i).value;
    if src[i] != APOSTROPHE {
      LiteralBetween(src, i + 1);
      assert src[i..e] == [src[i]] + src[i + 1..e];
    }
  }

  /** A character of a multi-line literal body that ends at e. */
  ghost predicate MlCharAt(src: seq<byte>, k: nat, e: nat)
    requires k < e <= |src|
  {
    var c := src[k];
    c == TAB || 32 <= c <= 126 || 128 <= c || c == LF || (c == CR && k + 1 < e && src[k + 1] == LF)
  }

  ghost predicate ThreeAt(src: seq<byte>, k: nat) { MatchN(src, k, APOSTROPHE, 3) }

  /** What a multi-line literal body consists of, character by character. */
  ghost predicate MlBody(src: seq<byte>, i: nat, e: nat) {
    && i <= e <= |src|
    && (forall k :: i <= k < e ==> MlCharAt(src, k, e))
    && (forall k :: i <= k < e - 2 ==> !ThreeAt(src, k))
  }

  lemma {:induction false} NotThreeApostrophes(src: seq<byte>, i: nat)
    requires i <= |src| && MlLitStringEnd(src, i).Some? && MatchN(src, i, APOSTROPHE, 3) && MlLitStringEnd(src, i).value != i
    ensures MlLitStringEnd(src, i).value <= i + 2
  {
    var k := i + 1;
    assert MatchN(src, i, APOSTROPHE, 4) && !MatchN(src, i, APOSTROPHE, 6);
    assert src[i] == APOSTROPHE && src[k] == APOSTROPHE && src[k + 1] == APOSTROPHE;
    assert MlLitStringEnd(src, i) == MlLitStringEnd(src, k);
    if MatchN(src, i, APOSTROPHE, 5) {
      assert !MatchN(src, k, APOSTROPHE, 5) && !MatchN(src, k, APOSTROPHE, 6) && MatchN(src, k, APOSTROPHE, 4);
      assert MlLitStringEnd(src, k) == MlLitStringEnd(src, k + 1);
      assert MatchN(src, k + 1, APOSTROPHE, 3) && !MatchN(src, k + 1, APOSTROPHE, 4);
    } else {
      assert MatchN(src, k, APOSTROPHE, 3) && !MatchN(src, k, APOSTROPHE, 4);
    }
  }

  /** One character more in front. */
  lemma {:induction false} MlBodyMore(src: seq<byte>, i: nat, e: nat)
    requires i < |src| && (var c := GetChar(src, i); IsValidChar(c) || c == SPACE || c == TAB || c == LF)
    requires MlBody(src, i + GetLen(src, i), e) && (ThreeAt(src, i) ==> e <= i + 2)
    ensures MlBody(src, i, e)
  {
    hide MatchN;
    var j := i + GetLen(src, i);
    forall k | i <= k < e ensures MlCharAt(src, k, e) {
      if k < j {
        assert k == i || (k == i + 1 && src[k] == LF);
      }
    }
    forall k | i <= k < e - 2 ensures !ThreeAt(src, k) {
      if i < k < j {
        NoThreeAtLf(src, k);
      }
    }
  }

  lemma {:induction false} NoThreeAtLf(src: seq<byte>, k: nat)
    requires k < |src| && src[k] == LF
    ensures !ThreeAt(src, k)
  {}

  lemma {:induction false} MlLiteralBetween(src: seq<byte>, i: nat)
    requires i <= |src| && MlLitStringEnd(src, i).Some?
    ensures MlBody(src, i, MlLitStringEnd(src, i).value)
    decreases |src| - i
  {
    hide MatchN, MlBody;
    var e := MlLitStringEnd(src, i).value;
    if MatchN(src, i, APOSTROPHE, 3) && !MatchN(src, i, APOSTROPHE, 4) {
      NoBody(src, i);
    } else {
      MlLiteralBetween(src, i + GetLen(src, i));
      if MatchN(src, i, APOSTROPHE, 3) {
        NotThreeApostrophes(src, i);
      }
      MlBodyMore(src, i, e);
    }
  }

  lemma {:induction false} NoBody(src: seq<byte>, i: nat)
    requires i <= |src|
    ensures MlBody(src, i, i)
  {}

  lemma {:induction false} MlBodyOk(src: seq<byte>, i: nat, e: nat)
    requires MlBody(src, i, e)
    ensures MlLiteralOk(src[i..e])
  {
    var t := src[i..e];
    forall k | 0 <= k < |t| ensures MlLiteralChar(t, k) {
      assert MlCharAt(src, i + k, e);
    }
    forall k | 0 <= k < |t| - 2 ensures !(t[k] == t[k + 1] == t[k + 2] == APOSTROPHE) {
      assert !ThreeAt(src, i + k);
      ThreeOf(src, i + k);
    }
  }

  lemma {:induction false} ThreeOf(src: seq<byte>, k: nat)
    requires k + 3 <= |src|
    ensures src[k] == src[k + 1] == src[k + 2] == APOSTROPHE ==> ThreeAt(src, k)
  {}

  // ---------- strings

  lemma {:induction false} MlQuotesEnd(src: seq<byte>, i: nat)
    requires i <= |src| && MlStringEnd(src, i).Some?
    ensures MatchN(src, MlStringEnd(src, i).value, QUOTE, 3)
    decreases |src| - i
  {
    hide MatchN, EscapeEnd;
    if MlStringEnd(src, i).value > i {
      MlQuotesEnd(src, if src[i] == BACKSLASH then EscapeEnd(src, i + 1, true).value else i + GetLen(src, i));
    }
  }

  /** The newline behind three quotes, if there is one. */
  lemma {:induction false} FirstOfBody(src: seq<byte>, i: nat) returns (first: Option<Newline>)
    requires i <= |src|
    ensures Spans(src, i, BodyStart(src, i), FirstText(first)) && (first.None? <==> !Match(src, i, LF))
  {
    if Match(src, i, LF) {
      var n := NewlineOf(src, i);
      first := Some(n);
    } else {
      first := None;
      SpansNothing(src, i);
    }
  }

  lemma {:induction false} SpansQuoted(src: seq<byte>, i: nat, q: seq<byte>, j: nat, t: seq<byte>, k: nat, l: nat)
    requires Spans(src, i, j, q) && Spans(src, j, k, t) && Spans(src, k, l, q)
    ensures Spans(src, i, l, q + (t + q))
  {
    hide Spans;
    SpansJoin(src, j, k, l, t, q);
    SpansJoin(src, i, j, l, q, t + q);
  }

  lemma {:induction false} SpansFirst(src: seq<byte>, i: nat, q: seq<byte>, j: nat, f: seq<byte>, k: nat, t: seq<byte>, l: nat, m: nat)
    requires Spans(src, i, j, q) && Spans(src, j, k, f) && Spans(src, k, l, t) && Spans(src, l, m, q)
    ensures Spans(src, i, m, q + (f + (t + q)))
  {
    hide Spans;
    SpansJoin(src, k, l, m, t, q);
    SpansJoin(src, j, k, m, f, t + q);
    SpansJoin(src, i, j, m, q, f + (t + q));
  }

  lemma {:induction false} BasicOf(src: seq<byte>, p: nat) returns (x: Str)
    requires p < |src| && src[p] == QUOTE && !MatchN(src, p, QUOTE, 3) && StringEnd(src, p + 1).Some?
    ensures x.Basic? && StrOk(x) && Spans(src, p, StringEnd(src, p + 1).value + 1, StrText(x))
  {
    hide PiecesOk, PiecesText, Spans;
    var e := StringEnd(src, p + 1).value;
    var ps := PiecesBetween(src, p + 1);
    SpansOne(src, p, QUOTE);
    SpansOne(src, e, QUOTE);
    SpansQuoted(src, p, [QUOTE], p + 1, PiecesText(ps), e, e + 1);
    x := Basic(ps);
  }

  lemma {:induction false} MlBasicOf(src: seq<byte>, p: nat) returns (x: Str)
    requires MatchN(src, p, QUOTE, 3) && MlStringEnd(src, BodyStart(src, p + 3)).Some?
    ensures x.MlBasic? && StrOk(x) && Spans(src, p, MlStringEnd(src, BodyStart(src, p + 3)).value + 3, StrText(x))
  {
    hide PiecesOk, PiecesText, Spans, MatchN, FirstText;
    var i := BodyStart(src, p + 3);
    var e := MlStringEnd(src, i).value;
    var first := FirstOfBody(src, p + 3);
    var ps := MlPiecesBetween(src, i);
    MlQuotesEnd(src, i);
    SpansThree(src, p, QUOTE);
    SpansThree(src, e, QUOTE);
    SpansFirst(src, p, QUOTES, p + 3, FirstText(first), i, PiecesText(ps), e, e + 3);
    x := MlBasic(first, ps);
  }

  lemma {:induction false} LiteralIs(src: seq<byte>, p: nat) returns (x: Str)
    requires p < |src| && src[p] == APOSTROPHE && LitStringEnd(src, p + 1).Some?
    ensures x.Literal? && StrOk(x) && Spans(src, p, LitStringEnd(src, p + 1).value + 1, StrText(x))
  {
    hide LiteralOk;
    var e := LitStringEnd(src, p + 1).value;
    LiteralBetween(src, p + 1);
    LitQuote(src, p + 1);
    SpansOne(src, p, APOSTROPHE);
    SpansOne(src, e, APOSTROPHE);
    SpansQuoted(src, p, [APOSTROPHE], p + 1, src[p + 1..e], e, e + 1);
    x := Literal(src[p + 1..e]);
  }

  /** Without a newline at its start a body does not start a line. */
  lemma {:induction false} NoLineAtStart(src: seq<byte>, i: nat, e: nat)
    requires i <= e <= |src| && !Match(src, i, LF)
    ensures !StartsLine(src[i..e])
  {
    var t := src[i..e];
    if t != [] {
      assert t[0] == src[i];
      if |t| > 1 {
        assert t[1] == src[i + 1];
      }
    }
  }

  lemma {:induction false} SpansCut(src: seq<byte>, i: nat, j: nat)
    requires i <= j <= |src|
    ensures Spans(src, i, j, src[i..j])
  {}

  lemma {:induction false} NoFirstStart(src: seq<byte>, i: nat, j: nat)
    requires i <= |src| && !Match(src, i, LF) && j == BodyStart(src, i)
    ensures j == i
  {}

  lemma {:induction false} MlLiteralOf(src: seq<byte>, p: nat) returns (x: Str)
    requires MatchN(src, p, APOSTROPHE, 3) && MlLitStringEnd(src, BodyStart(src, p + 3)).Some?
    ensures x.MlLiteral? && StrOk(x) && Spans(src, p, MlLitStringEnd(src, BodyStart(src, p + 3)).value + 3, StrText(x))
  {
    hide MlLiteralOk, MatchN, FirstText, StartsLine, MlBody, Match, BodyStart, MlLitStringEnd, Spans;
    SpansCut(src, BodyStart(src, p + 3), MlLitStringEnd(src, BodyStart(src, p + 3)).value);
    var i := BodyStart(src, p + 3);
    var e := MlLitStringEnd(src, i).value;
    var first := FirstOfBody(src, p + 3);
    MlLiteralBetween(src, i);
    MlBodyOk(src, i, e);
    MlApostrophes(src, i);
    SpansThree(src, p, APOSTROPHE);
    SpansThree(src, e, APOSTROPHE);
    assert APOSTROPHES == [APOSTROPHE, APOSTROPHE, APOSTROPHE];
    SpansFirst(src, p, APOSTROPHES, p + 3, FirstText(first), i, src[i..e], e, e + 3);
    if first.None? {
      NoFirstStart(src, p + 3, i);
      NoLineAtStart(src, i, e);
    }
    x := MlLiteral(first, src[i..e]);
  }

  /** What is scanned between quotes or apostrophes is a string that can be written. */
  lemma {:induction false} StringOf(src: seq<byte>, p: nat) returns (x: Str)
    requires p < |src| && (src[p] == QUOTE || src[p] == APOSTROPHE)
    requires (if src[p] == QUOTE then ScanString(src, p) else ScanLitString(src, p)).Ok?
    ensures var (t, q) := (if src[p] == QUOTE then ScanString(src, p) else ScanLitString(src, p)).value;
            StrOk(x) && Spans(src, p, q, StrText(x)) && t.typ == TypeOfStr(x)
  {
    hide StrOk, StrText, Spans, FirstOf, StringEnd, MlStringEnd, LitStringEnd, MlLitStringEnd;
    if src[p] == QUOTE {
      if MatchN(src, p, QUOTE, 3) {
        x := MlBasicOf(src, p);
      } else {
        x := BasicOf(src, p);
      }
    } else {
      if MatchN(src, p, APOSTROPHE, 3) {
        x := MlLiteralOf(src, p);
      } else {
        x := LiteralIs(src, p);
      }
    }
  }
}
