/** Strings that have been written out are scanned and unescaped to what they mean. */
module ReadingStrings {
  import opened Basics
  import opened Datum
  import opened Utf8
  import opened Layouts
  import opened Scanning
  import opened Unescaping
  import opened StringTexts

  // ---------- hexadecimal digits

  lemma {:induction false} HexBack(b: seq<byte>, i: nat, v: nat, n: nat, caps: seq<bool>)
    requires Stands(b, i, HexText(v, n, caps)) && v < Power16(n)
    ensures HexDigits(b, i, n) && HexNumber(b, i, n) == v
    decreases n
  {
    if n > 0 {
      var t := HexText(v / 16, n - 1, caps);
      var c := HexLetter(v % 16, n <= |caps| && caps[n - 1]);
      StandsTwo(b, i, t, [c]);
      StandsOne(b, i + n - 1, c);
      HexBack(b, i, v / 16, n - 1, caps);
      assert IsHex(c) && HexValue(c) == v % 16;
    }
  }

  // ---------- one piece, scanned

  predicate IsWhite(c: int) { c == SPACE || c == TAB || c == CR || c == LF }

  /** What the text of a piece starts with. */
  lemma {:induction false} PieceStarts(p: Piece, multiline: bool, src: seq<byte>, i: nat)
    requires PieceOk(p, multiline) && Stands(src, i, PieceText(p))
    ensures i + |PieceText(p)| <= |src| && i < |src| && src[i] == PieceText(p)[0] && src[i] != 0
    ensures src[i] == QUOTE <==> p == Raw(QUOTE)
    ensures src[i] == BACKSLASH <==> p.Short? || p.Code? || p.Join?
    ensures !IsWhitePiece(p) ==> !IsWhite(src[i])
    ensures p.Raw? ==> src[i] == p.c && |PieceText(p)| == 1
  {
    StandsLength(src, i, PieceText(p));
    StandsFirst(src, i, PieceText(p));
  }

  lemma {:induction false} ShortStands(src: seq<byte>, i: nat, c: byte)
    requires HasShort(c) && Stands(src, i, PieceText(Short(c)))
    ensures i + 2 <= |src| && src[i] == BACKSLASH && src[i + 1] == ShortLetter(c)
    ensures IsSimpleEscape(src[i + 1]) && SimpleEscape(src[i + 1]) == c && src[i + 1] != CR
  {
    StandsAt(src, i, PieceText(Short(c)), 0);
    StandsAt(src, i, PieceText(Short(c)), 1);
  }

  lemma {:induction false} CodeStands(src: seq<byte>, i: nat, p: Piece)
    requires p.Code? && PieceOk(p, false) && Stands(src, i, PieceText(p))
    ensures i + 2 + p.digits <= |src| && |PieceText(p)| == 2 + p.digits
    ensures src[i] == BACKSLASH && src[i + 1] == CodeLetter(p.digits) && HexCount(src[i + 1]) == p.digits
    ensures !IsSimpleEscape(src[i + 1]) && src[i + 1] != CR
    ensures HexDigits(src, i + 2, p.digits) && HexNumber(src, i + 2, p.digits) == p.code
  {
    hide HexDigits, HexNumber, HexText, Stands;
    var head := [BACKSLASH, CodeLetter(p.digits)];
    StandsTwo(src, i, head, HexText(p.code, p.digits, p.caps));
    StandsAt(src, i, head, 0);
    StandsAt(src, i, head, 1);
    HexBack(src, i + 2, p.code, p.digits, p.caps);
    StandsLength(src, i + 2, HexText(p.code, p.digits, p.caps));
  }

  lemma {:induction false} SpacesSkipped(src: seq<byte>, i: nat, w: seq<byte>)
    requires IsBlank(w) && Stands(src, i, w) && i + |w| < |src| && src[i + |w|] != SPACE && src[i + |w|] != TAB
    ensures SkipSpaces(src, i) == i + |w| && (w != [] ==> src[i] == SPACE || src[i] == TAB)
    decreases |w|
  {
    if w != [] {
      StandsFirst(src, i, w);
      InRest(w);
      SpacesSkipped(src, i + 1, w[1..]);
    }
  }

  lemma {:induction false} WhiteStands(src: seq<byte>, i: nat, w: White)
    requires Stands(src, i, WhiteText(w))
    ensures Match(src, i, SPACE) || Match(src, i, TAB) || Match(src, i, LF)
    ensures GetLen(src, i) == |WhiteText(w)| && i + |WhiteText(w)| <= |src|
  {
    StandsLength(src, i, WhiteText(w));
    match w {
      case Space => StandsOne(src, i, SPACE);
      case Tab => StandsOne(src, i, TAB);
      case NewLine(n) => NewlineStands(src, i, n);
    }
  }

  lemma {:induction false} WhitesSkipped(src: seq<byte>, i: nat, ws: seq<White>)
    requires Stands(src, i, WhitesText(ws))
    requires var e := i + |WhitesText(ws)|; e < |src| && !IsWhite(src[e])
    ensures SkipBlanks(src, i) == i + |WhitesText(ws)|
    decreases |ws|
  {
    hide Stands, WhiteText;
    if ws != [] {
      var t := WhiteText(ws[0]);
      StandsTwo(src, i, t, WhitesText(ws[1..]));
      WhiteStands(src, i, ws[0]);
      WhitesSkipped(src, i + |t|, ws[1..]);
      hide Match;
    }
  }

  /** The parts of a line-ending backslash. */
  lemma {:induction false} JoinStands(src: seq<byte>, i: nat, p: Piece)
    requires p.Join? && PieceOk(p, true) && Stands(src, i, PieceText(p))
    ensures IsBlank(p.blank)
    ensures var m := i + 1 + |p.blank|;
            var e := m + |NewlineText(p.newline)|;
            && m < e <= |src| && src[i] == BACKSLASH && Stands(src, i + 1, p.blank) && Stands(src, m, NewlineText(p.newline))
            && GetChar(src, m) == LF && GetLen(src, m) == |NewlineText(p.newline)| && (src[m] == CR || src[m] == LF)
            && Stands(src, e, WhitesText(p.more)) && |PieceText(p)| == e + |WhitesText(p.more)| - i
            && i + |PieceText(p)| <= |src|
  {
    var nl, more := NewlineText(p.newline), WhitesText(p.more);
    StandsLength(src, i, PieceText(p));
    hide Stands, WhitesText;
    StandsTwo(src, i, [BACKSLASH], p.blank + (nl + more));
    StandsOne(src, i, BACKSLASH);
    StandsTwo(src, i + 1, p.blank, nl + more);
    StandsTwo(src, i + 1 + |p.blank|, nl, more);
    NewlineStands(src, i + 1 + |p.blank|, p.newline);
  }

  lemma {:induction false} JoinScanned(src: seq<byte>, i: nat, p: Piece)
    requires p.Join? && PieceOk(p, true) && Stands(src, i, PieceText(p))
    requires var e := i + |PieceText(p)|; e < |src| && !IsWhite(src[e])
    ensures EscapeEnd(src, i + 1, true) == Some(i + |PieceText(p)|)
  {
    hide PieceOk, Stands, PieceText, WhitesText, NewlineText, EscapeEnd, IsBlank, SkipSpaces, SkipBlanks;
    JoinStands(src, i, p);
    var m := i + 1 + |p.blank|;
    assert !(src[m] == SPACE || src[m] == TAB);
    SpacesSkipped(src, i + 1, p.blank);
    WhitesSkipped(src, m + GetLen(src, m), p.more);
    LineEscape(src, i + 1, m);
  }

  /** Where a line-ending backslash ends. */
  lemma {:induction false} LineEscape(src: seq<byte>, i: nat, m: nat)
    requires i <= m < |src| && SkipSpaces(src, i) == m && GetChar(src, m) == LF
    requires src[i] == SPACE || src[i] == TAB || i == m
    ensures EscapeEnd(src, i, true) == Some(SkipBlanks(src, m + GetLen(src, m)))
  {
    hide SkipSpaces, SkipBlanks, HexDigits;
    assert GetChar(src, i) == SPACE || GetChar(src, i) == TAB || GetChar(src, i) == LF;
  }

  /** An escape ends where its text ends. */
  lemma {:induction false} EscapeScanned(src: seq<byte>, i: nat, p: Piece, multiline: bool)
    requires PieceOk(p, multiline) && (p.Short? || p.Code? || p.Join?) && Stands(src, i, PieceText(p))
    requires var e := i + |PieceText(p)|; p.Join? ==> e < |src| && !IsWhite(src[e])
    ensures EscapeEnd(src, i + 1, multiline) == Some(i + |PieceText(p)|)
  {
    match p {
      case Short(c) => ShortStands(src, i, c);
      case Code(_, _, _) =>
        CodeStands(src, i, p);
        hide HexDigits, HexNumber, PieceText;
      case Join(_, _, _) => JoinScanned(src, i, p);
    }
  }

  // ---------- the body of a basic string, scanned

  lemma {:induction false} PiecesCut(src: seq<byte>, i: nat, ps: seq<Piece>)
    requires ps != []
    ensures Stands(src, i, PiecesText(ps)) <==>
            Stands(src, i, PieceText(ps[0])) && Stands(src, i + |PieceText(ps[0])|, PiecesText(ps[1..]))
    ensures |PiecesText(ps)| == |PieceText(ps[0])| + |PiecesText(ps[1..])|
  {
    hide Stands, PieceText;
    StandsTwo(src, i, PieceText(ps[0]), PiecesText(ps[1..]));
  }

  lemma {:induction false} PiecesRest(ps: seq<Piece>, multiline: bool)
    requires ps != [] && PiecesOk(ps, multiline)
    ensures PieceOk(ps[0], multiline) && PiecesOk(ps[1..], multiline)
  {
    hide PieceOk, IsWhitePiece;
    InRest(ps);
    var rest := ps[1..];
    forall k | 0 <= k < |rest| - 2 ensures !(rest[k] == rest[k + 1] == rest[k + 2] == Raw(QUOTE)) {
      assert !(ps[k + 1] == ps[k + 2] == ps[k + 3] == Raw(QUOTE));
    }
  }

  lemma {:induction false} BasicScanned(src: seq<byte>, i: nat, ps: seq<Piece>)
    requires PiecesOk(ps, false) && Stands(src, i, PiecesText(ps))
    requires var e := i + |PiecesText(ps)|; e < |src| && src[e] == QUOTE
    ensures StringEnd(src, i) == Some(i + |PiecesText(ps)|)
    decreases |ps|
  {
    hide Stands, PieceText, PiecesOk, EscapeEnd;
    if ps != [] {
      hide PiecesText;
      var p := ps[0];
      PiecesCut(src, i, ps);
      PiecesRest(ps, false);
      PieceStarts(p, false, src, i);
      BasicScanned(src, i + |PieceText(p)|, ps[1..]);
      if !p.Raw? {
        EscapeScanned(src, i, p, false);
      }
    }
  }

  // ---------- of a multi-line basic string

  /** Whether a run of quotes at i reaches behind the pieces. */
  lemma {:induction false} RawQuoteAt(src: seq<byte>, i: nat, ps: seq<Piece>)
    requires PiecesOk(ps, true) && ps != [] && ps[0] == Raw(QUOTE) && Stands(src, i, PiecesText(ps))
    requires Stands(src, i + |PiecesText(ps)|, QUOTES)
    requires var e := i + |PiecesText(ps)| + 3; e < |src| ==> src[e] != QUOTE
    ensures !(MatchN(src, i, QUOTE, 3) && !MatchN(src, i, QUOTE, 4)) && !MatchN(src, i, QUOTE, 6)
  {
    hide Stands, PieceText, PiecesText, PiecesOk;
    PiecesCut(src, i, ps);
    PiecesRest(ps, true);
    PieceStarts(ps[0], true, src, i);
    var e := i + |PiecesText(ps)|;
    QuotesStand(src, e);
    if |ps| == 1 {
      NoPieces(ps[1..]);
      assert i + 4 < |src| ==> src[i + 4] == src[e + 3];
    } else {
      PiecesCut(src, i + 1, ps[1..]);
      PiecesRest(ps[1..], true);
      PieceStarts(ps[1], true, src, i + 1);
      if ps[1] == Raw(QUOTE) {
        RawQuotesAt(src, i, ps, e);
      }
    }
  }

  lemma {:induction false} NoPieces(ps: seq<Piece>)
    requires ps == []
    ensures PiecesText(ps) == []
  {}

  lemma {:induction false} QuotesStand(src: seq<byte>, e: nat)
    requires Stands(src, e, QUOTES)
    ensures e + 3 <= |src| && src[e] == QUOTE && src[e + 1] == QUOTE && src[e + 2] == QUOTE
  {
    StandsAt(src, e, QUOTES, 0);
    StandsAt(src, e, QUOTES, 1);
    StandsAt(src, e, QUOTES, 2);
  }

  /** Two quotes, and no third piece that is one. */
  lemma {:induction false} RawQuotesAt(src: seq<byte>, i: nat, ps: seq<Piece>, e: nat)
    requires PiecesOk(ps, true) && |ps| > 1 && ps[0] == ps[1] == Raw(QUOTE) && i + 2 <= |src|
    requires src[i] == QUOTE && src[i + 1] == QUOTE && Stands(src, i + 1, PiecesText(ps[1..]))
    requires e == i + 1 + |PiecesText(ps[1..])| && e + 3 <= |src| && (e + 3 < |src| ==> src[e + 3] != QUOTE)
    requires src[e] == QUOTE && src[e + 1] == QUOTE && src[e + 2] == QUOTE
    ensures !(MatchN(src, i, QUOTE, 3) && !MatchN(src, i, QUOTE, 4)) && !MatchN(src, i, QUOTE, 6)
  {
    hide Stands, PieceText, PiecesText;
    var rest := ps[1..];
    PiecesRest(ps, true);
    PiecesCut(src, i + 1, rest);
    PiecesRest(rest, true);
    PieceStarts(rest[0], true, src, i + 1);
    var more := rest[1..];
    if more == [] {
      NoPieces(more);
      assert e == i + 2;
    } else {
      PiecesCut(src, i + 2, more);
      PiecesRest(more, true);
      PieceStarts(more[0], true, src, i + 2);
      assert more[0] == ps[2];
      assert src[i + 2] != QUOTE;
    }
  }

  /** The piece behind a line-ending backslash. */
  lemma {:induction false} BehindJoin(src: seq<byte>, i: nat, ps: seq<Piece>)
    requires PiecesOk(ps, true) && ps != [] && ps[0].Join? && Stands(src, i, PiecesText(ps))
    requires var e := i + |PiecesText(ps)|; e < |src| && src[e] == QUOTE
    ensures var e := i + |PieceText(ps[0])|; e < |src| && !IsWhite(src[e])
  {
    hide Stands, PieceText, PiecesText;
    PiecesCut(src, i, ps);
    var rest := ps[1..];
    PiecesRest(ps, true);
    var e := i + |PieceText(ps[0])|;
    if rest == [] {
      NoPieces(rest);
    } else {
      PiecesCut(src, e, rest);
      PiecesRest(rest, true);
      PieceStarts(rest[0], true, src, e);
      assert rest[0] == ps[1];
    }
  }

  /** One piece, stepped over. */
  lemma {:induction false} MlPieceScanned(src: seq<byte>, i: nat, ps: seq<Piece>)
    requires PiecesOk(ps, true) && ps != [] && Stands(src, i, PiecesText(ps))
    requires Stands(src, i + |PiecesText(ps)|, QUOTES)
    requires var e := i + |PiecesText(ps)| + 3; e < |src| ==> src[e] != QUOTE
    ensures i + |PieceText(ps[0])| <= |src|
    ensures MlStringEnd(src, i) == MlStringEnd(src, i + |PieceText(ps[0])|)
  {
    hide Stands, PieceText, PiecesText, PiecesOk, EscapeEnd;
    var p := ps[0];
    PiecesCut(src, i, ps);
    PiecesRest(ps, true);
    PieceStarts(p, true, src, i);
    QuotesStand(src, i + |PiecesText(ps)|);
    if p == Raw(QUOTE) {
      RawQuoteAt(src, i, ps);
      hide MatchN;
    } else if p.Raw? {
    } else if p.Break? {
      BreakStands(src, i, p);
    } else {
      if p.Join? {
        BehindJoin(src, i, ps);
      }
      EscapeScanned(src, i, p, true);
    }
  }

  lemma {:induction false} BreakStands(src: seq<byte>, i: nat, p: Piece)
    requires p.Break? && Stands(src, i, PieceText(p))
    ensures i < |src| && GetChar(src, i) == LF && GetLen(src, i) == |PieceText(p)| && (src[i] == CR || src[i] == LF)
  {
    NewlineStands(src, i, p.newline);
  }

  lemma {:induction false} MlBasicScanned(src: seq<byte>, i: nat, ps: seq<Piece>)
    requires PiecesOk(ps, true) && Stands(src, i, PiecesText(ps)) && Stands(src, i + |PiecesText(ps)|, QUOTES)
    requires var e := i + |PiecesText(ps)| + 3; e < |src| ==> src[e] != QUOTE
    ensures i + |PiecesText(ps)| <= |src| && MlStringEnd(src, i) == Some(i + |PiecesText(ps)|)
    decreases |ps|
  {
    hide Stands, PieceText, PiecesOk;
    if ps == [] {
      QuotesStand(src, i);
    } else {
      hide PiecesText, MlStringEnd;
      PiecesCut(src, i, ps);
      PiecesRest(ps, true);
      MlPieceScanned(src, i, ps);
      MlBasicScanned(src, i + |PieceText(ps[0])|, ps[1..]);
    }
  }

  // ---------- what they are unescaped to

  lemma {:induction false} RefusedCodes(v: nat)
    ensures IsRefusedCode(v) <==> IsSurrogate(v) || Encode(v).None?
    ensures v < 256 ==> !IsRefusedCode(v)
  {}

  lemma {:induction false} ByteCodes(digits: nat, code: nat)
    requires code < Power16(digits)
    ensures digits == 2 ==> code < 256
  {
    if digits == 2 {
      assert Power16(1) == 16;
    }
  }

  /** One escape. */
  lemma {:induction false} EscapeUnescaped(b: seq<byte>, i: nat, p: Piece, multiline: bool)
    requires PieceOk(p, multiline) && (p.Short? || p.Code?) && Stands(b, i, PieceText(p))
    ensures i < |b| && b[i] == BACKSLASH
    ensures Escape(b, i) == var t := PieceMeaning(p); if t.Ok? then Ok((t.value, i + |PieceText(p)|)) else Err(t.error)
  {
    hide Stands, HexNumber, HexDigits, Encode;
    match p {
      case Short(c) => ShortStands(b, i, c);
      case Code(n, v, _) =>
        CodeStands(b, i, p);
        RefusedCodes(v);
        ByteCodes(n, v);
        hide PieceText;
    }
  }

  lemma {:induction false} BlankUnescaped(b: seq<byte>, i: nat, w: seq<byte>)
    requires Stands(b, i, w) && IsBlank(w)
    ensures i + |w| <= |b| && SkipWhite(b, i, false) == SkipWhite(b, i + |w|, false)
    ensures w != [] ==> b[i] == SPACE || b[i] == TAB
    decreases |w|
  {
    if w != [] {
      StandsFirst(b, i, w);
      InRest(w);
      BlankUnescaped(b, i + 1, w[1..]);
    }
  }

  lemma {:induction false} WhitesUnescaped(b: seq<byte>, i: nat, ws: seq<White>)
    requires Stands(b, i, WhitesText(ws))
    requires var e := i + |WhitesText(ws)|; e < |b| ==> !IsWhite(b[e])
    ensures i + |WhitesText(ws)| <= |b| && SkipWhite(b, i, true) == i + |WhitesText(ws)|
    decreases |ws|
  {
    if ws == [] {
      StandsLength(b, i, []);
    } else {
      var t := WhiteText(ws[0]);
      StandsTwo(b, i, t, WhitesText(ws[1..]));
      WhitesUnescaped(b, i + |t|, ws[1..]);
      match ws[0] {
        case Space => StandsOne(b, i, SPACE);
        case Tab => StandsOne(b, i, TAB);
        case NewLine(n) =>
          NewlineStands(b, i, n);
          StandsLength(b, i, NewlineText(n));
      }
    }
  }

  lemma {:induction false} JoinUnescaped(b: seq<byte>, i: nat, p: Piece)
    requires p.Join? && PieceOk(p, true) && Stands(b, i, PieceText(p))
    requires var e := i + |PieceText(p)|; e < |b| ==> !IsWhite(b[e])
    ensures i < |b| && b[i] == BACKSLASH && Escape(b, i) == Ok(([], i + |PieceText(p)|))
  {
    hide Stands, PieceText, WhitesText, Escape, SkipWhite, PieceOk, IsBlank, NewlineText;
    JoinStands(b, i, p);
    var m := i + 1 + |p.blank|;
    NewlineSkipped(b, m, p.newline);
    BlankUnescaped(b, i + 1, p.blank);
    var k := m + |NewlineText(p.newline)| - 1;
    WhitesUnescaped(b, k + 1, p.more);
    LineUnescaped(b, i, k);
  }

  lemma {:induction false} NewlineSkipped(b: seq<byte>, m: nat, n: Newline)
    requires Stands(b, m, NewlineText(n))
    ensures var k := m + |NewlineText(n)| - 1; m <= k < |b| && b[k] == LF && SkipWhite(b, m, false) == k
  {
    NewlineStands(b, m, n);
    StandsLength(b, m, NewlineText(n));
  }

  lemma {:induction false} LineUnescaped(b: seq<byte>, i: nat, k: nat)
    requires i + 1 <= k < |b| && b[i] == BACKSLASH && IsWhite(b[i + 1])
    requires SkipWhite(b, i + 1, false) == k && b[k] == LF
    ensures Escape(b, i) == Ok(([], SkipWhite(b, k + 1, true)))
  {
    hide HexDigits, HexNumber, Encode;
    assert SkipWhite(b, k, true) == SkipWhite(b, k + 1, true);
    hide SkipWhite;
  }

  /** A piece of a body turns into what it means. */
  ghost predicate Turns(b: seq<byte>, i: nat, e: nat, t: Result<Text>) {
    && i <= e <= |b|
    && var r := Unescape(b, e);
       Unescape(b, i) == if t.Err? then Err(t.error) else if r.Err? then Err(r.error) else Ok(t.value + r.value)
  }

  lemma {:induction false} RawTurns(b: seq<byte>, i: nat)
    requires i < |b| && b[i] != BACKSLASH && b[i] != 0
    ensures Turns(b, i, i + 1, Ok([b[i]]))
  {
    hide Escape;
  }

  lemma {:induction false} EscapeTurns(b: seq<byte>, i: nat, e: nat, t: Result<Text>)
    requires i < |b| && b[i] == BACKSLASH && i < e <= |b|
    requires Escape(b, i) == if t.Ok? then Ok((t.value, e)) else Err(t.error)
    ensures Turns(b, i, e, t)
  {
    hide Escape;
  }

  /** One piece of a body, with what has to stand behind it. */
  lemma {:induction false} PieceUnescaped(b: seq<byte>, i: nat, p: Piece, multiline: bool)
    requires PieceOk(p, multiline) && Stands(b, i, PieceText(p))
    requires var e := i + |PieceText(p)|; p.Join? && e < |b| ==> !IsWhite(b[e])
    ensures Turns(b, i, i + |PieceText(p)|, PieceMeaning(p))
  {
    hide Stands, PieceText, Escape, Unescape, PieceMeaning, PieceOk, IsWhite, Turns;
    PieceStarts(p, multiline, b, i);
    PieceMeans(p);
    var e := i + |PieceText(p)|;
    match p {
      case Raw(c) => RawTurns(b, i);
      case Break(n) => BreakTurns(b, i, p);
      case Join(_, _, _) =>
        JoinIsMultiline(p, multiline);
        JoinUnescaped(b, i, p);
        EscapeTurns(b, i, e, Ok([]));
      case Short(_) =>
        EscapeUnescaped(b, i, p, multiline);
        EscapeTurns(b, i, e, PieceMeaning(p));
      case Code(_, _, _) =>
        EscapeUnescaped(b, i, p, multiline);
        EscapeTurns(b, i, e, PieceMeaning(p));
    }
  }

  lemma {:induction false} JoinIsMultiline(p: Piece, multiline: bool)
    requires PieceOk(p, multiline) && p.Join?
    ensures PieceOk(p, true)
  {}

  lemma {:induction false} PieceMeans(p: Piece)
    ensures p.Raw? ==> PieceMeaning(p) == Ok([p.c])
    ensures p.Break? ==> PieceMeaning(p) == Ok(NewlineText(p.newline))
    ensures p.Join? ==> PieceMeaning(p) == Ok([])
  {}

  lemma {:induction false} BreakTurns(b: seq<byte>, i: nat, p: Piece)
    requires p.Break? && Stands(b, i, PieceText(p))
    ensures Turns(b, i, i + |PieceText(p)|, Ok(NewlineText(p.newline)))
  {
    hide Unescape, Stands, PieceText, NewlineText;
    BreakUnescaped(b, i, p);
  }

  lemma {:induction false} BreakUnescaped(b: seq<byte>, i: nat, p: Piece)
    requires p.Break? && Stands(b, i, PieceText(p))
    ensures i + |PieceText(p)| <= |b|
    ensures var r := Unescape(b, i + |PieceText(p)|);
            Unescape(b, i) == if r.Err? then Err(r.error) else Ok(NewlineText(p.newline) + r.value)
  {
    NewlineStands(b, i, p.newline);
    StandsLength(b, i, PieceText(p));
    var r := Unescape(b, i + |PieceText(p)|);
    if p.newline.CrLf? {
      assert Unescape(b, i + 1) == if r.Err? then Err(r.error) else Ok([LF] + r.value);
      assert r.Ok? ==> [CR] + ([LF] + r.value) == [CR, LF] + r.value;
    }
  }

  /** The piece behind a line-ending backslash, in a body that ends with its pieces. */
  lemma {:induction false} BehindJoinInBody(b: seq<byte>, i: nat, ps: seq<Piece>, multiline: bool)
    requires PiecesOk(ps, multiline) && ps != [] && ps[0].Join? && Stands(b, i, PiecesText(ps)) && i + |PiecesText(ps)| == |b|
    ensures var e := i + |PieceText(ps[0])|; e < |b| ==> !IsWhite(b[e])
  {
    hide Stands, PieceText, PiecesText;
    PiecesCut(b, i, ps);
    var rest := ps[1..];
    PiecesRest(ps, multiline);
    var e := i + |PieceText(ps[0])|;
    if rest == [] {
      NoPieces(rest);
    } else {
      PiecesCut(b, e, rest);
      PiecesRest(rest, multiline);
      PieceStarts(rest[0], multiline, b, e);
      assert rest[0] == ps[1];
    }
  }

  lemma {:induction false} PiecesUnescaped(b: seq<byte>, i: nat, ps: seq<Piece>, multiline: bool)
    requires PiecesOk(ps, multiline) && Stands(b, i, PiecesText(ps)) && i + |PiecesText(ps)| == |b|
    ensures Unescape(b, i) == PiecesMeaning(ps)
    decreases |ps|
  {
    hide Stands, PieceText, PiecesOk;
    if ps != [] {
      hide PiecesText, Unescape, PieceMeaning;
      PiecesCut(b, i, ps);
      PiecesRest(ps, multiline);
      if ps[0].Join? {
        BehindJoinInBody(b, i, ps, multiline);
      }
      PieceUnescaped(b, i, ps[0], multiline);
      PiecesUnescaped(b, i + |PieceText(ps[0])|, ps[1..], multiline);
    }
  }

  // ---------- literal strings

  lemma {:induction false} LiteralScanned(src: seq<byte>, i: nat, t: Text)
    requires LiteralOk(t) && Stands(src, i, t) && i + |t| < |src| && src[i + |t|] == APOSTROPHE
    ensures LitStringEnd(src, i) == Some(i + |t|)
    decreases |t|
  {
    if t != [] {
      StandsFirst(src, i, t);
      InRest(t);
      LiteralScanned(src, i + 1, t[1..]);
    }
  }

  /** The text and the apostrophes behind it. */
  ghost predicate MlLiteralAt(src: seq<byte>, i: nat, t: Text) {
    var e := i + |t|;
    && e + 3 <= |src| && (forall j :: 0 <= j < |t| ==> src[i + j] == t[j])
    && src[e] == APOSTROPHE && src[e + 1] == APOSTROPHE && src[e + 2] == APOSTROPHE
    && (e + 3 < |src| ==> src[e + 3] != APOSTROPHE)
  }

  lemma {:induction false} ApostropheAt(src: seq<byte>, i: nat, t: Text, k: nat)
    requires MlLiteralOk(t) && MlLiteralAt(src, i, t) && k < |t|
    ensures !(MatchN(src, i + k, APOSTROPHE, 3) && !MatchN(src, i + k, APOSTROPHE, 4))
    ensures !MatchN(src, i + k, APOSTROPHE, 6)
  {
    var p := i + k;
    var e := i + |t|;
    if |t| - k >= 3 {
      assert src[p] == t[k] && src[p + 1] == t[k + 1] && src[p + 2] == t[k + 2];
    } else if |t| - k == 2 {
      assert src[p] == t[k] && src[p + 1] == t[k + 1];
      assert e == p + 2;
    } else {
      assert e == p + 1;
    }
  }

  lemma {:induction false} MlLiteralScanned(src: seq<byte>, i: nat, t: Text, k: nat)
    requires MlLiteralOk(t) && MlLiteralAt(src, i, t) && k <= |t|
    ensures MlLitStringEnd(src, i + k) == Some(i + |t|)
    decreases |t| - k
  {
    if k < |t| {
      ApostropheAt(src, i, t, k);
      hide MatchN;
      assert src[i + k] == t[k] && MlLiteralChar(t, k);
      if t[k] == CR {
        assert src[i + k + 1] == t[k + 1] == LF;
        MlLiteralScanned(src, i, t, k + 2);
      } else {
        MlLiteralScanned(src, i, t, k + 1);
      }
    }
  }

  lemma {:induction false} MlLiteralStands(src: seq<byte>, i: nat, t: Text)
    requires Stands(src, i, t) && Stands(src, i + |t|, APOSTROPHES)
    requires var e := i + |t| + 3; e < |src| ==> src[e] != APOSTROPHE
    ensures MlLiteralAt(src, i, t)
  {
    var e := i + |t|;
    StandsAt(src, e, APOSTROPHES, 0);
    StandsAt(src, e, APOSTROPHES, 1);
    StandsAt(src, e, APOSTROPHES, 2);
    forall j | 0 <= j < |t| ensures src[i + j] == t[j] {
      StandsAt(src, i, t, j);
    }
  }

  // ---------- tokens

  predicate InQuotes(x: Str) { x.Basic? || x.MlBasic? }

  function QuoteOf(x: Str): byte { if InQuotes(x) then QUOTE else APOSTROPHE }

  /** What stands between the quotes, without a newline right behind the opening ones. */
  function BodyText(x: Str): seq<byte> {
    match x
    case Basic(ps) => PiecesText(ps)
    case Literal(t) => t
    case MlBasic(_, ps) => PiecesText(ps)
    case MlLiteral(_, t) => t
  }

  function BodyOffset(x: Str): nat {
    match x
    case Basic(_) => 1
    case Literal(_) => 1
    case MlBasic(first, _) => 3 + |FirstText(first)|
    case MlLiteral(first, _) => 3 + |FirstText(first)|
  }

  function TypeOfStr(x: Str): TokTyp {
    match x
    case Basic(_) => TokTyp.String
    case Literal(_) => LitString
    case MlBasic(_, _) => MlString
    case MlLiteral(_, _) => MlLitString
  }

  /** The token of a string that stands at p. */
  function TokenOf(src: seq<byte>, p: nat, x: Str): Token
    requires p + BodyOffset(x) + |BodyText(x)| <= |src|
  {
    var i := p + BodyOffset(x);
    var e := i + |BodyText(x)|;
    Token(TypeOfStr(x), i, e - i, if InQuotes(x) then FirstOf(src, i, e, BACKSLASH) else None, Unknown)
  }

  /** The token is scanned, and its characters are the body. */
  ghost predicate StrScannedAt(src: seq<byte>, p: nat, x: Str) {
    var i := p + BodyOffset(x);
    var n := |BodyText(x)|;
    && p < |src| && src[p] == QuoteOf(x) && p + |StrText(x)| <= |src| && i + n < p + |StrText(x)|
    && src[i..i + n] == BodyText(x)
    && (if InQuotes(x) then ScanString(src, p) else ScanLitString(src, p)) ==
       Ok((TokenOf(src, p, x), p + |StrText(x)|))
  }

  lemma {:induction false} StandsThree(src: seq<byte>, i: nat, a: seq<byte>, b: seq<byte>, c: seq<byte>)
    ensures Stands(src, i, a + (b + c)) <==>
            Stands(src, i, a) && Stands(src, i + |a|, b) && Stands(src, i + |a| + |b|, c)
  {
    hide Stands;
    StandsTwo(src, i, a, b + c);
    StandsTwo(src, i + |a|, b, c);
  }

  /** What follows a string does not look like one more of its quotes. */
  ghost predicate NotQuoted(src: seq<byte>, e: nat, x: Str) { e < |src| ==> src[e] != QuoteOf(x) }

  lemma {:induction false} ScanStringIs(src: seq<byte>, p: nat, e: nat)
    requires p < |src| && src[p] == QUOTE && !MatchN(src, p, QUOTE, 3) && StringEnd(src, p + 1) == Some(e)
    ensures ScanString(src, p) ==
            Ok((Token(TokTyp.String, p + 1, e - (p + 1), FirstOf(src, p + 1, e, BACKSLASH), Unknown), e + 1))
  {
    hide StringEnd, FirstOf, MatchN, MlStringEnd;
  }

  lemma {:induction false} ScanMlStringIs(src: seq<byte>, p: nat, i: nat, e: nat)
    requires p + 3 <= |src| && src[p] == QUOTE && MatchN(src, p, QUOTE, 3)
    requires BodyStart(src, p + 3) == i && MlStringEnd(src, i) == Some(e)
    ensures ScanString(src, p) == Ok((Token(MlString, i, e - i, FirstOf(src, i, e, BACKSLASH), Unknown), e + 3))
  {
    hide StringEnd, FirstOf, MatchN, MlStringEnd, BodyStart;
  }

  lemma {:induction false} ScanMlLiteralIs(src: seq<byte>, p: nat, i: nat, e: nat)
    requires p + 3 <= |src| && src[p] == APOSTROPHE && MatchN(src, p, APOSTROPHE, 3)
    requires BodyStart(src, p + 3) == i && MlLitStringEnd(src, i) == Some(e)
    ensures ScanLitString(src, p) == Ok((Plain(MlLitString, i, e - i), e + 3))
  {
    hide LitStringEnd, MatchN, MlLitStringEnd, BodyStart;
  }

  lemma {:induction false} BasicAt(src: seq<byte>, p: nat, x: Str)
    requires x.Basic? && p + |BodyText(x)| + 2 <= |src| && src[p] == QUOTE
    requires var e := p + 1 + |BodyText(x)|;
             && src[p + 1..e] == BodyText(x)
             && ScanString(src, p) == Ok((Token(TokTyp.String, p + 1, e - (p + 1), FirstOf(src, p + 1, e, BACKSLASH), Unknown), e + 1))
    ensures StrScannedAt(src, p, x)
  {
    hide ScanString, PiecesText, FirstOf;
  }

  lemma {:induction false} BasicIs(x: Str)
    requires x.Basic?
    ensures StrText(x) == [QUOTE] + (PiecesText(x.pieces) + [QUOTE]) && BodyText(x) == PiecesText(x.pieces)
    ensures |StrText(x)| == 2 + |BodyText(x)| && QuoteOf(x) == QUOTE && (StrOk(x) ==> PiecesOk(x.pieces, false))
  {
    hide PiecesText, PiecesOk;
  }

  /** Behind the first quote stands no second one that a third follows. */
  lemma {:induction false} OneQuote(src: seq<byte>, p: nat, ps: seq<Piece>)
    requires PiecesOk(ps, false) && Stands(src, p + 1, PiecesText(ps))
    requires var e := p + 1 + |PiecesText(ps)|; e < |src| && (e + 1 < |src| ==> src[e + 1] != QUOTE)
    ensures !MatchN(src, p, QUOTE, 3)
  {
    hide Stands, PiecesText, PiecesOk;
    if ps == [] {
      NoPieces(ps);
    } else {
      FirstPiece(src, p + 1, ps);
    }
  }

  lemma {:induction false} BasicToken(src: seq<byte>, p: nat, x: Str)
    requires x.Basic? && StrOk(x) && Stands(src, p, StrText(x)) && NotQuoted(src, p + |StrText(x)|, x)
    ensures StrScannedAt(src, p, x)
  {
    hide Stands, PiecesText, StringEnd, FirstOf, MlStringEnd, PiecesOk, ScanString, StrScannedAt, MatchN, StrText;
    var t := PiecesText(x.pieces);
    BasicIs(x);
    StandsLength(src, p, StrText(x));
    StandsThree(src, p, [QUOTE], t, [QUOTE]);
    StandsOne(src, p, QUOTE);
    StandsOne(src, p + 1 + |t|, QUOTE);
    BasicScanned(src, p + 1, x.pieces);
    BodyIs(src, p + 1, t);
    OneQuote(src, p, x.pieces);
    ScanStringIs(src, p, p + 1 + |t|);
    BasicAt(src, p, x);
  }

  lemma {:induction false} BodyIs(src: seq<byte>, i: nat, t: seq<byte>)
    requires Stands(src, i, t)
    ensures i + |t| <= |src| && src[i..i + |t|] == t
  {}

  lemma {:induction false} FirstPiece(src: seq<byte>, i: nat, ps: seq<Piece>)
    requires PiecesOk(ps, false) && ps != [] && Stands(src, i, PiecesText(ps))
    ensures i < |src| && src[i] != QUOTE
  {
    hide Stands, PieceText, PiecesText;
    PiecesCut(src, i, ps);
    PiecesRest(ps, false);
    PieceStarts(ps[0], false, src, i);
  }

  lemma {:induction false} ScanLiteralIs(src: seq<byte>, p: nat, e: nat)
    requires p < |src| && src[p] == APOSTROPHE && !MatchN(src, p, APOSTROPHE, 3) && LitStringEnd(src, p + 1) == Some(e)
    ensures ScanLitString(src, p) == Ok((Plain(LitString, p + 1, e - (p + 1)), e + 1))
  {
    hide LitStringEnd, MatchN, MlLitStringEnd;
  }

  /** Behind the first apostrophe stands no second one that a third follows. */
  lemma {:induction false} OneApostrophe(src: seq<byte>, p: nat, t: Text)
    requires LiteralOk(t) && Stands(src, p + 1, t) && p + 1 + |t| < |src| && src[p + 1 + |t|] == APOSTROPHE
    requires p + 2 + |t| < |src| ==> src[p + 2 + |t|] != APOSTROPHE
    ensures !MatchN(src, p, APOSTROPHE, 3)
  {
    hide Stands;
    if t != [] {
      StandsFirst(src, p + 1, t);
      InRest(t);
    }
  }

  lemma {:induction false} LiteralToken(src: seq<byte>, p: nat, x: Str)
    requires x.Literal? && StrOk(x) && Stands(src, p, StrText(x)) && NotQuoted(src, p + |StrText(x)|, x)
    ensures StrScannedAt(src, p, x)
  {
    hide Stands, LitStringEnd, ScanLitString, LiteralOk, MatchN;
    var t := x.text;
    StandsLength(src, p, StrText(x));
    StandsThree(src, p, [APOSTROPHE], t, [APOSTROPHE]);
    StandsOne(src, p, APOSTROPHE);
    StandsOne(src, p + 1 + |t|, APOSTROPHE);
    LiteralScanned(src, p + 1, t);
    BodyIs(src, p + 1, t);
    OneApostrophe(src, p, t);
    ScanLiteralIs(src, p, p + 1 + |t|);
  }

  /** The newline right behind the opening quotes is left out. */
  lemma {:induction false} FirstSkipped(src: seq<byte>, i: nat, first: Option<Newline>)
    requires Stands(src, i, FirstText(first))
    requires var e := i + |FirstText(first)|; e < |src| && (first.None? ==> !Match(src, e, LF))
    ensures BodyStart(src, i) == i + |FirstText(first)|
  {
    if first.Some? {
      NewlineStands(src, i, first.value);
    }
  }

  /** A body that starts with no newline, and its closing quotes. */
  lemma {:induction false} BodyStartsNoLine(src: seq<byte>, i: nat, ps: seq<Piece>)
    requires PiecesOk(ps, true) && (ps == [] || !ps[0].Break?)
    requires Stands(src, i, PiecesText(ps)) && Stands(src, i + |PiecesText(ps)|, QUOTES)
    ensures i < |src| && !Match(src, i, LF)
  {
    hide Stands, PieceText, PiecesText;
    QuotesStand(src, i + |PiecesText(ps)|);
    if ps == [] {
      NoPieces(ps);
    } else {
      PiecesCut(src, i, ps);
      PiecesRest(ps, true);
      PieceStarts(ps[0], true, src, i);
      assert src[i] != CR && src[i] != LF by {
        assert ps[0].Raw? ==> src[i] == ps[0].c;
      }
    }
  }

  lemma {:induction false} MlBasicIs(x: Str)
    requires x.MlBasic?
    ensures StrText(x) == QUOTES + (FirstText(x.first) + (PiecesText(x.pieces) + QUOTES)) && BodyText(x) == PiecesText(x.pieces)
    ensures |StrText(x)| == 6 + |FirstText(x.first)| + |BodyText(x)| && QuoteOf(x) == QUOTE
    ensures StrOk(x) ==> PiecesOk(x.pieces, true) && (x.first.None? ==> x.pieces == [] || !x.pieces[0].Break?)
  {
    hide PiecesText, PiecesOk, FirstText;
  }

  lemma {:induction false} MlBasicAt(src: seq<byte>, p: nat, x: Str)
    requires x.MlBasic? && p + |StrText(x)| <= |src| && src[p] == QUOTE
    requires |StrText(x)| == 6 + |FirstText(x.first)| + |BodyText(x)|
    requires var i := p + 3 + |FirstText(x.first)|;
             var e := i + |BodyText(x)|;
             && src[i..e] == BodyText(x)
             && ScanString(src, p) == Ok((Token(MlString, i, e - i, FirstOf(src, i, e, BACKSLASH), Unknown), e + 3))
    ensures StrScannedAt(src, p, x)
  {
    hide ScanString, PiecesText, FirstOf, FirstText, StrText;
  }

  /** Where the body starts. */
  lemma {:induction false} MlBasicStart(src: seq<byte>, p: nat, x: Str)
    requires x.MlBasic? && StrOk(x) && Stands(src, p + 3, FirstText(x.first))
    requires var i := p + 3 + |FirstText(x.first)|;
             Stands(src, i, PiecesText(x.pieces)) && Stands(src, i + |PiecesText(x.pieces)|, QUOTES)
    ensures p + 3 <= |src| && BodyStart(src, p + 3) == p + 3 + |FirstText(x.first)|
  {
    hide Stands, PiecesText, PiecesOk, FirstText, BodyStart, StrText, StrOk;
    MlBasicIs(x);
    var t, f := PiecesText(x.pieces), FirstText(x.first);
    QuotesStand(src, p + 3 + |f| + |t|);
    if x.first.None? {
      BodyStartsNoLine(src, p + 3 + |f|, x.pieces);
    } else {
      BodyStarts(src, p + 3 + |f|, t, QUOTES);
    }
    FirstSkipped(src, p + 3, x.first);
  }

  lemma {:induction false} MlBasicToken(src: seq<byte>, p: nat, x: Str)
    requires x.MlBasic? && StrOk(x) && Stands(src, p, StrText(x)) && NotQuoted(src, p + |StrText(x)|, x)
    ensures StrScannedAt(src, p, x)
  {
    hide Stands, StrText, BodyText, PiecesText, FirstOf, MlStringEnd, PiecesOk, FirstText, ScanString, BodyStart, MatchN,
         StrOk, StrScannedAt;
    MlBasicIs(x);
    var t, f := PiecesText(x.pieces), FirstText(x.first);
    StandsLength(src, p, StrText(x));
    StandsThree(src, p, QUOTES, f, t + QUOTES);
    StandsTwo(src, p + 3 + |f|, t, QUOTES);
    QuotesStand(src, p);
    QuotesStand(src, p + 3 + |f| + |t|);
    MlBasicScanned(src, p + 3 + |f|, x.pieces);
    BodyIs(src, p + 3 + |f|, t);
    MlBasicStart(src, p, x);
    ThreeQuotes(src, p, QUOTE);
    ScanMlStringIs(src, p, p + 3 + |f|, p + 3 + |f| + |t|);
    MlBasicAt(src, p, x);
  }

  lemma {:induction false} BodyStarts(src: seq<byte>, i: nat, t: seq<byte>, u: seq<byte>)
    requires Stands(src, i, t) && Stands(src, i + |t|, u) && u != []
    ensures i < |src|
  {}

  lemma {:induction false} MlLiteralIs(x: Str)
    requires x.MlLiteral?
    ensures StrText(x) == APOSTROPHES + (FirstText(x.first) + (x.text + APOSTROPHES)) && BodyText(x) == x.text
    ensures |StrText(x)| == 6 + |FirstText(x.first)| + |x.text| && QuoteOf(x) == APOSTROPHE
  {
    hide FirstText;
  }

  lemma {:induction false} MlLiteralTokenAt(src: seq<byte>, p: nat, x: Str)
    requires x.MlLiteral? && p + |StrText(x)| <= |src| && src[p] == APOSTROPHE
    requires |StrText(x)| == 6 + |FirstText(x.first)| + |x.text|
    requires var i := p + 3 + |FirstText(x.first)|;
             var e := i + |x.text|;
             src[i..e] == x.text && ScanLitString(src, p) == Ok((Plain(MlLitString, i, e - i), e + 3))
    ensures StrScannedAt(src, p, x)
  {
    hide ScanLitString, FirstText, StrText;
  }

  lemma {:induction false} MlLiteralToken(src: seq<byte>, p: nat, x: Str)
    requires x.MlLiteral? && StrOk(x) && Stands(src, p, StrText(x)) && NotQuoted(src, p + |StrText(x)|, x)
    ensures StrScannedAt(src, p, x)
  {
    hide Stands, StrText, BodyText, MlLitStringEnd, MlLiteralOk, FirstText, ScanLitString, BodyStart, MatchN, MlLiteralAt,
         StrScannedAt;
    MlLiteralIs(x);
    var t, f := x.text, FirstText(x.first);
    StandsLength(src, p, StrText(x));
    StandsThree(src, p, APOSTROPHES, f, t + APOSTROPHES);
    StandsTwo(src, p + 3 + |f|, t, APOSTROPHES);
    MlLiteralStands(src, p + 3 + |f|, t);
    MlLiteralScanned(src, p + 3 + |f|, t, 0);
    BodyIs(src, p + 3 + |f|, t);
    ApostrophesStand(src, p);
    LiteralStart(src, p + 3 + |f|, t);
    FirstSkipped(src, p + 3, x.first);
    ThreeQuotes(src, p, APOSTROPHE);
    ScanMlLiteralIs(src, p, p + 3 + |f|, p + 3 + |f| + |t|);
    MlLiteralTokenAt(src, p, x);
  }

  lemma {:induction false} ThreeQuotes(src: seq<byte>, p: nat, c: byte)
    requires p + 3 <= |src| && src[p] == c && src[p + 1] == c && src[p + 2] == c
    ensures MatchN(src, p, c, 3)
  {}

  lemma {:induction false} ApostrophesStand(src: seq<byte>, e: nat)
    requires Stands(src, e, APOSTROPHES)
    ensures e + 3 <= |src| && src[e] == APOSTROPHE && src[e + 1] == APOSTROPHE && src[e + 2] == APOSTROPHE
  {
    StandsAt(src, e, APOSTROPHES, 0);
    StandsAt(src, e, APOSTROPHES, 1);
    StandsAt(src, e, APOSTROPHES, 2);
  }

  lemma {:induction false} LiteralStart(src: seq<byte>, i: nat, t: Text)
    requires MlLiteralAt(src, i, t)
    ensures i < |src| && (!StartsLine(t) ==> !Match(src, i, LF))
  {
    if t != [] {
      assert src[i + 0] == t[0];
      assert |t| > 1 ==> src[i + 1] == t[1];
    }
  }

  /** A string is one token, of its kind and with its body. */
  lemma {:induction false} StrScanned(src: seq<byte>, p: nat, x: Str)
    requires StrOk(x) && Stands(src, p, StrText(x)) && NotQuoted(src, p + |StrText(x)|, x)
    ensures StrScannedAt(src, p, x)
  {
    hide StrOk, Stands, StrText, StrScannedAt, NotQuoted;
    match x {
      case Basic(_) => BasicToken(src, p, x);
      case Literal(_) => LiteralToken(src, p, x);
      case MlBasic(_, _) => MlBasicToken(src, p, x);
      case MlLiteral(_, _) => MlLiteralToken(src, p, x);
    }
  }
}
