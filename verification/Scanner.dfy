/** scanner_t: the scanner as the code has it, moving a cursor over the text. */
module Scanners {
  import opened Basics
  import opened Datum
  import opened Numbers
  import opened Stamps
  import opened StampReaders
  import opened Scanning
  import opened Parsing

  /** The line feeds among the first j bytes. */
  function LineFeeds(src: seq<byte>, j: nat): nat
    requires j <= |src|
  {
    if j == 0 then 0 else LineFeeds(src, j - 1) + if src[j - 1] == LF then 1 else 0
  }

  /** No line ends between i and j. */
  lemma {:induction false} OneLine(src: seq<byte>, i: nat, j: nat)
    requires i <= j <= |src| && forall k :: i <= k < j ==> src[k] != LF
    ensures LineFeeds(src, i) == LineFeeds(src, j)
    decreases j
  {
    if i < j {
      OneLine(src, i, j - 1);
    }
  }

  lemma GetLineFeeds(src: seq<byte>, i: nat)
    requires i <= |src|
    ensures LineFeeds(src, i + GetLen(src, i)) == LineFeeds(src, i) + if GetChar(src, i) == LF then 1 else 0
  {
    if GetLen(src, i) == 2 {
      assert LineFeeds(src, i + 2) == LineFeeds(src, i + 1) + 1;
    }
  }

  /** The first c of src[i..j] is known, or there is none. */
  ghost predicate IsFirst(src: seq<byte>, i: nat, j: nat, c: byte, e: Option<nat>)
    requires i <= j <= |src|
  {
    match e
    case None => forall k :: i <= k < j ==> src[k] != c
    case Some(m) => i <= m < j && src[m] == c && forall k :: i <= k < m ==> src[k] != c
  }

  lemma FirstIs(src: seq<byte>, i: nat, j: nat, c: byte, e: Option<nat>)
    requires i <= j <= |src| && IsFirst(src, i, j, c, e)
    ensures FirstOf(src, i, j, c) == e
  {
    var r := FirstOf(src, i, j, c);
    if r.Some? {
      assert forall k :: i <= k < r.value ==> src[k] == src[i..r.value][k - i];
    } else {
      assert forall k :: i <= k < j ==> src[k] == src[i..j][k - i];
    }
  }

  /** What scan_mark saves and scan_restore brings back. */
  datatype Mark = Mark(cur: nat, lineno: nat)

  class Scanner {
    const s: Input
    var cur: nat
    var lineno: nat
    var failed: bool
    var bracketLevel: int
    var braceLevel: int

    /** The line number is that of the cursor. */
    ghost predicate Valid()
      reads this
    {
      cur <= |s.src| && lineno == 1 + LineFeeds(s.src, cur)
    }

    ghost function At(top: nat): State
      reads this
    {
      State(cur, bracketLevel, braceLevel, top)
    }

    /** scan_init. */
    constructor (s: Input)
      ensures Valid() && !failed && this.s == s && At(0) == START
    {
      this.s := s;
      cur, lineno, failed, bracketLevel, braceLevel := 0, 1, false, 0, 0;
    }

    /** scan_get. */
    method Get() returns (c: int)
      requires Valid()
      modifies this`cur, this`lineno
      ensures Valid()
      ensures c == GetChar(s.src, old(cur)) && cur == old(cur) + GetLen(s.src, old(cur))
    {
      c := FIN;
      ghost var i := cur;
      GetLineFeeds(s.src, i);
      if cur < |s.src| {
        c := s.src[cur];
        cur := cur + 1;
        if c == CR && cur < |s.src| && s.src[cur] == LF {
          c := s.src[cur];
          cur := cur + 1;
        }
      }
      if c == LF {
        lineno := lineno + 1;
      }
    }

    /** scan_nmatch. */
    method NMatch(c: byte, n: nat) returns (b: bool)
      requires Valid()
      ensures b == MatchN(s.src, cur, c, n)
    {
      if cur + n > |s.src| {
        return false;
      }
      var i := 0;
      while i < n && s.src[cur + i] == c
        invariant 0 <= i <= n && MatchN(s.src, cur, c, i)
      {
        i := i + 1;
      }
      return i == n;
    }

    /** A position of the text with the number of its line. */
    ghost predicate IsMark(m: Mark) {
      m.cur <= |s.src| && m.lineno == 1 + LineFeeds(s.src, m.cur)
    }

    /** scan_mark. */
    method GetMark() returns (m: Mark)
      requires Valid()
      ensures IsMark(m) && m.cur == cur
    {
      m := Mark(cur, lineno);
    }

    /** scan_restore: the nesting levels are not part of a mark. */
    method Restore(m: Mark)
      requires IsMark(m)
      modifies this`cur, this`lineno
      ensures Valid() && cur == m.cur
    {
      cur, lineno := m.cur, m.lineno;
    }

    // ---------- strings

    /** The characters after a backslash. */
    method SkipEscape(multiline: bool) returns (ok: bool)
      requires Valid()
      modifies this`cur, this`lineno
      ensures Valid()
      ensures var r := EscapeEnd(s.src, old(cur), multiline);
              if r.Some? then ok && cur == r.value else !ok
    {
      ghost var i := cur;
      var c := Get();
      if IsSimpleEscape(c) {
        return true;
      }
      var n := HexCount(c);
      if n > 0 {
        ok := SkipHex(n);
        return;
      }
      if !multiline {
        return false;
      }
      if c == SPACE || c == TAB {
        c := SkipToLineEnd(c, i);
        if c != LF {
          return false;
        }
      }
      if c != LF {
        return false;
      }
      SkipBlankLines();
      return true;
    }

    method SkipHex(n: nat) returns (ok: bool)
      requires Valid()
      modifies this`cur, this`lineno
      ensures Valid() && ok == HexDigits(s.src, old(cur), n)
      ensures ok ==> cur == old(cur) + n
    {
      ghost var j := cur;
      var k := 0;
      while k < n
        invariant 0 <= k <= n && Valid() && cur == j + k && HexDigits(s.src, j, k)
      {
        var c := Get();
        if !IsHex(c) {
          assert j + n <= |s.src| ==> !IsHex(s.src[j + k]);
          return false;
        }
        k := k + 1;
      }
      return true;
    }

    /** Spaces and tabs behind a backslash, of which c, at position i, is the first. */
    method SkipToLineEnd(c: int, ghost i: nat) returns (d: int)
      requires Valid() && i < |s.src| && c == GetChar(s.src, i) && cur == i + GetLen(s.src, i)
      modifies this`cur, this`lineno
      ensures Valid()
      ensures var m := SkipSpaces(s.src, i);
              d == GetChar(s.src, m) && cur == m + GetLen(s.src, m)
    {
      d := c;
      ghost var k := i;
      while d == SPACE || d == TAB
        invariant Valid() && k <= |s.src| && d == GetChar(s.src, k) && cur == k + GetLen(s.src, k)
        invariant SkipSpaces(s.src, k) == SkipSpaces(s.src, i)
        decreases |s.src| - k
      {
        k := cur;
        d := Get();
      }
    }

    method SkipBlankLines()
      requires Valid()
      modifies this`cur, this`lineno
      ensures Valid() && cur == SkipBlanks(s.src, old(cur))
    {
      while Match(s.src, cur, SPACE) || Match(s.src, cur, TAB) || Match(s.src, cur, LF)
        invariant Valid() && SkipBlanks(s.src, cur) == SkipBlanks(s.src, old(cur))
        decreases |s.src| - cur
      {
        var _ := Get();
      }
    }

    /** The loop of scan_string, and of scan_multiline_string below. */
    method StringBody() returns (ok: bool, escp: Option<nat>)
      requires Valid()
      modifies this`cur, this`lineno
      ensures Valid()
      ensures var r := StringEnd(s.src, old(cur));
              if r.Some? then ok && cur == r.value && escp == FirstOf(s.src, old(cur), cur, BACKSLASH) else !ok
    {
      hide FirstOf, EscapeEnd, LineFeeds;
      ghost var i := cur;
      escp := None;
      while !Match(s.src, cur, QUOTE)
        invariant Valid() && i <= cur && StringEnd(s.src, cur) == StringEnd(s.src, i)
        invariant IsFirst(s.src, i, cur, BACKSLASH, escp)
        decreases |s.src| - cur
      {
        var c := Get();
        if c == FIN {
          return false, None;
        }
        if c != BACKSLASH {
          if !(IsValidChar(c) || c == SPACE || c == TAB) {
            return false, None;
          }
        } else {
          if escp == None {
            escp := Some(cur - 1);
          }
          var fine := SkipEscape(false);
          if !fine {
            return false, None;
          }
        }
      }
      FirstIs(s.src, i, cur, BACKSLASH, escp);
      return true, escp;
    }

    method MlStringBody() returns (ok: bool, escp: Option<nat>)
      requires Valid()
      modifies this`cur, this`lineno
      ensures Valid()
      ensures var r := MlStringEnd(s.src, old(cur));
              if r.Some? then ok && cur == r.value && escp == FirstOf(s.src, old(cur), cur, BACKSLASH) else !ok
    {
      hide FirstOf, EscapeEnd, LineFeeds, MatchN;
      ghost var i := cur;
      escp := None;
      while true
        invariant Valid() && i <= cur && MlStringEnd(s.src, cur) == MlStringEnd(s.src, i)
        invariant IsFirst(s.src, i, cur, BACKSLASH, escp)
        decreases |s.src| - cur
      {
        var three := NMatch(QUOTE, 3);
        if three {
          var four := NMatch(QUOTE, 4);
          if !four {
            break;
          }
          var six := NMatch(QUOTE, 6);
          if six {
            return false, None;
          }
        }
        SixIsThree(s.src, cur, QUOTE);
        var c := Get();
        if c == FIN {
          return false, None;
        }
        if c != BACKSLASH {
          if !(IsValidChar(c) || c == SPACE || c == TAB || c == LF) {
            return false, None;
          }
        } else {
          if escp == None {
            escp := Some(cur - 1);
          }
          var fine := SkipEscape(true);
          if !fine {
            return false, None;
          }
        }
      }
      FirstIs(s.src, i, cur, BACKSLASH, escp);
      return true, escp;
    }

    /** scan_string and scan_multiline_string. */
    method StringToken() returns (r: Result<Token>)
      requires Valid() && cur < |s.src| && s.src[cur] == QUOTE
      modifies this`cur, this`lineno
      ensures Valid()
      ensures var x := ScanString(s.src, old(cur));
              if x.Ok? then r == Ok(x.value.0) && cur == x.value.1 else r == Err(x.error)
    {
      hide StringEnd, MlStringEnd, FirstOf, LineFeeds, MatchN;
      var triple := NMatch(QUOTE, 3);
      if triple {
        SkipThree(QUOTE);
        if Match(s.src, cur, LF) {
          var _ := Get();
        }
        var start := cur;
        var ok, escp := MlStringBody();
        if !ok {
          return Err(Lexical);
        }
        r := Ok(Token(MlString, start, cur - start, escp, Unknown));
        MlQuotes(s.src, start);
        SkipThree(QUOTE);
      } else {
        var _ := Get();
        var start := cur;
        var ok, escp := StringBody();
        if !ok {
          return Err(Lexical);
        }
        r := Ok(Token(String, start, cur - start, escp, Unknown));
        var _ := Get();
      }
    }

    /** Three calls of scan_get on three quotes. */
    method SkipThree(c: byte)
      requires Valid() && MatchN(s.src, cur, c, 3) && c != CR
      modifies this`cur, this`lineno
      ensures Valid() && cur == old(cur) + 3
    {
      var _ := Get();
      var _ := Get();
      var _ := Get();
    }

    method LitStringBody() returns (ok: bool)
      requires Valid()
      modifies this`cur, this`lineno
      ensures Valid()
      ensures var r := LitStringEnd(s.src, old(cur));
              if r.Some? then ok && cur == r.value else !ok
    {
      hide LineFeeds;
      while !Match(s.src, cur, APOSTROPHE)
        invariant Valid() && LitStringEnd(s.src, cur) == LitStringEnd(s.src, old(cur))
        decreases |s.src| - cur
      {
        var c := Get();
        if c == FIN || !(IsValidChar(c) || c == TAB) {
          return false;
        }
      }
      return true;
    }

    method MlLitStringBody() returns (ok: bool)
      requires Valid()
      modifies this`cur, this`lineno
      ensures Valid()
      ensures var r := MlLitStringEnd(s.src, old(cur));
              if r.Some? then ok && cur == r.value else !ok
    {
      hide LineFeeds, MatchN;
      while true
        invariant Valid() && MlLitStringEnd(s.src, cur) == MlLitStringEnd(s.src, old(cur))
        decreases |s.src| - cur
      {
        var three := NMatch(APOSTROPHE, 3);
        if three {
          var four := NMatch(APOSTROPHE, 4);
          if !four {
            return true;
          }
          var six := NMatch(APOSTROPHE, 6);
          if six {
            return false;
          }
        }
        SixIsThree(s.src, cur, APOSTROPHE);
        var c := Get();
        if c == FIN || !(IsValidChar(c) || c == SPACE || c == TAB || c == LF) {
          return false;
        }
      }
    }

    /** scan_litstring and scan_multiline_litstring. */
    method LitStringToken() returns (r: Result<Token>)
      requires Valid() && cur < |s.src| && s.src[cur] == APOSTROPHE
      modifies this`cur, this`lineno
      ensures Valid()
      ensures var x := ScanLitString(s.src, old(cur));
              if x.Ok? then r == Ok(x.value.0) && cur == x.value.1 else r == Err(x.error)
    {
      hide LitStringEnd, MlLitStringEnd, LineFeeds, MatchN;
      var triple := NMatch(APOSTROPHE, 3);
      if triple {
        SkipThree(APOSTROPHE);
        if Match(s.src, cur, LF) {
          var _ := Get();
        }
        var start := cur;
        var ok := MlLitStringBody();
        if !ok {
          return Err(Lexical);
        }
        r := Ok(Plain(MlLitString, start, cur - start));
        MlApostrophes(s.src, start);
        SkipThree(APOSTROPHE);
      } else {
        var _ := Get();
        var start := cur;
        var ok := LitStringBody();
        if !ok {
          return Err(Lexical);
        }
        r := Ok(Plain(LitString, start, cur - start));
        LitQuote(s.src, start);
        var _ := Get();
      }
    }

    // ---------- literals

    /** scan_literal. */
    method LiteralToken() returns (t: Token)
      requires Valid()
      modifies this`cur
      ensures Valid() && (t, cur) == ScanLiteral(s.src, old(cur))
    {
      var p := cur;
      while p < |s.src| && IsBare(s.src[p])
        invariant cur <= p <= |s.src| && BareEnd(s.src, p) == BareEnd(s.src, cur)
        invariant forall k :: cur <= k < p ==> s.src[k] != LF
      {
        p := p + 1;
      }
      OneLine(s.src, cur, p);
      t := Plain(Lit, cur, p - cur);
      cur := p;
    }

    /** scan_copystr into a buffer of n + 1 bytes. */
    method CopyStr(n: nat) returns (buf: array<byte>)
      requires Valid()
      ensures fresh(buf) && buf.Length == n + 1 && InBuffer(buf, Window(s.src, cur, n))
    {
      buf := new byte[n + 1];
      var len := if n <= |s.src| - cur then n else |s.src| - cur;
      var k := 0;
      while k < len
        invariant 0 <= k <= len && buf[..k] == s.src[cur..cur + k]
      {
        buf[k] := s.src[cur + k];
        k := k + 1;
      }
      buf[len] := 0;
    }

    /** scan_float. */
    method FloatValue() returns (r: Result<(Scalar, nat)>)
      requires Valid()
      ensures r == ScanFloat(s, cur)
    {
      hide NumText, FloatLen, Window;
      ghost var w := Window(s.src, cur, 49);
      var buf := CopyStr(49);
      var len := FloatSpan(buf, w);
      FloatChars(w);
      var text := NumberText(buf, len, 10, w);
      if text.Err? {
        return Err(text.error);
      }
      match s.strtod(text.value)
      case None => return Err(Lexical);
      case Some(d) => return Ok((Fp64(d), len));
    }

    /** scan_number. */
    method NumberValue() returns (r: Result<(Scalar, nat)>)
      requires Valid()
      ensures r == ScanNumber(s, cur)
    {
      hide NumText, Span, Window, StrToLL, FloatOf;
      ghost var w := Window(s.src, cur, 49);
      var buf := CopyStr(49);
      FirstByte(buf, w);
      assert |w| >= 2 ==> buf[1] == buf[..|w|][1];
      if buf[0] == 48 && buf[1] in {120, 111, 98} {
        var base, span :=
          if buf[1] == 120 then 16 else if buf[1] == 111 then 8 else 2,
          if buf[1] == 120 then HEX_SET else if buf[1] == 111 then OCT_SET else BIN_SET;
        r := RadixValue(buf, base, span, w);
        return;
      }
      var i := if IsSign(buf[0]) then 1 else 0;
      if buf[i] == 105 || buf[i] == 110 {
        r := FloatValue();
        return;
      }
      var len := SpanIn(buf, 0, NUMBER_SET, w);
      SpanNoNul(w, 0, NUMBER_SET);
      var text := NumberText(buf, len, 10, w);
      if text.Err? {
        return Err(text.error);
      }
      var t := text.value;
      var (v, e) := StrToLL(t, 10);
      if v == None || e < |t| || e == 0 {
        if e < |t| && (t[e] == POINT || t[e] == 101) {
          r := FloatValue();
          return;
        }
        return Err(Lexical);
      }
      return Ok((Int64(v.value), len));
    }

    /** scan_bool. */
    method BoolValue() returns (r: Result<(Scalar, nat)>)
      requires Valid()
      ensures r == ScanBool(s.src, cur)
    {
      hide StartsWith, Window;
      ghost var w := Window(s.src, cur, 9);
      var buf := CopyStr(9);
      var yes := HasPrefix(buf, 0, TRUE, w);
      var no := HasPrefix(buf, 0, FALSE, w);
      if !yes && !no {
        return Err(Lexical);
      }
      WordNoNul(w, 0, if yes then TRUE else FALSE);
      var len := if yes then 4 else 5;
      assert len < |w| ==> buf[len] == buf[..|w|][len];
      if buf[len] !in {0, 35, 32, 13, 10, 9, 44, 125, 93} {
        return Err(Lexical);
      }
      return Ok((Boolean(yes), len));
    }

    /** scan_time and scan_timestamp. */
    method StampValue() returns (r: Result<(Scalar, nat)>)
      requires Valid()
      ensures r == ScanStamp(s.src, cur)
    {
      hide TimeOf, StampOf, Window;
      if LooksLikeTime(s.src, cur) {
        var buf := CopyStr(TIME_WINDOW);
        r := TimeToken(buf, Window(s.src, cur, TIME_WINDOW));
      } else {
        var buf := CopyStr(STAMP_WINDOW);
        r := StampToken(buf, Window(s.src, cur, STAMP_WINDOW));
      }
    }

    /** scan_nonstring_literal. */
    method ValueToken() returns (r: Result<Token>)
      requires Valid()
      modifies this`cur
      ensures Valid()
      ensures var x := ScanValue(s, old(cur));
              if x.Ok? then r == Ok(x.value.0) && cur == x.value.1 else r == Err(x.error)
    {
      hide ScanStamp, ScanBool, ScanNumber, LooksLikeTime, LooksLikeDate, LooksLikeNumber, LineFeeds;
      ScalarFits(s, cur);
      var v;
      if LooksLikeTime(s.src, cur) || LooksLikeDate(s.src, cur) {
        v := StampValue();
      } else if cur < |s.src| && (s.src[cur] == 116 || s.src[cur] == 102) {
        v := BoolValue();
      } else if LooksLikeNumber(s.src, cur) {
        v := NumberValue();
      } else {
        v := Err(Lexical);
      }
      if v.Err? {
        return Err(v.error);
      }
      var (value, n) := v.value;
      ValueOnOneLine(s, cur);
      r := Ok(Token(Value, cur, n, None, value));
      cur := cur + n;
    }

    // ---------- scan_next

    /** The loop over a comment. */
    method SkipComment() returns (ok: bool)
      requires Valid()
      modifies this`cur, this`lineno
      ensures Valid()
      ensures var r := CommentEnd(s.src, old(cur));
              if r.Ok? then ok && cur == r.value else !ok && r.error == Lexical
    {
      hide LineFeeds;
      while !Match(s.src, cur, LF)
        invariant Valid() && CommentEnd(s.src, cur) == CommentEnd(s.src, old(cur))
        decreases |s.src| - cur
      {
        var c := Get();
        if c == FIN {
          break;
        }
        if c <= 8 || 10 <= c <= 31 || c == 127 {
          return false;
        }
      }
      return true;
    }

    /** scan_next. */
    method Next(keymode: bool) returns (r: Result<Token>)
      requires Valid()
      modifies this`cur, this`lineno
      ensures Valid()
      ensures var x := ScanNext(s, old(cur), keymode);
              if x.Ok? then r == Ok(x.value.0) && cur == x.value.1 else r == Err(x.error)
    {
      hide CommentEnd, ScanAt, LineFeeds;
      while true
        invariant Valid() && TokenStart(s.src, cur) == TokenStart(s.src, old(cur))
        decreases |s.src| - cur
      {
        var p := cur;
        var c := Get();
        if c == SPACE || c == TAB {
          continue;
        }
        if c == 35 {
          var ok := SkipComment();
          if !ok {
            return Err(Lexical);
          }
          continue;
        }
        assert TokenStart(s.src, p) == Ok(p);
        r := TokenAt(c, p, keymode);
        return;
      }
    }

    /** The switch of scan_next, on the character c that stood at p. */
    method TokenAt(c: int, p: nat, keymode: bool) returns (r: Result<Token>)
      requires Valid() && p <= |s.src| && c == GetChar(s.src, p) && cur == p + GetLen(s.src, p)
      modifies this`cur, this`lineno
      ensures Valid()
      ensures var x := ScanAt(s, p, keymode);
              if x.Ok? then r == Ok(x.value.0) && cur == x.value.1 else r == Err(x.error)
    {
      hide ScanString, ScanLitString, ScanLiteral, ScanValue, LineFeeds;
      if c == FIN {
        return Ok(Plain(Fin, p, 0));
      }
      if Punctuation(c) != None {
        return Ok(Plain(Punctuation(c).value, p, 1));
      }
      if c == 91 || c == 93 {
        if keymode && Match(s.src, cur, c) {
          var _ := Get();
          return Ok(Plain(if c == 91 then LLBrack else RRBrack, p, 2));
        }
        return Ok(Plain(if c == 91 then LBrack else RBrack, p, 1));
      }
      UnGet(c, p);
      if c == QUOTE {
        r := StringToken();
      } else if c == APOSTROPHE {
        r := LitStringToken();
      } else if keymode {
        var t := LiteralToken();
        r := Ok(t);
      } else {
        r := ValueToken();
      }
    }

    /** Stepping back over the character just read, which is not a newline. */
    method UnGet(c: int, ghost p: nat)
      requires Valid() && p < |s.src| && c == GetChar(s.src, p) && cur == p + GetLen(s.src, p) && c != LF
      modifies this`cur
      ensures Valid() && cur == p
    {
      GetLineFeeds(s.src, p);
      cur := cur - 1;
    }

    /** check_overflow. */
    method CheckOverflow(t: TokTyp, ghost top: nat) returns (ok: bool)
      requires Valid()
      modifies this`bracketLevel, this`braceLevel
      ensures Valid()
      ensures var r := CountLevel(old(At(top)), t);
              if r.Ok? then ok && At(top) == r.value else !ok && r.error == StackOverflow
    {
      match t
      case LBrack =>
        bracketLevel := bracketLevel + 1;
        return bracketLevel <= LEVEL_MAX;
      case RBrack =>
        bracketLevel := bracketLevel - 1;
        return true;
      case LBrace =>
        braceLevel := braceLevel + 1;
        return braceLevel <= LEVEL_MAX;
      case RBrace =>
        braceLevel := braceLevel - 1;
        return true;
      case _ =>
        return true;
    }

    /** scan_key when keymode is set, scan_value otherwise. Once it has failed it fails again. */
    method Tok(keymode: bool, ghost top: nat) returns (r: Result<Token>)
      requires Valid()
      modifies this`cur, this`lineno, this`failed, this`bracketLevel, this`braceLevel
      ensures Valid() && failed == r.Err?
      ensures old(failed) ==> failed && At(top) == old(At(top))
      ensures !old(failed) ==>
                var x := ScanTok(s, old(At(top)), keymode);
                if x.Ok? then r == Ok(x.value.0) && At(top) == x.value.1 else r == Err(x.error)
    {
      hide ScanNext, CountLevel, LineFeeds;
      if failed {
        return Err(Lexical);
      }
      r := Next(keymode);
      if r.Err? {
        failed := true;
        return;
      }
      var ok := CheckOverflow(r.value.typ, top);
      if !ok {
        failed := true;
        return Err(StackOverflow);
      }
    }
  }

  // ---------- the buffers numbers are copied to

  lemma FirstByte(buf: array<byte>, w: seq<byte>)
    requires InBuffer(buf, w)
    ensures buf[0] == if w == [] then 0 else w[0]
    ensures |w| >= 1 ==> buf[1] == if |w| == 1 then 0 else w[1]
  {
    assert |w| >= 1 ==> buf[0] == buf[..|w|][0];
    assert |w| >= 2 ==> buf[1] == buf[..|w|][1];
  }

  /** memcmp and strncmp against a word without NUL. */
  method HasPrefix(buf: array<byte>, i: nat, u: seq<byte>, ghost w: seq<byte>) returns (b: bool)
    requires InBuffer(buf, w) && i <= |w| && 0 !in u
    ensures b == StartsWith(w, i, u)
  {
    var k := 0;
    while k < |u| && buf[i + k] == u[k]
      invariant 0 <= k <= |u| && i + k <= |w| && w[i..i + k] == u[..k]
    {
      assert u[k] in u;
      assert w[i + k] == buf[..|w|][i + k];
      assert w[i..i + k + 1] == w[i..i + k] + [w[i + k]] && u[..k + 1] == u[..k] + [u[k]];
      k := k + 1;
    }
    assert i + k < |w| ==> w[i + k] == buf[..|w|][i + k];
    if k < |u| && i + |u| <= |w| {
      assert w[i..i + |u|][k] == w[i + k];
    }
    return k == |u|;
  }

  /** strspn. */
  method SpanIn(buf: array<byte>, i: nat, chars: set<int>, ghost w: seq<byte>) returns (j: nat)
    requires InBuffer(buf, w) && i <= |w| && 0 !in chars
    ensures j == Span(w, i, chars)
  {
    j := i;
    while buf[j] in chars
      invariant i <= j <= |w| && Span(w, j, chars) == Span(w, i, chars)
      decreases |w| - j
    {
      assert w[j] == buf[..|w|][j];
      j := j + 1;
    }
    assert j < |w| ==> w[j] == buf[..|w|][j];
  }

  lemma SpanNoNul(w: seq<byte>, i: nat, chars: set<int>)
    requires i <= |w| && 0 !in chars
    ensures 0 !in w[i..Span(w, i, chars)]
  {
    SpanChars(w, i, chars);
  }

  lemma WordNoNul(w: seq<byte>, i: nat, u: seq<byte>)
    requires StartsWith(w, i, u) && 0 !in u && LF !in u
    ensures i + |u| <= |w| && 0 !in w[i..i + |u|] && LF !in w[i..i + |u|]
  {}

  /** Neither a NUL nor a newline is taken as part of a float. */
  lemma FloatChars(w: seq<byte>)
    ensures 0 !in w[..FloatLen(w)] && LF !in w[..FloatLen(w)]
  {
    hide Span, StartsWith;
    var i := if w != [] && IsSign(w[0]) then 1 else 0;
    var len := FloatLen(w);
    if StartsWith(w, i, NAN) {
      WordNoNul(w, i, NAN);
    } else if StartsWith(w, i, INF) {
      WordNoNul(w, i, INF);
    } else {
      SpanChars(w, i, NUMBER_SET);
    }
    assert forall k :: i <= k < len ==> w[i..len][k - i] == w[k];
  }

  method FloatSpan(buf: array<byte>, ghost w: seq<byte>) returns (len: nat)
    requires InBuffer(buf, w)
    ensures len == FloatLen(w)
  {
    hide Span, StartsWith;
    FirstByte(buf, w);
    var i := if IsSign(buf[0]) then 1 else 0;
    var nan := HasPrefix(buf, i, NAN, w);
    var inf := HasPrefix(buf, i, INF, w);
    if nan || inf {
      return i + 3;
    }
    len := SpanIn(buf, i, NUMBER_SET, w);
  }

  /** The first len characters, cut off and put through process_numstr. */
  method NumberText(buf: array<byte>, len: nat, base: nat, ghost w: seq<byte>) returns (r: Result<seq<byte>>)
    requires InBuffer(buf, w) && len <= |w| && 0 !in w[..len]
    modifies buf
    ensures r == NumText(w[..len], base)
  {
    ghost var t := w[..len];
    assert buf[..len] == buf[..|w|][..len] == t;
    buf[len] := 0;
    assert buf[..len] == t;
    var ok := ProcessNumstr(buf, base, t);
    if !ok {
      assert NumText(t, base) == Err(Lexical);
      return Err(Lexical);
    }
    var text := CString(buf, NumText(t, base).value);
    return Ok(text);
  }

  /** The string that strtod and strtoll see. */
  method CString(buf: array<byte>, ghost t: seq<byte>) returns (r: seq<byte>)
    requires Holds(buf, t)
    ensures r == t
  {
    var n := 0;
    while buf[n] != 0
      invariant 0 <= n <= |t|
      decreases |t| - n
    {
      n := n + 1;
    }
    return buf[..n];
  }

  /** A copy of the buffer from index 2 on, where the digits of a prefixed integer are. */
  method AfterPrefix(buf: array<byte>, ghost w: seq<byte>) returns (tail: array<byte>)
    requires InBuffer(buf, w) && |w| >= 2
    ensures fresh(tail) && InBuffer(tail, w[2..])
  {
    tail := new byte[buf.Length - 2];
    var k := 0;
    while k < tail.Length
      invariant 0 <= k <= tail.Length && forall j :: 0 <= j < k ==> tail[j] == buf[j + 2]
    {
      tail[k] := buf[k + 2];
      k := k + 1;
    }
    assert forall j :: 0 <= j < |w| - 2 ==> tail[j] == buf[..|w|][j + 2] == w[2..][j];
  }

  /** An integer written with 0x, 0o or 0b. */
  method RadixValue(buf: array<byte>, base: nat, chars: set<int>, ghost w: seq<byte>) returns (r: Result<(Scalar, nat)>)
    requires InBuffer(buf, w) && Radix(w) == Some((base, chars))
    ensures var len := Span(w, 2, chars);
            var text := NumText(w[2..len], base);
            if text.Err? then r == Err(text.error)
            else
              var (v, e) := StrToLL(text.value, base);
              r == if v.None? || e < |text.value| || e == 0 then Err(Lexical) else Ok((Int64(v.value), len))
  {
    hide NumText, Span, StrToLL;
    var len := SpanIn(buf, 2, chars, w);
    SpanNoNul(w, 2, chars);
    var tail := AfterPrefix(buf, w);
    assert w[2..][..len - 2] == w[2..len];
    var text := NumberText(tail, len - 2, base, w[2..]);
    if text.Err? {
      return Err(text.error);
    }
    var (v, e) := StrToLL(text.value, base);
    if v == None || e < |text.value| || e == 0 {
      return Err(Lexical);
    }
    return Ok((Int64(v.value), len));
  }

  // ---------- values stay on one line

  lemma ValueOnOneLine(s: Input, p: nat)
    requires p <= |s.src| && ScanValue(s, p).Ok?
    ensures LineFeeds(s.src, ScanValue(s, p).value.1) == LineFeeds(s.src, p)
  {
    hide ScanStamp, ScanBool, ScanNumber, LineFeeds;
    var q := ScanValue(s, p).value.1;
    var n := q - p;
    if LooksLikeStamp(s.src, p) {
      StampOnOneLine(s.src, p);
    } else if p < |s.src| && (s.src[p] == 116 || s.src[p] == 102) {
      BoolOnOneLine(s.src, p);
    } else {
      NumberOnOneLine(s, p);
    }
    assert forall k :: p <= k < q ==> s.src[k] == s.src[p..q][k - p];
    OneLine(s.src, p, q);
  }

  lemma StampOnOneLine(src: seq<byte>, p: nat)
    requires p <= |src|
    ensures ScanStamp(src, p).Ok? ==>
              var n := ScanStamp(src, p).value.1; p + n <= |src| && LF !in src[p..p + n]
  {
    hide TimeOf, StampOf;
    if ScanStamp(src, p).Ok? {
      var n := ScanStamp(src, p).value.1;
      var w := Window(src, p, if LooksLikeTime(src, p) then TIME_WINDOW else STAMP_WINDOW);
      StampChars(w);
      assert src[p..p + n] == w[..n];
    }
  }

  lemma BoolOnOneLine(src: seq<byte>, p: nat)
    requires p <= |src|
    ensures ScanBool(src, p).Ok? ==>
              var n := ScanBool(src, p).value.1; p + n <= |src| && LF !in src[p..p + n]
  {
    var w := Window(src, p, 9);
    if ScanBool(src, p).Ok? {
      var n := ScanBool(src, p).value.1;
      assert w[..n] == (if n == 4 then TRUE else FALSE);
      assert src[p..p + n] == w[..n];
    }
  }

  /** The number of characters that an integer takes. */
  ghost function IntLen(w: seq<byte>): (n: nat)
    ensures n <= |w|
  {
    if Radix(w).Some? then Span(w, 2, Radix(w).value.1) else Span(w, 0, NUMBER_SET)
  }

  lemma IntChars(w: seq<byte>)
    ensures LF !in w[..IntLen(w)]
  {
    hide Span;
    if Radix(w).Some? {
      SpanChars(w, 2, Radix(w).value.1);
    } else {
      SpanChars(w, 0, NUMBER_SET);
    }
  }

  lemma NumberLen(s: Input, p: nat)
    requires p <= |s.src| && ScanNumber(s, p).Ok?
    ensures ScanNumber(s, p) == ScanFloat(s, p) || ScanNumber(s, p).value.1 == IntLen(Window(s.src, p, 49))
  {
    hide Span, NumText, StrToLL, FloatOf, Window, Radix;
  }

  lemma NumberOnOneLine(s: Input, p: nat)
    requires p <= |s.src|
    ensures ScanNumber(s, p).Ok? ==>
              var n := ScanNumber(s, p).value.1; p + n <= |s.src| && LF !in s.src[p..p + n]
  {
    hide ScanFloat, ScanNumber, IntLen, Window;
    if ScanNumber(s, p).Ok? {
      NumberLen(s, p);
      FloatOnOneLine(s, p);
      var w := Window(s.src, p, 49);
      IntChars(w);
      InWindow(s.src, p, 49, IntLen(w));
    }
  }

  lemma FloatOnOneLine(s: Input, p: nat)
    requires p <= |s.src|
    ensures ScanFloat(s, p).Ok? ==>
              var n := ScanFloat(s, p).value.1; p + n <= |s.src| && LF !in s.src[p..p + n]
  {
    hide FloatLen, NumText, Window;
    var w := Window(s.src, p, 49);
    if ScanFloat(s, p).Ok? {
      FloatChars(w);
      InWindow(s.src, p, 49, FloatLen(w));
    }
  }

  lemma InWindow(src: seq<byte>, p: nat, n: nat, m: nat)
    requires p <= |src| && m <= |Window(src, p, n)|
    ensures p + m <= |src| && src[p..p + m] == Window(src, p, n)[..m]
  {}

  lemma SixIsThree(src: seq<byte>, i: nat, c: byte)
    ensures MatchN(src, i, c, 6) ==> MatchN(src, i, c, 3) && MatchN(src, i, c, 4)
  {}

  lemma {:induction false} MlQuotes(src: seq<byte>, i: nat)
    requires i <= |src|
    ensures MlStringEnd(src, i).Some? ==> MatchN(src, MlStringEnd(src, i).value, QUOTE, 3)
    decreases |src| - i
  {
    hide MatchN, EscapeEnd;
    if MlStringEnd(src, i).Some? && MlStringEnd(src, i).value > i {
      if GetChar(src, i) == BACKSLASH {
        MlQuotes(src, EscapeEnd(src, i + 1, true).value);
      } else {
        MlQuotes(src, i + GetLen(src, i));
      }
    }
  }
}
