/** The scanner as functions of the text and a position: what one call returns. */
module Scanning {
  import opened Basics
  import opened Datum
  import opened Numbers
  import opened Stamps

  /** What is scanned, and strtod: the double that the text of a number stands for. */
  datatype Input = Input(src: seq<byte>, strtod: seq<byte> -> Option<Double>)

  const FIN := -5000

  datatype TokTyp =
    | Dot | Equal | Comma
    | LBrack | LLBrack | RBrack | RRBrack | LBrace | RBrace
    | Lit | String | MlString | LitString | MlLitString
    | Value     // a time, date, number or boolean, converted already
    | Endl | Fin

  /** str is src[start..start + len]; escp is the position of the first backslash in it. */
  datatype Token = Token(typ: TokTyp, start: nat, len: nat, escp: Option<nat>, scalar: Scalar)

  function Plain(typ: TokTyp, start: nat, len: nat): Token {
    Token(typ, start, len, None, Unknown)
  }

  // ---------- single characters

  /** How far scan_get moves: a CR LF pair counts as one character. */
  function GetLen(src: seq<byte>, i: nat): (n: nat)
    ensures i + n <= |src| || n == 0
    ensures n == 0 <==> i >= |src|
  {
    if i >= |src| then 0
    else if src[i] == CR && i + 1 < |src| && src[i + 1] == LF then 2
    else 1
  }

  /** What scan_get returns. */
  function GetChar(src: seq<byte>, i: nat): (c: int)
    ensures c == FIN <==> i >= |src|
    ensures c != FIN ==> 0 <= c < 256
  {
    if i >= |src| then FIN
    else if src[i] == CR && i + 1 < |src| && src[i + 1] == LF then LF
    else src[i]
  }

  /** scan_match: LF also matches CR LF. */
  predicate Match(src: seq<byte>, i: nat, c: byte) {
    || (i < |src| && src[i] == c)
    || (c == LF && i + 1 < |src| && src[i] == CR && src[i + 1] == LF)
  }

  /** scan_nmatch. */
  predicate MatchN(src: seq<byte>, i: nat, c: byte, n: nat) {
    i + n <= |src| && forall k :: i <= k < i + n ==> src[k] == c
  }

  // ---------- escapes

  /** One of b t n f r e " and backslash. */
  predicate IsSimpleEscape(c: int) {
    c == 98 || c == 116 || c == 110 || c == 102 || c == 114 || c == 101 || c == QUOTE || c == BACKSLASH
  }

  /** The number of hexadecimal digits that x, u and U announce. */
  function HexCount(c: int): nat {
    if c == 120 then 2 else if c == 117 then 4 else if c == 85 then 8 else 0
  }

  predicate HexDigits(src: seq<byte>, i: nat, n: nat) {
    i + n <= |src| && forall k :: i <= k < i + n ==> IsHex(src[k])
  }

  /** The first position from i on that is neither a space nor a tab. */
  function SkipSpaces(src: seq<byte>, i: nat): (j: nat)
    requires i <= |src|
    ensures i <= j <= |src|
    decreases |src| - i
  {
    if i < |src| && (src[i] == SPACE || src[i] == TAB) then SkipSpaces(src, i + 1) else i
  }

  /** The first position from i on that no space, tab or newline matches. */
  function SkipBlanks(src: seq<byte>, i: nat): (j: nat)
    requires i <= |src|
    ensures i <= j <= |src|
    decreases |src| - i
  {
    if Match(src, i, SPACE) || Match(src, i, TAB) || Match(src, i, LF)
    then SkipBlanks(src, i + GetLen(src, i))
    else i
  }

  /** Where the escape sequence ends whose backslash stands before position i. */
  function EscapeEnd(src: seq<byte>, i: nat, multiline: bool): (r: Option<nat>)
    requires i <= |src|
    ensures r.Some? ==> i < r.value <= |src|
  {
    var c := GetChar(src, i);
    var j := i + GetLen(src, i);
    if IsSimpleEscape(c) then Some(j)
    else if HexCount(c) > 0 then
      if HexDigits(src, j, HexCount(c)) then Some(j + HexCount(c)) else None
    else if multiline && (c == SPACE || c == TAB || c == LF) then
      var m := SkipSpaces(src, i);
      if GetChar(src, m) == LF then Some(SkipBlanks(src, m + GetLen(src, m))) else None
    else None
  }

  // ---------- the bodies of strings: the position of the closing quotes

  /** scan_string. */
  function StringEnd(src: seq<byte>, i: nat): (r: Option<nat>)
    requires i <= |src|
    ensures r.Some? ==> i <= r.value < |src| && src[r.value] == QUOTE
    decreases |src| - i
  {
    var c := GetChar(src, i);
    if c == QUOTE then Some(i)
    else if c == FIN then None
    else if c != BACKSLASH then
      if IsValidChar(c) || c == SPACE || c == TAB then StringEnd(src, i + GetLen(src, i)) else None
    else
      var j :- EscapeEnd(src, i + 1, false);
      StringEnd(src, j)
  }

  /** scan_multiline_string. */
  function MlStringEnd(src: seq<byte>, i: nat): (r: Option<nat>)
    requires i <= |src|
    ensures r.Some? ==> i <= r.value && r.value + 3 <= |src| && src[r.value] == QUOTE
    decreases |src| - i
  {
    if MatchN(src, i, QUOTE, 3) && !MatchN(src, i, QUOTE, 4) then Some(i)
    else if MatchN(src, i, QUOTE, 6) then None
    else
      var c := GetChar(src, i);
      if c == FIN then None
      else if c != BACKSLASH then
        if IsValidChar(c) || c == SPACE || c == TAB || c == LF then MlStringEnd(src, i + GetLen(src, i)) else None
      else
        var j :- EscapeEnd(src, i + 1, true);
        MlStringEnd(src, j)
  }

  /** scan_litstring. */
  function LitStringEnd(src: seq<byte>, i: nat): (r: Option<nat>)
    requires i <= |src|
    ensures r.Some? ==> i <= r.value < |src|
    decreases |src| - i
  {
    var c := GetChar(src, i);
    if c == APOSTROPHE then Some(i)
    else if c == FIN then None
    else if IsValidChar(c) || c == TAB then LitStringEnd(src, i + GetLen(src, i))
    else None
  }

  /** scan_multiline_litstring. */
  function MlLitStringEnd(src: seq<byte>, i: nat): (r: Option<nat>)
    requires i <= |src|
    ensures r.Some? ==> i <= r.value && r.value + 3 <= |src|
    decreases |src| - i
  {
    if MatchN(src, i, APOSTROPHE, 3) && !MatchN(src, i, APOSTROPHE, 4) then Some(i)
    else if MatchN(src, i, APOSTROPHE, 6) then None
    else
      var c := GetChar(src, i);
      if c == FIN then None
      else if IsValidChar(c) || c == SPACE || c == TAB || c == LF then MlLitStringEnd(src, i + GetLen(src, i))
      else None
  }

  lemma {:induction false} MlApostrophes(src: seq<byte>, i: nat)
    requires i <= |src|
    ensures MlLitStringEnd(src, i).Some? ==> MatchN(src, MlLitStringEnd(src, i).value, APOSTROPHE, 3)
    decreases |src| - i
  {
    hide MatchN;
    if MlLitStringEnd(src, i).Some? && MlLitStringEnd(src, i).value > i {
      MlApostrophes(src, i + GetLen(src, i));
    }
  }

  lemma {:induction false} LitQuote(src: seq<byte>, i: nat)
    requires i <= |src|
    ensures LitStringEnd(src, i).Some? ==> src[LitStringEnd(src, i).value] == APOSTROPHE
    decreases |src| - i
  {
    if LitStringEnd(src, i).Some? && LitStringEnd(src, i).value > i {
      LitQuote(src, i + GetLen(src, i));
    }
  }

  /** The first c in src[i..j]. */
  function FirstOf(src: seq<byte>, i: nat, j: nat, c: byte): (r: Option<nat>)
    requires i <= j <= |src|
    ensures r.Some? ==> i <= r.value < j && src[r.value] == c && c !in src[i..r.value]
    ensures r.None? ==> c !in src[i..j]
    decreases j - i
  {
    if i == j then None
    else if src[i] == c then Some(i)
    else
      var r := FirstOf(src, i + 1, j, c);
      assert forall m :: i + 1 <= m <= j ==> src[i..m] == [src[i]] + src[i + 1..m];
      r
  }

  /** A newline right after the opening quotes is not part of the string. */
  function BodyStart(src: seq<byte>, i: nat): (j: nat)
    requires i <= |src|
    ensures i <= j <= |src|
  {
    if Match(src, i, LF) then i + GetLen(src, i) else i
  }

  function ScanString(src: seq<byte>, p: nat): (r: Result<(Token, nat)>)
    requires p < |src| && src[p] == QUOTE
    ensures r.Ok? ==>
              var (t, q) := r.value;
              p < t.start && t.start + t.len < q <= |src| && t.typ in {String, MlString}
  {
    if MatchN(src, p, QUOTE, 3) then
      var i := BodyStart(src, p + 3);
      match MlStringEnd(src, i)
      case None => Err(Lexical)
      case Some(e) => Ok((Token(MlString, i, e - i, FirstOf(src, i, e, BACKSLASH), Unknown), e + 3))
    else
      match StringEnd(src, p + 1)
      case None => Err(Lexical)
      case Some(e) => Ok((Token(String, p + 1, e - (p + 1), FirstOf(src, p + 1, e, BACKSLASH), Unknown), e + 1))
  }

  function ScanLitString(src: seq<byte>, p: nat): (r: Result<(Token, nat)>)
    requires p < |src| && src[p] == APOSTROPHE
    ensures r.Ok? ==>
              var (t, q) := r.value;
              p < t.start && t.start + t.len < q <= |src| && t.typ in {LitString, MlLitString}
  {
    if MatchN(src, p, APOSTROPHE, 3) then
      var i := BodyStart(src, p + 3);
      match MlLitStringEnd(src, i)
      case None => Err(Lexical)
      case Some(e) => Ok((Plain(MlLitString, i, e - i), e + 3))
    else
      match LitStringEnd(src, p + 1)
      case None => Err(Lexical)
      case Some(e) => Ok((Plain(LitString, p + 1, e - (p + 1)), e + 1))
  }

  // ---------- literals

  /** The end of the run of bare-key characters; it may be empty. */
  function BareEnd(src: seq<byte>, i: nat): (j: nat)
    requires i <= |src|
    ensures i <= j <= |src|
    decreases |src| - i
  {
    if i < |src| && IsBare(src[i]) then BareEnd(src, i + 1) else i
  }

  /** strspn: the end of the run of characters of the set. */
  function Span(t: seq<byte>, i: nat, set_: set<int>): (j: nat)
    requires i <= |t|
    ensures i <= j <= |t|
    decreases |t| - i
  {
    if i < |t| && t[i] in set_ then Span(t, i + 1, set_) else i
  }

  lemma {:induction false} SpanChars(w: seq<byte>, i: nat, chars: set<int>)
    requires i <= |w|
    ensures forall k :: i <= k < Span(w, i, chars) ==> w[k] in chars
    decreases |w| - i
  {
    if Span(w, i, chars) > i {
      SpanChars(w, i + 1, chars);
    }
  }

  const DIGITS := {48, 49, 50, 51, 52, 53, 54, 55, 56, 57}
  const NUMBER_SET := DIGITS + {43, 45, 46, 69, 95, 101}
  const HEX_SET := DIGITS + {65, 66, 67, 68, 69, 70, 95, 97, 98, 99, 100, 101, 102}
  const OCT_SET := {48, 49, 50, 51, 52, 53, 54, 55, 95}
  const BIN_SET := {48, 49, 95}

  /** The part of the input copied into a buffer of n + 1 bytes. */
  function Window(src: seq<byte>, i: nat, n: nat): (w: seq<byte>)
    requires i <= |src|
    ensures |w| <= n && i + |w| <= |src|
  {
    if i + n <= |src| then src[i..i + n] else src[i..]
  }

  predicate StartsWith(t: seq<byte>, i: nat, u: seq<byte>) {
    i + |u| <= |t| && t[i..i + |u|] == u
  }

  const NAN: seq<byte> := [110, 97, 110]
  const INF: seq<byte> := [105, 110, 102]
  const TRUE: seq<byte> := [116, 114, 117, 101]
  const FALSE: seq<byte> := [102, 97, 108, 115, 101]

  /** The number of characters that scan_float takes: a sign, and nan, inf or a run of the
      characters of numbers. */
  function FloatLen(w: seq<byte>): (len: nat)
    ensures len <= |w|
  {
    var i := if w != [] && IsSign(w[0]) then 1 else 0;
    if StartsWith(w, i, NAN) || StartsWith(w, i, INF) then i + 3 else Span(w, i, NUMBER_SET)
  }

  /** The float that starts the text w, and the number of characters used. */
  function FloatOf(s: Input, w: seq<byte>): Result<(Scalar, nat)> {
    var len := FloatLen(w);
    var t :- NumText(w[..len], 10);
    match s.strtod(t)
    case None => Err(Lexical)
    case Some(d) => Ok((Fp64(d), len))
  }

  /** The base announced by 0x, 0o or 0b, with the characters allowed after it. */
  function Radix(w: seq<byte>): Option<(nat, set<int>)> {
    if |w| < 2 || w[0] != 48 then None
    else if w[1] == 120 then Some((16, HEX_SET))
    else if w[1] == 111 then Some((8, OCT_SET))
    else if w[1] == 98 then Some((2, BIN_SET))
    else None
  }

  /** The number that starts the text w: an integer, or failing that a float. */
  function NumberOf(s: Input, w: seq<byte>): Result<(Scalar, nat)> {
    var i := if w != [] && IsSign(w[0]) then 1 else 0;
    if Radix(w).Some? then
      var (base, span) := Radix(w).value;
      var len := Span(w, 2, span);
      var t :- NumText(w[2..len], base);
      var (v, e) := StrToLL(t, base);
      if v.None? || e < |t| || e == 0 then Err(Lexical) else Ok((Int64(v.value), len))
    else if i < |w| && (w[i] == 105 || w[i] == 110) then FloatOf(s, w)
    else
      var len := Span(w, 0, NUMBER_SET);
      var t :- NumText(w[..len], 10);
      var (v, e) := StrToLL(t, 10);
      if v.None? || e < |t| || e == 0 then
        if e < |t| && (t[e] == POINT || t[e] == 101) then FloatOf(s, w) else Err(Lexical)
      else Ok((Int64(v.value), len))
  }

  /** How many bytes scan_copystr copies for a number. */
  const NUMBER_WINDOW := 49

  /** scan_float. */
  function ScanFloat(s: Input, p: nat): Result<(Scalar, nat)>
    requires p <= |s.src|
  {
    FloatOf(s, Window(s.src, p, NUMBER_WINDOW))
  }

  /** scan_number. */
  function ScanNumber(s: Input, p: nat): Result<(Scalar, nat)>
    requires p <= |s.src|
  {
    NumberOf(s, Window(s.src, p, NUMBER_WINDOW))
  }

  /** scan_bool. */
  function ScanBool(src: seq<byte>, p: nat): Result<(Scalar, nat)>
    requires p <= |src|
  {
    var w := Window(src, p, 9);
    var len := if StartsWith(w, 0, TRUE) then 4 else if StartsWith(w, 0, FALSE) then 5 else 0;
    if len == 0 then Err(Lexical)
    else if len < |w| && w[len] !in {0, 35, 32, 13, 10, 9, 44, 125, 93} then Err(Lexical)
    else Ok((Boolean(len == 4), len))
  }

  /** test_time. */
  predicate LooksLikeTime(src: seq<byte>, p: nat) {
    p + 2 < |src| && IsDigit(src[p]) && IsDigit(src[p + 1]) && src[p + 2] == 58
  }

  /** test_date. */
  predicate LooksLikeDate(src: seq<byte>, p: nat) {
    && p + 4 < |src| && IsDigit(src[p]) && IsDigit(src[p + 1]) && IsDigit(src[p + 2])
    && IsDigit(src[p + 3]) && src[p + 4] == 45
  }

  predicate LooksLikeStamp(src: seq<byte>, p: nat) { LooksLikeTime(src, p) || LooksLikeDate(src, p) }

  /** test_number. */
  predicate LooksLikeNumber(src: seq<byte>, p: nat) {
    || (p < |src| && (IsDigit(src[p]) || src[p] in {43, 45, 46, 95}))
    || StartsWith(src, p, NAN) || StartsWith(src, p, INF)
  }

  /** How many bytes are copied for a time, and for a date that may have one. */
  const TIME_WINDOW := 19
  const STAMP_WINDOW := 79

  /** scan_time or scan_timestamp. */
  function ScanStamp(src: seq<byte>, p: nat): (r: Result<(Scalar, nat)>)
    requires p <= |src|
    ensures r.Ok? ==> IsStamp(r.value.0) && 0 < r.value.1 <= |src| - p
  {
    if LooksLikeTime(src, p) then TimeOf(Window(src, p, TIME_WINDOW)) else StampOf(Window(src, p, STAMP_WINDOW))
  }

  /** The scalar at p and the number of its characters. */
  function ScalarAt(s: Input, p: nat): Result<(Scalar, nat)>
    requires p <= |s.src|
  {
    if LooksLikeStamp(s.src, p) then ScanStamp(s.src, p)
    else if p < |s.src| && (s.src[p] == 116 || s.src[p] == 102) then ScanBool(s.src, p)
    else if LooksLikeNumber(s.src, p) then ScanNumber(s, p)
    else Err(Lexical)
  }

  /** A literal always takes a character, and no more than there are. */
  lemma ScalarFits(s: Input, p: nat)
    requires p <= |s.src|
    ensures var r := ScalarAt(s, p);
            r.Ok? ==> 0 < r.value.1 <= |s.src| - p && r.value.0 != Unknown && !r.value.0.Str?
  {
    hide ScanStamp, ScanNumber, LooksLikeNumber, LooksLikeStamp;
    if !LooksLikeStamp(s.src, p) && LooksLikeNumber(s.src, p) {
      NumberFits(s, p);
    }
  }

  lemma NumberFits(s: Input, p: nat)
    requires p <= |s.src| && LooksLikeNumber(s.src, p)
    ensures var r := ScanNumber(s, p);
            r.Ok? ==> 0 < r.value.1 <= |s.src| - p && (r.value.0.Int64? || r.value.0.Fp64?)
  {
    hide NumText, StrToLL, Span, FloatOf, FloatLen, Window, StartsWith, LooksLikeNumber;
    var w := Window(s.src, p, NUMBER_WINDOW);
    NumberInWindow(s.src, p);
    FloatFits(s, w);
    EmptyNumber(w);
  }

  lemma EmptyNumber(w: seq<byte>)
    ensures NumText(w[..0], 10) == Ok([]) && StrToLL([], 10).1 == 0
  {
    assert w[..0] == [];
  }

  /** What a float can start with. */
  predicate StartsFloat(w: seq<byte>) {
    StartsWith(w, 0, NAN) || StartsWith(w, 0, INF) || (w != [] && w[0] in NUMBER_SET)
  }

  lemma NumberInWindow(src: seq<byte>, p: nat)
    requires p <= |src| && LooksLikeNumber(src, p)
    ensures StartsFloat(Window(src, p, NUMBER_WINDOW))
  {
    var w := Window(src, p, NUMBER_WINDOW);
    assert |w| >= 3 ==> w[0..3] == src[p..p + 3];
  }

  lemma FloatFits(s: Input, w: seq<byte>)
    ensures FloatOf(s, w).Ok? ==> FloatOf(s, w).value.0.Fp64? && FloatOf(s, w).value.1 == FloatLen(w)
    ensures StartsFloat(w) ==> FloatLen(w) > 0
  {}

  /** scan_nonstring_literal. */
  function ScanValue(s: Input, p: nat): (r: Result<(Token, nat)>)
    requires p <= |s.src|
    ensures r.Ok? ==> var (t, q) := r.value;
                      p < q <= |s.src| && t.start == p && t.typ == Value && t.scalar != Unknown && !t.scalar.Str?
  {
    hide ScalarAt;
    ScalarFits(s, p);
    var (v, n) :- ScalarAt(s, p);
    Ok((Token(Value, p, n, None, v), p + n))
  }

  /** scan_literal: a bare key, possibly of no characters. */
  function ScanLiteral(src: seq<byte>, p: nat): (Token, nat)
    requires p <= |src|
  {
    (Plain(Lit, p, BareEnd(src, p) - p), BareEnd(src, p))
  }

  // ---------- scan_next

  /** The end of a comment: the newline, or the end of the text. */
  function CommentEnd(src: seq<byte>, i: nat): (r: Result<nat>)
    requires i <= |src|
    ensures r.Ok? ==> i <= r.value <= |src|
    decreases |src| - i
  {
    var c := GetChar(src, i);
    if c == LF || c == FIN then Ok(i)
    else if c <= 8 || 10 <= c <= 31 || c == 127 then Err(Lexical)
    else CommentEnd(src, i + GetLen(src, i))
  }

  /** Where the next token starts: past spaces, tabs and comments. */
  function TokenStart(src: seq<byte>, i: nat): (r: Result<nat>)
    requires i <= |src|
    ensures r.Ok? ==> i <= r.value <= |src|
    decreases |src| - i
  {
    var c := GetChar(src, i);
    if c == SPACE || c == TAB then TokenStart(src, i + 1)
    else if c == 35 then
      var j :- CommentEnd(src, i + 1);
      TokenStart(src, j)
    else Ok(i)
  }

  /** The one-character tokens that mean the same in both modes. */
  function Punctuation(c: int): Option<TokTyp> {
    if c == LF then Some(Endl) else if c == 46 then Some(Dot) else if c == 61 then Some(Equal)
    else if c == 44 then Some(Comma) else if c == 123 then Some(LBrace) else if c == 125 then Some(RBrace)
    else None
  }

  /** scan_next at a position where a token starts. */
  function ScanAt(s: Input, p: nat, keymode: bool): Result<(Token, nat)>
    requires p <= |s.src|
  {
    var src := s.src;
    var c := GetChar(src, p);
    var q := p + GetLen(src, p);
    if c == FIN then Ok((Plain(Fin, p, 0), p))
    else if Punctuation(c).Some? then Ok((Plain(Punctuation(c).value, p, 1), q))
    else if c == 91 then
      if keymode && Match(src, q, 91) then Ok((Plain(LLBrack, p, 2), q + 1)) else Ok((Plain(LBrack, p, 1), q))
    else if c == 93 then
      if keymode && Match(src, q, 93) then Ok((Plain(RRBrack, p, 2), q + 1)) else Ok((Plain(RBrack, p, 1), q))
    else if c == QUOTE then ScanString(src, p)
    else if c == APOSTROPHE then ScanLitString(src, p)
    else if keymode then Ok(ScanLiteral(src, p))
    else ScanValue(s, p)
  }

  /** scan_next from any position: the token and the position after it. */
  function ScanNext(s: Input, i: nat, keymode: bool): Result<(Token, nat)>
    requires i <= |s.src|
  {
    var p :- TokenStart(s.src, i);
    ScanAt(s, p, keymode)
  }

  predicate IsQuoted(t: TokTyp) { t in {String, MlString, LitString, MlLitString} }

  /** Where a token lies. Only the end of the text and an empty bare key take no characters;
      a quoted token leaves room for its quotes. */
  ghost predicate Lies(src: seq<byte>, i: nat, t: Token, j: nat) {
    && i <= t.start && t.start + t.len <= j <= |src|
    && (t.typ != Fin && !(t.typ == Lit && t.len == 0) ==> i < j)
    && (IsQuoted(t.typ) ==> i < t.start && t.start + t.len < j)
    && (t.typ == Lit ==> t.start + t.len == j)
    && (t.typ == Value ==> t.scalar != Unknown && !t.scalar.Str?)
  }

  lemma TokenLies(s: Input, i: nat, keymode: bool)
    requires i <= |s.src|
    ensures var r := ScanNext(s, i, keymode);
            r.Ok? ==> Lies(s.src, i, r.value.0, r.value.1)
  {
    hide TokenStart, ScanAt, Lies;
    var p := TokenStart(s.src, i);
    if p.Ok? {
      TokenAtLies(s, i, p.value, keymode);
    }
  }

  lemma TokenAtLies(s: Input, i: nat, p: nat, keymode: bool)
    requires i <= p <= |s.src|
    ensures var r := ScanAt(s, p, keymode);
            r.Ok? ==> Lies(s.src, i, r.value.0, r.value.1)
  {
    hide ScanStamp, ScanBool, ScanNumber, LooksLikeStamp, LooksLikeNumber, BareEnd,
         StringEnd, MlStringEnd, LitStringEnd, MlLitStringEnd, MatchN, FirstOf;
  }
}
