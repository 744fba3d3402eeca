/** What has been written out is read back: tokens, keys and values. */
module ReadingBack {
  import opened Basics
  import opened Datum
  import opened Scanning
  import opened Unescaping
  import opened Trees
  import opened Documents
  import opened Parsing
  import opened ParseLaws
  import opened Turns
  import opened Nesting
  import opened Layouts
  import opened StringTexts
  import opened NumberTexts
  import opened StampTexts
  import opened ReadingStrings
  import opened ReadingNumbers
  import opened ReadingStamps
  import opened Printing
  import opened Meanings

  // ---------- tokens

  /** What is skipped before a token does not matter. */
  lemma {:induction false} TokAfter(s: Input, st: State, e: nat, keymode: bool)
    requires Inside(s, st) && e <= |s.src| && TokenStart(s.src, st.cur) == TokenStart(s.src, e)
    ensures ScanTok(s, st, keymode) == ScanTok(s, st.(cur := e), keymode)
  {
    hide ScanAt, TokenStart, CountLevel;
    TokenLies(s, st.cur, keymode);
    TokenLies(s, e, keymode);
    var x := ScanNext(s, st.cur, keymode);
    if x.Ok? {
      assert st.(cur := x.value.1) == st.(cur := e).(cur := x.value.1);
    }
  }

  lemma {:induction false} BlankTok(s: Input, st: State, w: seq<byte>, keymode: bool)
    requires Inside(s, st) && IsBlank(w) && Stands(s.src, st.cur, w)
    ensures st.cur + |w| <= |s.src|
    ensures ScanTok(s, st, keymode) == ScanTok(s, st.(cur := st.cur + |w|), keymode)
  {
    hide ScanTok, TokenStart;
    BlankSkipped(s.src, st.cur, w);
    TokAfter(s, st, st.cur + |w|, keymode);
  }

  /** Where no blank and no comment stands, the next token starts. */
  lemma ScanHere(s: Input, i: nat, keymode: bool)
    requires i < |s.src| && s.src[i] !in {SPACE as int, TAB as int, CR as int, 35}
    ensures ScanNext(s, i, keymode) == ScanAt(s, i, keymode)
    ensures GetChar(s.src, i) == s.src[i] && GetLen(s.src, i) == 1
  {
    hide ScanAt;
    assert TokenStart(s.src, i) == Ok(i);
  }

  /** The one-character tokens that mean the same in both modes. */
  lemma PunctTok(s: Input, st: State, keymode: bool)
    requires st.cur < |s.src| && s.src[st.cur] != CR && Punctuation(s.src[st.cur]).Some?
    ensures var t := Punctuation(s.src[st.cur]).value;
            ScanTok(s, st, keymode) ==
            match CountLevel(st.(cur := st.cur + 1), t)
            case Ok(st') => Ok((Plain(t, st.cur, 1), st'))
            case Err(e) => Err(e)
  {
    hide ScanString, ScanLitString, ScanValue, ScanNext, TokenStart;
    ScanHere(s, st.cur, keymode);
  }

  lemma {:induction false} NewlineTok(s: Input, st: State, n: Newline, keymode: bool)
    requires Inside(s, st) && Stands(s.src, st.cur, NewlineText(n))
    ensures st.cur + |NewlineText(n)| <= |s.src|
    ensures ScanTok(s, st, keymode) == Ok((Plain(Endl, st.cur, 1), st.(cur := st.cur + |NewlineText(n)|)))
  {
    hide ScanString, ScanLitString, ScanValue, Stands, NewlineText;
    NewlineStands(s.src, st.cur, n);
    assert TokenStart(s.src, st.cur) == Ok(st.cur);
  }

  lemma {:induction false} EndTok(s: Input, st: State)
    requires st.cur == |s.src|
    ensures ScanTok(s, st, true) == Ok((Plain(Fin, st.cur, 0), st))
  {
    hide ScanString, ScanLitString, ScanValue;
    assert TokenStart(s.src, st.cur) == Ok(st.cur);
  }

  /** The bracket at i stands alone. */
  predicate Single(src: seq<byte>, i: nat)
    requires i < |src|
  {
    i + 1 < |src| ==> src[i + 1] != src[i]
  }

  /** A single bracket in key mode. */
  lemma BracketTok(s: Input, st: State)
    requires st.cur < |s.src| && s.src[st.cur] in {OPEN, CLOSE} && Single(s.src, st.cur)
    ensures ScanTok(s, st, true) ==
            if s.src[st.cur] == CLOSE
            then Ok((Plain(RBrack, st.cur, 1), State(st.cur + 1, st.bracket - 1, st.brace, st.top)))
            else if st.bracket + 1 > LEVEL_MAX then Err(StackOverflow)
            else Ok((Plain(LBrack, st.cur, 1), State(st.cur + 1, st.bracket + 1, st.brace, st.top)))
  {
    hide ScanString, ScanLitString, ScanValue, ScanNext, TokenStart;
    ScanHere(s, st.cur, true);
  }

  lemma DoubleBracketTok(s: Input, st: State)
    requires st.cur + 1 < |s.src| && s.src[st.cur] in {OPEN, CLOSE} && s.src[st.cur + 1] == s.src[st.cur]
    ensures ScanTok(s, st, true) ==
            Ok((Plain(if s.src[st.cur] == CLOSE then RRBrack else LLBrack, st.cur, 2), st.(cur := st.cur + 2)))
  {
    hide ScanString, ScanLitString, ScanValue, ScanNext, TokenStart;
    ScanHere(s, st.cur, true);
  }

  // ---------- strings

  lemma {:induction false} QuotedDispatch(s: Input, p: nat, keymode: bool)
    requires p < |s.src| && (s.src[p] == QUOTE || s.src[p] == APOSTROPHE)
    ensures ScanNext(s, p, keymode) == if s.src[p] == QUOTE then ScanString(s.src, p) else ScanLitString(s.src, p)
  {
    hide ScanString, ScanLitString, ScanValue, ScanNext;
    ScanHere(s, p, keymode);
    assert TokenStart(s.src, p) == Ok(p);
    assert ScanNext(s, p, keymode) == ScanAt(s, p, keymode);
  }

  /** A token that moves the cursor and counts nothing. */
  lemma {:induction false} QuietTok(s: Input, st: State, keymode: bool, t: Token, e: nat)
    requires Inside(s, st) && ScanNext(s, st.cur, keymode) == Ok((t, e)) && (IsQuoted(t.typ) || t.typ == Value || t.typ == Lit)
    ensures ScanTok(s, st, keymode) == Ok((t, st.(cur := e)))
  {
    hide ScanNext;
  }

  lemma {:induction false} TypeIsQuoted(x: Str)
    ensures IsQuoted(TypeOfStr(x))
  {}

  lemma {:induction false} ScannedFits(src: seq<byte>, p: nat, x: Str)
    requires StrScannedAt(src, p, x)
    ensures p < |src| && (src[p] == QUOTE || src[p] == APOSTROPHE)
    ensures p + |StrText(x)| <= |src| && p + BodyOffset(x) + |BodyText(x)| < p + |StrText(x)|
    ensures (if src[p] == QUOTE then ScanString(src, p) else ScanLitString(src, p)) ==
            Ok((TokenOf(src, p, x), p + |StrText(x)|))
  {
    hide ScanString, ScanLitString, StrText, BodyText, BodyOffset, TokenOf;
  }

  /** The token of a string and the state behind it. */
  lemma {:induction false} StrTok(s: Input, st: State, x: Str, keymode: bool)
    requires Ready(s, st, 0) && StrOk(x) && Stands(s.src, st.cur, StrText(x)) && NotQuoted(s.src, st.cur + |StrText(x)|, x)
    ensures st.cur + |StrText(x)| <= |s.src| && st.cur + BodyOffset(x) + |BodyText(x)| <= |s.src|
    ensures var st1 := st.(cur := st.cur + |StrText(x)|);
            && ScanTok(s, st, keymode) == Ok((TokenOf(s.src, st.cur, x), st1))
            && st.top + |BodyText(x)| + 1 <= st1.cur
            && Norm(s, st1, TokenOf(s.src, st.cur, x)) ==
               var t := StrMeaning(x);
               if t.Ok? then Ok((t.value, st1.(top := st.top + |BodyText(x)| + 1))) else Err(t.error)
  {
    hide StrOk, StrText, BodyText, BodyOffset, TypeOfStr, StrScannedAt, ScanString, ScanLitString, ScanNext, ScanTok, Norm,
         StrMeaning, TokenOf, Stands, NotQuoted, FirstOf;
    StrScanned(s.src, st.cur, x);
    ScannedFits(s.src, st.cur, x);
    QuotedDispatch(s, st.cur, keymode);
    TokenKind(s.src, st.cur, x);
    TypeIsQuoted(x);
    QuietTok(s, st, keymode, TokenOf(s.src, st.cur, x), st.cur + |StrText(x)|);
    StrLength(x);
    StrNormed(s, st.(cur := st.cur + |StrText(x)|), st.cur, x);
  }

  lemma {:induction false} TokenKind(src: seq<byte>, p: nat, x: Str)
    requires p + BodyOffset(x) + |BodyText(x)| <= |src|
    ensures TokenOf(src, p, x).typ == TypeOfStr(x)
  {
    hide FirstOf;
  }

  lemma {:induction false} StrLength(x: Str)
    ensures |StrText(x)| >= |BodyText(x)| + 2
  {}

  /** A body without backslash and without NUL is not changed by unescaping. */
  lemma {:induction false} PlainUnescaped(b: seq<byte>, i: nat)
    requires i <= |b| && forall k :: i <= k < |b| ==> b[k] != BACKSLASH && b[k] != 0
    ensures Unescape(b, i) == Ok(b[i..])
    decreases |b| - i
  {
    if i < |b| {
      PlainUnescaped(b, i + 1);
      assert [b[i]] + b[i + 1..] == b[i..];
    }
  }

  lemma {:induction false} NoNulPieces(b: seq<byte>, i: nat, ps: seq<Piece>, multiline: bool)
    requires PiecesOk(ps, multiline) && Stands(b, i, PiecesText(ps)) && i + |PiecesText(ps)| == |b|
    requires forall k :: i <= k < |b| ==> b[k] != BACKSLASH
    ensures forall k :: i <= k < |b| ==> b[k] != 0
    decreases |ps|
  {
    hide Stands, PieceText, PiecesOk;
    if ps != [] {
      hide PiecesText;
      PiecesCut(b, i, ps);
      PiecesRest(ps, multiline);
      PieceStarts(ps[0], multiline, b, i);
      PlainPiece(b, i, ps[0], multiline);
      NoNulPieces(b, i + |PieceText(ps[0])|, ps[1..], multiline);
    }
  }

  lemma {:induction false} PlainPiece(b: seq<byte>, i: nat, p: Piece, multiline: bool)
    requires PieceOk(p, multiline) && (p.Raw? || p.Break?) && Stands(b, i, PieceText(p))
    ensures i + |PieceText(p)| <= |b| && forall k :: i <= k < i + |PieceText(p)| ==> b[k] != 0
  {
    StandsLength(b, i, PieceText(p));
    forall k | i <= k < i + |PieceText(p)| ensures b[k] != 0 {
      StandsAt(b, i, PieceText(p), k - i);
    }
  }

  /** What parse_norm makes of the token. */
  lemma {:induction false} StrNormed(s: Input, st: State, p: nat, x: Str)
    requires StrOk(x) && StrScannedAt(s.src, p, x) && st.top + |BodyText(x)| + 1 <= PoolMax(s)
    ensures p + BodyOffset(x) + |BodyText(x)| <= |s.src|
    ensures Norm(s, st, TokenOf(s.src, p, x)) ==
            var t := StrMeaning(x);
            if t.Ok? then Ok((t.value, st.(top := st.top + |BodyText(x)| + 1))) else Err(t.error)
  {
    hide Unescape, FirstOf, ScanString, ScanLitString, StrText, PiecesMeaning, PiecesText, PiecesOk;
    if InQuotes(x) {
      BodyUnescaped(s.src, p, x);
    }
  }

  lemma {:induction false} BodyUnescaped(src: seq<byte>, p: nat, x: Str)
    requires StrOk(x) && InQuotes(x) && p + BodyOffset(x) + |BodyText(x)| <= |src|
    requires src[p + BodyOffset(x)..p + BodyOffset(x) + |BodyText(x)|] == BodyText(x)
    ensures Unescape(BodyText(x), 0) == StrMeaning(x)
    ensures TokenOf(src, p, x).escp.None? ==> StrMeaning(x) == Ok(BodyText(x))
  {
    hide Unescape, FirstOf, PiecesMeaning, PiecesText, PiecesOk, StrText;
    var b := BodyText(x);
    var ps := x.pieces;
    assert b[0..|b|] == b;
    StandsCut(b, 0, |b|);
    PiecesUnescaped(b, 0, ps, x.MlBasic?);
    if TokenOf(src, p, x).escp.None? {
      assert forall k :: 0 <= k < |b| ==> b[k] in b;
      NoNulPieces(b, 0, ps, x.MlBasic?);
      PlainUnescaped(b, 0);
      assert b[0..] == b;
    }
  }

  // ---------- keys

  /** What may follow a part of a key. */
  predicate FollowsPart(c: int) { c == SPACE || c == TAB || c == DOT || c == EQUALS || c == CLOSE }

  lemma {:induction false} BareChars(c: int)
    ensures IsBareChar(c) <==> IsBare(c)
    ensures IsBareChar(c) ==> 45 <= c < 127 && c !in {46, 47, 61, 91, 92, 93}
    ensures FollowsPart(c) ==> !IsBareChar(c)
  {}

  /** A bare key ends at the first character that is none of its own. */
  lemma {:induction false} BareRun(src: seq<byte>, i: nat, t: Text)
    requires Stands(src, i, t) && (forall c :: c in t ==> IsBareChar(c))
    requires var e := i + |t|; e < |src| ==> !IsBareChar(src[e])
    ensures i + |t| <= |src| && BareEnd(src, i) == i + |t|
    decreases |t|
  {
    hide IsBareChar, IsBare;
    if t == [] {
      StandsLength(src, i, t);
      if i < |src| {
        BareChars(src[i]);
      }
    } else {
      StandsFirst(src, i, t);
      InRest(t);
      BareChars(src[i]);
      BareRun(src, i + 1, t[1..]);
    }
  }

  lemma {:induction false} BareTok(s: Input, st: State, t: Text)
    requires Ready(s, st, 0) && t != [] && (forall c :: c in t ==> IsBareChar(c)) && Stands(s.src, st.cur, t)
    requires var e := st.cur + |t|; e < |s.src| ==> !IsBareChar(s.src[e])
    ensures st.cur + |t| <= |s.src|
    ensures var st1 := st.(cur := st.cur + |t|);
            && ScanTok(s, st, true) == Ok((Plain(Lit, st.cur, |t|), st1))
            && Norm(s, st1, Plain(Lit, st.cur, |t|)) == Ok((t, st1.(top := st.top + |t| + 1)))
  {
    hide IsBareChar, ScanString, ScanLitString, ScanValue, ScanNext, BareEnd, Unescape;
    BareRun(s.src, st.cur, t);
    StandsFirst(s.src, st.cur, t);
    InRest(t);
    BareChars(s.src[st.cur]);
    ScanHere(s, st.cur, true);
    assert ScanAt(s, st.cur, true) == Ok((Plain(Lit, st.cur, |t|), st.cur + |t|));
  }

  /** The part has been read up to position e, or refused for an escape. */
  ghost predicate PartRead(s: Input, st: State, x: Result<Text>, e: nat)
    requires Inside(s, st)
  {
    var r := ScanTok(s, st, true);
    && e <= |s.src| && r.Ok? && IsKeyTok(r.value.0.typ) && r.value.1 == st.(cur := e)
    && var m := Norm(s, r.value.1, r.value.0);
       match x
       case Err(error) => m == Err(error)
       case Ok(t) => m.Ok? && m.value.0 == t && m.value.1 == State(e, st.bracket, st.brace, m.value.1.top) && Ready(s, m.value.1, 1)
  }

  lemma {:induction false} PartTok(s: Input, st: State, p: Part)
    requires Ready(s, st, 0) && PartOk(p) && Stands(s.src, st.cur, PartText(p))
    requires var e := st.cur + |PartText(p)|; e < |s.src| && FollowsPart(s.src[e])
    ensures PartRead(s, st, PartMeaning(p), st.cur + |PartText(p)|)
  {
    hide ScanTok, Norm, Stands, StrText, StrOk, StrMeaning, TokenOf, BodyText, IsBareChar;
    match p {
      case Bare(t) =>
        BareChars(s.src[st.cur + |t|]);
        BareTok(s, st, t);
      case Quoted(x) =>
        StrTok(s, st, x, true);
        TokenKind(s.src, st.cur, x);
    }
  }

  /** Behind blanks. */
  lemma {:induction false} LedPartTok(s: Input, st: State, w: seq<byte>, p: Part)
    requires Ready(s, st, 0) && IsBlank(w) && PartOk(p) && Stands(s.src, st.cur, w + PartText(p))
    requires var e := st.cur + |w| + |PartText(p)|; e < |s.src| && FollowsPart(s.src[e])
    ensures PartRead(s, st, PartMeaning(p), st.cur + |w| + |PartText(p)|)
  {
    hide ScanTok, Norm, Stands, PartText, PartMeaning, PartOk;
    StandsTwo(s.src, st.cur, w, PartText(p));
    BlankTok(s, st, w, true);
    PartTok(s, st.(cur := st.cur + |w|), p);
  }

  /** What may follow a key. */
  predicate EndsKey(c: int) { c == EQUALS || c == CLOSE }

  /** 1 if the token at i is a single closing bracket. */
  function Peeked(src: seq<byte>, i: nat): nat
    requires i < |src|
  {
    if src[i] == CLOSE && Single(src, i) then 1 else 0
  }

  /** The token behind a key, looked at, leaves a trace in the bracket counter only. */
  lemma PeekTok(s: Input, st: State)
    requires st.cur < |s.src| && EndsKey(s.src[st.cur]) && Inside(s, st)
    ensures var r := ScanTok(s, st, true);
            && r.Ok? && r.value.0.typ != Dot && r.value.1.brace == st.brace && r.value.1.top == st.top
            && r.value.1.bracket == st.bracket - Peeked(s.src, st.cur)
  {
    hide ScanTok;
    if s.src[st.cur] == EQUALS {
      PunctTok(s, st, true);
    } else if Single(s.src, st.cur) {
      BracketTok(s, st);
    } else {
      DoubleBracketTok(s, st);
    }
  }

  /** The key has been read, and behind blanks at most the token at position e is next; or it has
      been refused. */
  ghost predicate KeyGot(s: Input, st: State, x: Result<seq<Text>>, e: nat, r: Result<(seq<Text>, State)>) {
    match x
    case Err(error) => r == Err(error)
    case Ok(keys) =>
      && e < |s.src| && r.Ok? && r.value.0 == keys && keys != [] && Ready(s, r.value.1, 1) && r.value.1.cur <= e
      && TokenStart(s.src, r.value.1.cur) == TokenStart(s.src, e)
      && r.value.1.brace == st.brace && r.value.1.bracket == st.bracket - Peeked(s.src, e)
  }

  /** The blanks behind the n-th part and all that follows them. */
  function KeyTail(ks: Key, n: nat): seq<byte>
    requires n < |ks|
  {
    ks[n].trail + DottedText(ks, n + 1)
  }

  lemma {:induction false} KeyTailStarts(src: seq<byte>, i: nat, ks: Key, n: nat)
    requires KeyOk(ks) && n < |ks| && Stands(src, i, KeyTail(ks, n))
    requires var e := i + |KeyTail(ks, n)|; e < |src| && EndsKey(src[e])
    ensures i < |src| && FollowsPart(src[i])
  {
    hide Stands, KeyText, PartOk;
    assert ks[n] in ks;
    var w := ks[n].trail;
    StandsTwo(src, i, w, DottedText(ks, n + 1));
    if w != [] {
      StandsFirst(src, i, w);
      InRest(w);
    } else if n + 1 < |ks| {
      StandsTwo(src, i, [DOT], KeyText(ks, n + 1));
      StandsOne(src, i, DOT);
    }
  }

  /** The n-th part, and its tail. */
  lemma {:induction false} KeyCut(src: seq<byte>, i: nat, ks: Key, n: nat)
    requires KeyOk(ks) && n < |ks| && Stands(src, i, KeyText(ks, n))
    requires var e := i + |KeyText(ks, n)|; e < |src| && EndsKey(src[e])
    ensures var m := |ks[n].lead + PartText(ks[n].part)|;
            && m == |ks[n].lead| + |PartText(ks[n].part)|
            && Stands(src, i, ks[n].lead + PartText(ks[n].part)) && Stands(src, i + m, KeyTail(ks, n))
            && |KeyText(ks, n)| == m + |KeyTail(ks, n)| && i + m < |src| && FollowsPart(src[i + m])
  {
    hide Stands, PartText, PartOk, DottedText;
    var a, b := ks[n].lead + PartText(ks[n].part), KeyTail(ks, n);
    KeyTextIs(ks, n);
    StandsTwo(src, i, a, b);
    KeyTailStarts(src, i + |a|, ks, n);
  }

  lemma {:induction false} KeyTextIs(ks: Key, n: nat)
    requires n < |ks|
    ensures KeyText(ks, n) == ks[n].lead + PartText(ks[n].part) + KeyTail(ks, n)
  {
    hide PartText, DottedText;
    Assoc(ks[n].lead, PartText(ks[n].part), KeyTail(ks, n));
  }

  /** One part behind its dot. */
  lemma {:induction false} KeyRestBack(s: Input, st: State, ks: Key, n: nat, keys: seq<Text>)
    requires Ready(s, st, 1) && KeyOk(ks) && 0 < n <= |ks| && |keys| == n && Stands(s.src, st.cur, KeyTail(ks, n - 1))
    requires var e := st.cur + |KeyTail(ks, n - 1)|; e < |s.src| && EndsKey(s.src[e])
    ensures KeyGot(s, st, KeyMeaning(ks, n, keys), st.cur + |KeyTail(ks, n - 1)|, KeyRest(s, st, keys))
    decreases |ks| - n
  {
    hide ScanTok, Norm, KeyRest, Stands, KeyText, PartText, PartMeaning, TokenStart, PartOk;
    var w := ks[n - 1].trail;
    assert ks[n - 1] in ks;
    KeyTurn(s, st, keys);
    StandsTwo(s.src, st.cur, w, DottedText(ks, n));
    BlankTok(s, st, w, true);
    var st0 := st.(cur := st.cur + |w|);
    if n == |ks| {
      BlankSkipped(s.src, st.cur, w);
      PeekTok(s, st0);
    } else {
      StandsTwo(s.src, st0.cur, [DOT], KeyText(ks, n));
      StandsOne(s.src, st0.cur, DOT);
      DotTok(s, st0);
      var st1 := st0.(cur := st0.cur + 1);
      KeyCut(s.src, st1.cur, ks, n);
      assert ks[n] in ks;
      LedPartTok(s, st1, ks[n].lead, ks[n].part);
      if n < MAX_PARTS && PartMeaning(ks[n].part).Ok? {
        var (t, st2) := ScanTok(s, st1, true).value;
        var (k, st3) := Norm(s, st2, t).value;
        KeyRestBack(s, st3, ks, n + 1, keys + [k]);
      }
    }
  }

  lemma {:induction false} DotTok(s: Input, st: State)
    requires st.cur < |s.src| && s.src[st.cur] == DOT && st.bracket <= LEVEL_MAX && st.brace <= LEVEL_MAX && st.top <= st.cur + 1
    ensures ScanTok(s, st, true) == Ok((Plain(Dot, st.cur, 1), st.(cur := st.cur + 1))) && Ready(s, st.(cur := st.cur + 1), 0)
  {
    hide ScanTok;
    PunctTok(s, st, true);
  }

  /** A key is read back part by part. */
  lemma {:induction false} KeyBack(s: Input, st: State, ks: Key)
    requires Ready(s, st, 0) && KeyOk(ks) && Stands(s.src, st.cur, KeyText(ks, 0))
    requires var e := st.cur + |KeyText(ks, 0)|; e < |s.src| && EndsKey(s.src[e])
    ensures var x := ScanTok(s, st, true);
            && x.Ok? && IsKeyTok(x.value.0.typ) && Inside(s, x.value.1) && st.cur < x.value.1.cur
            && KeyGot(s, st, KeyMeaning(ks, 0, []), st.cur + |KeyText(ks, 0)|, ParseKey(s, x.value.1, x.value.0))
  {
    hide ScanTok, Norm, KeyRest, Stands, KeyText, PartText, PartMeaning, TokenStart, PartOk;
    KeyCut(s.src, st.cur, ks, 0);
    assert ks[0] in ks;
    LedPartTok(s, st, ks[0].lead, ks[0].part);
    PartNotEmpty(ks[0].part);
    if PartMeaning(ks[0].part).Ok? {
      var (t, st1) := ScanTok(s, st, true).value;
      var (k, st2) := Norm(s, st1, t).value;
      assert [] + [k] == [k];
      KeyRestBack(s, st2, ks, 1, [k]);
    }
  }

  lemma {:induction false} PartNotEmpty(p: Part)
    requires PartOk(p)
    ensures PartText(p) != []
  {
    hide StrText, StrOk;
  }

  // ---------- scalars

  /** v stands at i, with the end of a value behind it. */
  ghost predicate ValueAt(s: Input, i: nat, v: Val) {
    Stands(s.src, i, Print(v)) && EndsHere(s.src, i + |Print(v)|)
  }

  /** What a value that is no string, array or table starts with. */
  predicate StartsScalar(c: int) { StartsNumber(c) || c == 116 || c == 102 }

  lemma {:induction false} ScalarDispatch(s: Input, st: State)
    requires st.cur < |s.src| && StartsScalar(s.src[st.cur])
    ensures ScanNext(s, st.cur, false) == ScanValue(s, st.cur)
  {
    hide ScanValue, ScanString, ScanLitString, ScanNext;
    ScanHere(s, st.cur, false);
  }

  /** The scalar is scanned, or refused. */
  ghost predicate ScalarRead(s: Input, i: nat, x: Result<Scalar>, n: nat) {
    && i < |s.src| && StartsScalar(s.src[i])
    && ScalarAt(s, i) == if x.Ok? then Ok((x.value, n)) else Err(x.error)
  }

  lemma {:induction false} BoolScanned(s: Input, i: nat, b: bool)
    requires ValueAt(s, i, VBool(b))
    ensures ScalarRead(s, i, Ok(Boolean(b)), |BoolText(b)|)
  {
    hide ScanStamp, ScanNumber;
    var u := BoolText(b);
    StandsAt(s.src, i, u, 0);
    var w := Window(s.src, i, 9);
    assert |w| >= |u| && w[..|u|] == s.src[i..i + |u|] == u;
    assert |w| > |u| ==> w[|u|] == s.src[i + |u|];
    assert w[0] == w[..|u|][0];
    assert w[0..0 + |u|] == u;
  }

  lemma {:induction false} NumberDispatch(s: Input, i: nat)
    requires i < |s.src| && !LooksLikeStamp(s.src, i) && s.src[i] != 116 && s.src[i] != 102 && LooksLikeNumber(s.src, i)
    ensures ScalarAt(s, i) == ScanNumber(s, i)
  {
    hide LooksLikeStamp, LooksLikeNumber, ScanNumber, ScanStamp, ScanBool;
  }

  lemma {:induction false} IntegerBack(s: Input, i: nat, n: Integer)
    requires IntegerOk(n) && ValueAt(s, i, VInt(n))
    ensures ScalarRead(s, i, IntegerMeaning(n), |IntegerText(n)|)
  {
    hide IntegerForm, IntegerMeaning, IntegerText, LooksLikeStamp, ScanNumber, ScalarAt, EndsHere, Stands;
    IntegerScanned(s, i, n);
    IntegerShape(n);
    StandsFirst(s.src, i, IntegerText(n));
    NumberIsNoStamp(s.src, i, IntegerText(n));
    NumberDispatch(s, i);
    IntegerErrors(n);
  }

  lemma {:induction false} IntegerErrors(n: Integer)
    ensures IntegerMeaning(n).Err? ==> IntegerMeaning(n).error == Lexical
  {}

  lemma {:induction false} FloatBack(s: Input, i: nat, x: Float, d: Option<Double>)
    requires FloatOk(x) && s.strtod(PlainFloat(x)) == d && ValueAt(s, i, VFloat(x, d))
    ensures ScalarRead(s, i, ScalarMeaning(VFloat(x, d)), |FloatText(x)|)
  {
    hide FloatForm, PlainFloat, FloatText, LooksLikeStamp, ScanNumber, ScalarAt, EndsHere, Stands;
    FloatScanned(s, i, x);
    FloatShape(x);
    StandsFirst(s.src, i, FloatText(x));
    NumberIsNoStamp(s.src, i, FloatText(x));
    if x.Word? && x.sign.Unsigned? {
      WordLooks(s.src, i, x.inf);
    }
    NumberDispatch(s, i);
  }

  lemma {:induction false} WordLooks(src: seq<byte>, i: nat, inf: bool)
    requires Stands(src, i, WordText(inf))
    ensures LooksLikeNumber(src, i)
  {}

  lemma {:induction false} StampBack(s: Input, i: nat, x: StampForm)
    requires StampOkForm(x) && ValueAt(s, i, VStamp(x))
    ensures ScalarRead(s, i, StampMeaning(x), |StampText(x)|)
  {
    hide StampOkForm, StampText, StampMeaning, LooksLikeStamp, ScanStamp, EndsHere, Stands;
    StampScanned(s.src, i, x);
    StampErrors(x);
  }

  lemma {:induction false} StampErrors(x: StampForm)
    ensures StampMeaning(x).Err? ==> StampMeaning(x).error == Lexical
  {
    hide IsDate, IsTimeOfDay, IsZone, UsecOf, MinutesOf;
  }

  lemma {:induction false} ScalarBack(s: Input, i: nat, v: Val)
    requires (v.VBool? || v.VInt? || v.VFloat? || v.VStamp?) && ValOk(v) && Converts(v, s.strtod) && ValueAt(s, i, v)
    ensures ScalarRead(s, i, ScalarMeaning(v), |Print(v)|)
  {
    hide ValueAt, ScalarRead, IntegerOk, FloatOk, StampOkForm, IntegerMeaning, StampMeaning, IntegerText, FloatText, StampText,
         PlainFloat;
    match v {
      case VBool(b) => BoolScanned(s, i, b);
      case VInt(n) => IntegerBack(s, i, n);
      case VFloat(x, d) => FloatBack(s, i, x, d);
      case VStamp(x) => StampBack(s, i, x);
    }
  }

  // ---------- values

  /** The value has been read up to position e, with nothing else changed. */
  ghost predicate ValueRead(s: Input, st: State, d: Datum, e: nat, r: Result<(Datum, State)>) {
    && r.Ok? && r.value.0 == d && Ready(s, r.value.1, 0) && r.value.1.cur == e
    && r.value.1.bracket == st.bracket && r.value.1.brace == st.brace
  }

  /** The value at st has been read, or refused, as x says. */
  ghost predicate ValueGot(s: Input, st: State, x: Result<Datum>, e: nat, r: Result<(Datum, State)>) {
    match x
    case Ok(d) => ValueRead(s, st, d, e, r)
    case Err(error) => r == Err(error)
  }

  predicate IsValueTok(t: TokTyp) { IsQuoted(t) || t == Value || t == LBrack || t == LBrace }

  /** The token a value starts with. */
  ghost predicate StartsValue(s: Input, st: State)
    requires Inside(s, st)
  {
    var x := ScanTok(s, st, false);
    x.Ok? ==> IsValueTok(x.value.0.typ)
  }

  /** A blank before a value is skipped. */
  lemma {:induction false} BlankValue(s: Input, st: State, w: seq<byte>)
    requires Inside(s, st) && IsBlank(w) && Stands(s.src, st.cur, w)
    ensures st.cur + |w| <= |s.src|
    ensures var st1 := st.(cur := st.cur + |w|);
            ReadValue(s, st) == ReadValue(s, st1) && (StartsValue(s, st1) ==> StartsValue(s, st))
  {
    hide ScanTok, ParseVal, Stands;
    BlankTok(s, st, w, false);
  }

  lemma {:induction false} StrBack(s: Input, st: State, x: Str)
    requires Ready(s, st, 0) && StrOk(x) && ValueAt(s, st.cur, VStr(x))
    ensures StartsValue(s, st)
    ensures ValueGot(s, st, Eval(VStr(x), st.bracket, st.brace), st.cur + |StrText(x)|, ReadValue(s, st))
  {
    hide ScanTok, Norm, StrText, StrOk, StrMeaning, TokenOf, BodyText, Stands;
    EndIsNoQuote(s.src, st.cur + |StrText(x)|, x);
    StrTok(s, st, x, false);
    TokenKind(s.src, st.cur, x);
  }

  lemma {:induction false} EndIsNoQuote(src: seq<byte>, e: nat, x: Str)
    requires EndsHere(src, e)
    ensures NotQuoted(src, e, x)
  {}

  lemma {:induction false} ScalarTok(s: Input, st: State, v: Val)
    requires (v.VBool? || v.VInt? || v.VFloat? || v.VStamp?) && Ready(s, st, 0) && ValOk(v) && Converts(v, s.strtod)
    requires ValueAt(s, st.cur, v)
    ensures StartsValue(s, st)
    ensures ValueGot(s, st, Eval(v, st.bracket, st.brace), st.cur + |Print(v)|, ReadValue(s, st))
  {
    hide ScanNext, ScalarMeaning, Print, ValOk, ScalarAt, Converts, Stands, StartsScalar, EndsHere;
    ScalarBack(s, st.cur, v);
    ScalarDispatch(s, st);
    ValueLength(s, st.cur, v);
  }

  lemma {:induction false} ValueLength(s: Input, i: nat, v: Val)
    requires ValueAt(s, i, v)
    ensures i + |Print(v)| <= |s.src|
  {}

  /** A value is read back as it was meant, or refused for what it means, its size, depth or keys. */
  lemma {:induction false} ValueBack(s: Input, st: State, v: Val)
    requires Ready(s, st, 0) && ValOk(v) && Converts(v, s.strtod) && ValueAt(s, st.cur, v)
    ensures StartsValue(s, st)
    ensures ValueGot(s, st, Eval(v, st.bracket, st.brace), st.cur + |Print(v)|, ReadValue(s, st))
    decreases v, 1, 0
  {
    hide ReadValue, StartsValue, ValueAt, Eval, Print, ValueGot;
    match v {
      case VStr(x) => StrValueBack(s, st, x);
      case VArr(xs, comma, end) => ArrayBack(s, st, xs, comma, end);
      case VTab(ps, comma, end) => TableBack(s, st, ps, comma, end);
      case _ => ScalarTok(s, st, v);
    }
  }

  lemma {:induction false} StrValueBack(s: Input, st: State, x: Str)
    requires Ready(s, st, 0) && ValOk(VStr(x)) && ValueAt(s, st.cur, VStr(x))
    ensures StartsValue(s, st)
    ensures ValueGot(s, st, Eval(VStr(x), st.bracket, st.brace), st.cur + |Print(VStr(x))|, ReadValue(s, st))
  {
    hide StrOk, StrText, ReadValue, StartsValue, ValueAt, Eval, ValueGot;
    StrBack(s, st, x);
  }

  // ---------- arrays

  /** A line end in an array is skipped. */
  lemma {:induction false} EndInArray(s: Input, st: State, e: LineEnd, xs: seq<Datum>, needComma: bool)
    requires Inside(s, st) && TailOk(e.tail) && Stands(s.src, st.cur, EndText(e))
    ensures st.cur + |EndText(e)| <= |s.src|
    ensures ArrayRest(s, st, xs, needComma) == ArrayRest(s, st.(cur := st.cur + |EndText(e)|), xs, needComma)
  {
    hide ScanTok, ArrayRest, Stands, TokenStart, TailText;
    EndTok2(s, st, e, false);
    ArrayTurn(s, st, xs, needComma);
  }

  /** A line end is one token. */
  lemma {:induction false} EndTok2(s: Input, st: State, e: LineEnd, keymode: bool)
    requires Inside(s, st) && TailOk(e.tail) && Stands(s.src, st.cur, EndText(e))
    ensures st.cur + |EndText(e)| <= |s.src|
    ensures var x := ScanTok(s, st, keymode);
            x.Ok? && x.value.0.typ == Endl && x.value.1 == st.(cur := st.cur + |EndText(e)|)
  {
    hide ScanTok, Stands, TokenStart, TailText, NewlineText;
    var i := st.cur + |TailText(e.tail)|;
    StandsTwo(s.src, st.cur, TailText(e.tail), NewlineText(e.newline));
    NewlineStands(s.src, i, e.newline);
    TailSkipped(s.src, st.cur, e.tail);
    TokAfter(s, st, i, keymode);
    NewlineTok(s, st.(cur := i), e.newline, keymode);
  }

  lemma {:induction false} EndsInArray(s: Input, st: State, es: seq<LineEnd>, xs: seq<Datum>, needComma: bool)
    requires Inside(s, st) && EndsOk(es) && Stands(s.src, st.cur, EndsText(es))
    ensures st.cur + |EndsText(es)| <= |s.src|
    ensures ArrayRest(s, st, xs, needComma) == ArrayRest(s, st.(cur := st.cur + |EndsText(es)|), xs, needComma)
    decreases |es|
  {
    hide ArrayRest, Stands, EndText;
    if es == [] {
      assert st.(cur := st.cur + 0) == st;
    } else {
      InRest(es);
      StandsTwo(s.src, st.cur, EndText(es[0]), EndsText(es[1..]));
      EndInArray(s, st, es[0], xs, needComma);
      EndsInArray(s, st.(cur := st.cur + |EndText(es[0])|), es[1..], xs, needComma);
    }
  }

  lemma {:induction false} GapInArray(s: Input, st: State, g: Gap, xs: seq<Datum>, needComma: bool)
    requires Inside(s, st) && GapOk(g) && Stands(s.src, st.cur, GapText(g))
    ensures st.cur + |GapText(g)| <= |s.src|
    ensures ArrayRest(s, st, xs, needComma) == ArrayRest(s, st.(cur := st.cur + |GapText(g)|), xs, needComma)
  {
    hide ArrayRest, Stands, EndsText, ScanTok;
    StandsTwo(s.src, st.cur, EndsText(g.ends), g.blank);
    EndsInArray(s, st, g.ends, xs, needComma);
    var st1 := st.(cur := st.cur + |EndsText(g.ends)|);
    BlankTok(s, st1, g.blank, false);
    ArrayTurn(s, st1, xs, needComma);
    ArrayTurn(s, st1.(cur := st1.cur + |g.blank|), xs, needComma);
  }

  lemma {:induction false} ArrayBack(s: Input, st: State, xs: seq<Elem>, comma: bool, end: Gap)
    requires var v := VArr(xs, comma, end); Ready(s, st, 0) && ValOk(v) && Converts(v, s.strtod) && ValueAt(s, st.cur, v)
    ensures StartsValue(s, st)
    ensures var v := VArr(xs, comma, end);
            ValueGot(s, st, Eval(v, st.bracket, st.brace), st.cur + |Print(v)|, ReadValue(s, st))
    decreases xs, 2, 0
  {
    hide ScanTok, Stands, PrintElems, Inline, EvalElems, ArrayRest, ElemsOk, EndsHere, GapText;
    var v := VArr(xs, comma, end);
    var t := PrintElems(xs, 0, comma) + (GapText(end) + [CLOSE]);
    StandsTwo(s.src, st.cur, [OPEN], t);
    StandsOne(s.src, st.cur, OPEN);
    ScanBracket(s, st);
    if st.bracket + 1 <= LEVEL_MAX {
      var st1 := State(st.cur + 1, st.bracket + 1, st.brace, st.top);
      ElemsBack(s, st1, xs, 0, comma, end, [], false);
      assert ParseVal(s, st1, Plain(LBrack, st.cur, 1)) == ArrayRest(s, st1, [], false);
    }
  }

  /** What becomes of the rest of an array, whose end is at position e. */
  ghost predicate ArrayGot(s: Input, st: State, x: Result<seq<Datum>>, e: nat, r: Result<(Datum, State)>) {
    match x
    case Err(error) => r == Err(error)
    case Ok(ys) =>
      && r.Ok? && r.value.0 == Inline(Array(NO_FLAGS, ys)) && Ready(s, r.value.1, 0) && r.value.1.cur == e
      && r.value.1.bracket == st.bracket - 1 && r.value.1.brace == st.brace
  }

  ghost predicate ElemsConvert(xs: seq<Elem>, strtod: seq<byte> -> Option<Double>) {
    forall x :: x in xs ==> Converts(x.val, strtod)
  }

  lemma {:induction false} ElemsBack(s: Input, st: State, xs: seq<Elem>, n: nat, comma: bool, end: Gap, ys: seq<Datum>,
                                     needComma: bool)
    requires Ready(s, st, 0) && n <= |xs| && ElemsOk(xs) && GapOk(end) && ElemsConvert(xs, s.strtod)
    requires Stands(s.src, st.cur, PrintElems(xs, n, comma) + (GapText(end) + [CLOSE])) && (needComma ==> n == |xs|)
    ensures ArrayGot(s, st, EvalElems(xs, n, ys, st.bracket, st.brace),
                     st.cur + |PrintElems(xs, n, comma)| + |GapText(end)| + 1, ArrayRest(s, st, ys, needComma))
    decreases xs, 1, |xs| - n
  {
    hide ScanTok, Stands, PrintElems, Inline, ArrayRest, Print, ParseVal, Eval, GapText, ValOk, GapOk, Converts, ElemsOk, ElemsConvert;
    if n == |xs| {
      NoElems(xs, comma);
      assert [] + (GapText(end) + [CLOSE]) == GapText(end) + [CLOSE];
      StandsTwo(s.src, st.cur, GapText(end), [CLOSE]);
      StandsOne(s.src, st.cur + |GapText(end)|, CLOSE);
      GapInArray(s, st, end, ys, needComma);
      var st1 := st.(cur := st.cur + |GapText(end)|);
      ArrayTurn(s, st1, ys, needComma);
      ScanBracket(s, st1);
    } else {
      var x := xs[n];
      ElemAt(xs, n, s.strtod);
      ElemsCut(s, st.cur, xs, n, comma, end);
      GapInArray(s, st, x.before, ys, false);
      var st1 := st.(cur := st.cur + |GapText(x.before)|);
      ArrayTurn(s, st1, ys, false);
      assert x.val < x;
      ValueBack(s, st1, x.val);
      var v := Eval(x.val, st.bracket, st.brace);
      if v.Ok? && |ys| < ARRAY_MAX {
        var st2 := ReadValue(s, st1).value.1;
        GapInArray(s, st2, x.after, ys + [v.value], true);
        var st3 := st2.(cur := st2.cur + |GapText(x.after)|);
        if n + 1 < |xs| || comma {
          ArrayTurn(s, st3, ys + [v.value], true);
          PunctTok(s, st3, false);
          ElemsBack(s, st3.(cur := st3.cur + 1), xs, n + 1, comma, end, ys + [v.value], false);
        } else {
          ElemsBack(s, st3, xs, n + 1, comma, end, ys + [v.value], true);
        }
      }
    }
  }

  lemma {:induction false} NoElems(xs: seq<Elem>, comma: bool)
    ensures PrintElems(xs, |xs|, comma) == []
  {}

  lemma {:induction false} ElemAt(xs: seq<Elem>, n: nat, strtod: seq<byte> -> Option<Double>)
    requires n < |xs| && ElemsOk(xs) && ElemsConvert(xs, strtod)
    ensures GapOk(xs[n].before) && ValOk(xs[n].val) && GapOk(xs[n].after) && Converts(xs[n].val, strtod)
  {
    hide GapOk, ValOk, Converts;
    assert xs[n] in xs;
  }

  /** The n-th element, what stands around it, and the rest. */
  lemma {:induction false} ElemsCut(s: Input, i: nat, xs: seq<Elem>, n: nat, comma: bool, end: Gap)
    requires n < |xs| && ElemsOk(xs) && GapOk(end)
    requires Stands(s.src, i, PrintElems(xs, n, comma) + (GapText(end) + [CLOSE]))
    ensures var x := xs[n];
            var j := i + |GapText(x.before)|;
            var k := j + |Print(x.val)|;
            var m := k + |GapText(x.after)|;
            var more := n + 1 < |xs| || comma;
            && Stands(s.src, i, GapText(x.before)) && ValueAt(s, j, x.val) && Stands(s.src, k, GapText(x.after))
            && (more ==> m < |s.src| && s.src[m] == COMMA)
            && Stands(s.src, if more then m + 1 else m, PrintElems(xs, n + 1, comma) + (GapText(end) + [CLOSE]))
            && i + |PrintElems(xs, n, comma)| == (if more then m + 1 else m) + |PrintElems(xs, n + 1, comma)|
  {
    hide Stands, PrintElems, Print, GapText, GapOk, ValOk, EndsHere;
    var x := xs[n];
    assert x in xs;
    var rest := PrintElems(xs, n + 1, comma) + (GapText(end) + [CLOSE]);
    var c := CommaText(n, |xs|, comma);
    ElemsAre(xs, n, comma, GapText(end) + [CLOSE]);
    StandsThree(s.src, i, GapText(x.before), Print(x.val), GapText(x.after) + (c + rest));
    StandsThree(s.src, i + |GapText(x.before)| + |Print(x.val)|, GapText(x.after), c, rest);
    var m := i + |GapText(x.before)| + |Print(x.val)| + |GapText(x.after)|;
    StandsOne(s.src, m, COMMA);
    if n + 1 < |xs| || comma {
      CommaEnds(s.src, m);
    } else {
      NoElems(xs, comma);
      assert rest == GapText(end) + [CLOSE];
      CloserEnds(s.src, m, end, CLOSE);
    }
    GapEnds(s.src, i + |GapText(x.before)| + |Print(x.val)|, x.after);
  }

  lemma {:induction false} ElemsAre(xs: seq<Elem>, n: nat, comma: bool, tail: seq<byte>)
    requires n < |xs|
    ensures var x := xs[n];
            PrintElems(xs, n, comma) + tail ==
            GapText(x.before) + (Print(x.val) + (GapText(x.after) + (CommaText(n, |xs|, comma) + (PrintElems(xs, n + 1, comma) + tail))))
  {
    hide Print, GapText, CommaText;
  }

  lemma {:induction false} CommaEnds(src: seq<byte>, m: nat)
    requires m < |src| && src[m] == COMMA
    ensures EndsHere(src, m)
  {}

  lemma {:induction false} CloserEnds(src: seq<byte>, m: nat, g: Gap, c: byte)
    requires GapOk(g) && (c == CLOSE || c == CLOSE_BRACE) && Stands(src, m, GapText(g) + [c])
    ensures EndsHere(src, m)
  {
    hide Stands, GapText, GapOk;
    StandsTwo(src, m, GapText(g), [c]);
    StandsOne(src, m + |GapText(g)|, c);
    assert EndsHere(src, m + |GapText(g)|);
    GapEnds(src, m, g);
  }

  // ---------- inline tables

  lemma {:induction false} EndsInTable(s: Input, st: State, es: seq<LineEnd>, tab: Datum, needComma: bool)
    requires Inside(s, st) && EndsOk(es) && Stands(s.src, st.cur, EndsText(es))
    ensures st.cur + |EndsText(es)| <= |s.src|
    ensures TableRest(s, st, tab, needComma) == TableRest(s, st.(cur := st.cur + |EndsText(es)|), tab, needComma)
    decreases |es|
  {
    hide TableRest, Stands, EndText, ScanTok, Pair;
    if es == [] {
      assert st.(cur := st.cur + 0) == st;
    } else {
      InRest(es);
      StandsTwo(s.src, st.cur, EndText(es[0]), EndsText(es[1..]));
      EndTok2(s, st, es[0], true);
      TableTurn(s, st, tab, needComma);
      EndsInTable(s, st.(cur := st.cur + |EndText(es[0])|), es[1..], tab, needComma);
    }
  }

  lemma {:induction false} GapInTable(s: Input, st: State, g: Gap, tab: Datum, needComma: bool)
    requires Inside(s, st) && GapOk(g) && Stands(s.src, st.cur, GapText(g))
    ensures st.cur + |GapText(g)| <= |s.src|
    ensures TableRest(s, st, tab, needComma) == TableRest(s, st.(cur := st.cur + |GapText(g)|), tab, needComma)
  {
    hide TableRest, Stands, EndsText, ScanTok, Pair;
    StandsTwo(s.src, st.cur, EndsText(g.ends), g.blank);
    EndsInTable(s, st, g.ends, tab, needComma);
    var st1 := st.(cur := st.cur + |EndsText(g.ends)|);
    BlankTok(s, st1, g.blank, true);
    TableTurn(s, st1, tab, needComma);
    TableTurn(s, st1.(cur := st1.cur + |g.blank|), tab, needComma);
  }

  lemma {:induction false} TableBack(s: Input, st: State, ps: seq<Binding>, comma: bool, end: Gap)
    requires var v := VTab(ps, comma, end); Ready(s, st, 0) && ValOk(v) && Converts(v, s.strtod) && ValueAt(s, st.cur, v)
    ensures StartsValue(s, st)
    ensures var v := VTab(ps, comma, end);
            ValueGot(s, st, Eval(v, st.bracket, st.brace), st.cur + |Print(v)|, ReadValue(s, st))
    decreases ps, 2, 0
  {
    hide ScanTok, Stands, PrintPairs, Inline, EvalPairs, TableRest, PairsOk, EndsHere, GapText;
    var t := PrintPairs(ps, 0, comma) + (GapText(end) + [CLOSE_BRACE]);
    StandsTwo(s.src, st.cur, [OPEN_BRACE], t);
    StandsOne(s.src, st.cur, OPEN_BRACE);
    PunctTok(s, st, false);
    if st.brace + 1 <= LEVEL_MAX {
      var st1 := State(st.cur + 1, st.bracket, st.brace + 1, st.top);
      PairsBack(s, st1, ps, 0, comma, end, EMPTY_TABLE, false);
      assert ParseVal(s, st1, Plain(LBrace, st.cur, 1)) == TableRest(s, st1, EMPTY_TABLE, false);
    }
  }

  /** What becomes of the rest of an inline table, whose end is at position e. */
  ghost predicate TableGot(s: Input, st: State, x: Result<Datum>, e: nat, r: Result<(Datum, State)>) {
    match x
    case Err(error) => r == Err(error)
    case Ok(tab) =>
      && r.Ok? && r.value.0 == Inline(tab) && Ready(s, r.value.1, 0) && r.value.1.cur == e
      && r.value.1.bracket == st.bracket && r.value.1.brace == st.brace - 1
  }

  ghost predicate PairsConvert(ps: seq<Binding>, strtod: seq<byte> -> Option<Double>) {
    forall p :: p in ps ==> Converts(p.val, strtod)
  }

  /** The table behind the n-th pair. */
  function EvalPair(tab: Datum, p: Binding, b: int, c: int): Result<Datum> {
    if p.key == [] then Err(Syntax)
    else
      var keys :- KeyMeaning(p.key, 0, []);
      var (d, q) :- EnterInline(tab, keys);
      var v :- Eval(p.val, b, c);
      TabAdd(d, q, keys[|keys| - 1], v)
  }

  lemma {:induction false} EvalPairsTurn(ps: seq<Binding>, n: nat, tab: Datum, b: int, c: int)
    requires n < |ps|
    ensures EvalPairs(ps, n, tab, b, c) ==
            var x := EvalPair(tab, ps[n], b, c);
            if x.Err? then Err(x.error) else EvalPairs(ps, n + 1, x.value, b, c)
  {
    hide KeyMeaning, EnterInline, Eval, TabAdd;
  }

  lemma {:induction false} PairsBack(s: Input, st: State, ps: seq<Binding>, n: nat, comma: bool, end: Gap, tab: Datum,
                                     needComma: bool)
    requires Ready(s, st, 0) && n <= |ps| && PairsOk(ps) && GapOk(end) && PairsConvert(ps, s.strtod)
    requires Stands(s.src, st.cur, PrintPairs(ps, n, comma) + (GapText(end) + [CLOSE_BRACE])) && (needComma ==> n == |ps|)
    ensures TableGot(s, st, EvalPairs(ps, n, tab, st.bracket, st.brace),
                     st.cur + |PrintPairs(ps, n, comma)| + |GapText(end)| + 1, TableRest(s, st, tab, needComma))
    decreases ps, 1, |ps| - n
  {
    hide ScanTok, Stands, PrintPairs, Inline, TableRest, Print, Pair, EvalPair, GapText, ValOk, GapOk, Converts, PairsOk,
         PairsConvert, EndsText, EvalPairs, KeyText;
    if n == |ps| {
      NoPairs(ps, comma);
      EvalPairsEnd(ps, tab, st.bracket, st.brace);
      assert [] + (GapText(end) + [CLOSE_BRACE]) == GapText(end) + [CLOSE_BRACE];
      StandsTwo(s.src, st.cur, GapText(end), [CLOSE_BRACE]);
      StandsOne(s.src, st.cur + |GapText(end)|, CLOSE_BRACE);
      GapInTable(s, st, end, tab, needComma);
      var st1 := st.(cur := st.cur + |GapText(end)|);
      TableTurn(s, st1, tab, needComma);
      PunctTok(s, st1, true);
    } else {
      var p := ps[n];
      PairAt(ps, n, s.strtod);
      PairsCut(s, st.cur, ps, n, comma, end);
      EvalPairsTurn(ps, n, tab, st.bracket, st.brace);
      EndsInTable(s, st, p.before, tab, false);
      var st1 := st.(cur := st.cur + |EndsText(p.before)|);
      TableTurn(s, st1, tab, false);
      PairBack(s, st1, ps, n, tab);
      var x := EvalPair(tab, p, st.bracket, st.brace);
      if x.Ok? {
        var (t, st2) := ScanTok(s, st1, true).value;
        var st3 := Pair(s, st2, tab, t).value.1;
        GapInTable(s, st3, p.after, x.value, true);
        var st4 := st3.(cur := st3.cur + |GapText(p.after)|);
        if n + 1 < |ps| || comma {
          TableTurn(s, st4, x.value, true);
          PunctTok(s, st4, true);
          PairsBack(s, st4.(cur := st4.cur + 1), ps, n + 1, comma, end, x.value, false);
        } else {
          PairsBack(s, st4, ps, n + 1, comma, end, x.value, true);
        }
      }
    }
  }

  lemma {:induction false} NoPairs(ps: seq<Binding>, comma: bool)
    ensures PrintPairs(ps, |ps|, comma) == []
  {}

  lemma {:induction false} EvalPairsEnd(ps: seq<Binding>, tab: Datum, b: int, c: int)
    ensures EvalPairs(ps, |ps|, tab, b, c) == Ok(tab)
  {}

  lemma {:induction false} PairAt(ps: seq<Binding>, n: nat, strtod: seq<byte> -> Option<Double>)
    requires n < |ps| && PairsOk(ps) && PairsConvert(ps, strtod)
    ensures var p := ps[n];
            EndsOk(p.before) && KeyOk(p.key) && IsBlank(p.lead) && ValOk(p.val) && GapOk(p.after) && Converts(p.val, strtod)
  {
    hide GapOk, ValOk, Converts, KeyOk, EndsOk, IsBlank;
    assert ps[n] in ps;
  }

  /** The text of a pair up to its value. */
  function PairHead(p: Binding): seq<byte> { KeyText(p.key, 0) + ([EQUALS] + p.lead) }

  /** The n-th pair, what stands around it, and the rest. */
  lemma {:induction false} PairsCut(s: Input, i: nat, ps: seq<Binding>, n: nat, comma: bool, end: Gap)
    requires n < |ps| && PairsOk(ps) && GapOk(end)
    requires Stands(s.src, i, PrintPairs(ps, n, comma) + (GapText(end) + [CLOSE_BRACE]))
    ensures var p := ps[n];
            var h := i + |EndsText(p.before)|;
            var j := h + |PairHead(p)|;
            var k := j + |Print(p.val)|;
            var m := k + |GapText(p.after)|;
            var more := n + 1 < |ps| || comma;
            && Stands(s.src, i, EndsText(p.before)) && Stands(s.src, h, PairHead(p)) && ValueAt(s, j, p.val)
            && Stands(s.src, k, GapText(p.after)) && (more ==> m < |s.src| && s.src[m] == COMMA)
            && Stands(s.src, if more then m + 1 else m, PrintPairs(ps, n + 1, comma) + (GapText(end) + [CLOSE_BRACE]))
            && i + |PrintPairs(ps, n, comma)| == (if more then m + 1 else m) + |PrintPairs(ps, n + 1, comma)|
  {
    hide Stands, PrintPairs, Print, GapText, GapOk, ValOk, EndsHere, KeyText, EndsText, KeyOk, EndsOk, PairHead;
    var p := ps[n];
    assert p in ps;
    var rest := PrintPairs(ps, n + 1, comma) + (GapText(end) + [CLOSE_BRACE]);
    var c := CommaText(n, |ps|, comma);
    PairsAre(ps, n, comma, GapText(end) + [CLOSE_BRACE]);
    var h := i + |EndsText(p.before)|;
    var j := h + |PairHead(p)|;
    StandsThree(s.src, i, EndsText(p.before), PairHead(p), Print(p.val) + (GapText(p.after) + (c + rest)));
    StandsThree(s.src, j, Print(p.val), GapText(p.after), c + rest);
    var m := j + |Print(p.val)| + |GapText(p.after)|;
    StandsTwo(s.src, m, c, rest);
    StandsOne(s.src, m, COMMA);
    if n + 1 < |ps| || comma {
      CommaEnds(s.src, m);
    } else {
      NoPairs(ps, comma);
      assert rest == GapText(end) + [CLOSE_BRACE];
      CloserEnds(s.src, m, end, CLOSE_BRACE);
    }
    GapEnds(s.src, j + |Print(p.val)|, p.after);
  }

  lemma {:induction false} PairsAre(ps: seq<Binding>, n: nat, comma: bool, tail: seq<byte>)
    requires n < |ps|
    ensures var p := ps[n];
            PrintPairs(ps, n, comma) + tail ==
            EndsText(p.before) + (PairHead(p) + (Print(p.val) + (GapText(p.after) +
            (CommaText(n, |ps|, comma) + (PrintPairs(ps, n + 1, comma) + tail)))))
  {
    hide Print, GapText, CommaText, KeyText, EndsText;
    var p := ps[n];
    assert PairHead(p) + (Print(p.val) + GapText(p.after)) ==
           KeyText(p.key, 0) + ([EQUALS] + (p.lead + (Print(p.val) + GapText(p.after))));
  }

  /** One pair: key, equals sign, value. */
  lemma {:induction false} PairBack(s: Input, st: State, ps: seq<Binding>, n: nat, tab: Datum)
    requires Ready(s, st, 0) && n < |ps| && PairsOk(ps) && PairsConvert(ps, s.strtod)
    requires Stands(s.src, st.cur, PairHead(ps[n])) && ValueAt(s, st.cur + |PairHead(ps[n])|, ps[n].val)
    ensures var x := ScanTok(s, st, true);
            && x.Ok? && IsKeyTok(x.value.0.typ) && Inside(s, x.value.1)
            && ValueGot(s, st, EvalPair(tab, ps[n], st.bracket, st.brace), st.cur + |PairHead(ps[n])| + |Print(ps[n].val)|,
                        Pair(s, x.value.1, tab, x.value.0))
    decreases ps, 0, |ps| - n
  {
    hide ScanTok, Stands, Print, ParseKey, ParseVal, EnterInline, TabAdd, Eval, KeyText, KeyOk, ValOk, KeyMeaning, ValueAt,
         Converts, TokenStart, PairsOk, PairsConvert, IsBlank, EndsOk, GapOk;
    var p := ps[n];
    PairAt(ps, n, s.strtod);
    var e := st.cur + |KeyText(p.key, 0)|;
    StandsThree(s.src, st.cur, KeyText(p.key, 0), [EQUALS], p.lead);
    StandsOne(s.src, e, EQUALS);
    KeyBack(s, st, p.key);
    KeyNotEmpty(p.key);
    var keys := KeyMeaning(p.key, 0, []);
    if keys.Ok? {
      var (t, st1) := ScanTok(s, st, true).value;
      var st2 := ParseKey(s, st1, t).value.1;
      EqualsTok(s, st2, e, false);
      var st3 := st2.(cur := e + 1);
      BlankValue(s, st3, p.lead);
      assert p.val < p;
      ValueBack(s, st3.(cur := e + 1 + |p.lead|), p.val);
    }
  }

  lemma {:induction false} KeyNotEmpty(ks: Key)
    requires KeyOk(ks)
    ensures ks != []
  {}

  /** The equals sign behind a key that has been read. */
  lemma {:induction false} EqualsTok(s: Input, st: State, e: nat, keymode: bool)
    requires Ready(s, st, 1) && st.cur <= e < |s.src| && s.src[e] == EQUALS
    requires TokenStart(s.src, st.cur) == TokenStart(s.src, e)
    ensures ScanTok(s, st, keymode) == Ok((Plain(Equal, e, 1), st.(cur := e + 1))) && Ready(s, st.(cur := e + 1), 0)
  {
    hide ScanTok, TokenStart;
    TokAfter(s, st, e, keymode);
    PunctTok(s, st.(cur := e), keymode);
  }
}
