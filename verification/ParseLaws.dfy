/** What every step of the parser keeps: the pool stays ahead of no input, the nesting
    counters come back, and no refusal is the code's own fault. */
module ParseLaws {
  import opened Basics
  import opened Datum
  import opened Numbers
  import opened Stamps
  import opened Scanning
  import opened Unescaping
  import opened Trees
  import opened Documents
  import opened DocumentLaws
  import opened Parsing

  /** A refusal that is about the document: not an exhausted pool, and none of the branches
      the code calls internal or guards with an assertion. */
  predicate IsLegit(e: Error) { e != OutOfMemory && e != Internal }

  function BracketOf(t: TokTyp): int { if t == LBrack then 1 else if t == RBrack then -1 else 0 }

  function BraceOf(t: TokTyp): int { if t == LBrace then 1 else if t == RBrace then -1 else 0 }

  /** Inside the text, with the nesting counters within their limits. */
  ghost predicate Level(s: Input, st: State) {
    Inside(s, st) && st.bracket <= LEVEL_MAX && st.brace <= LEVEL_MAX
  }

  /** No more pool has been handed out than input consumed; slack is 1 right after a bare key. */
  ghost predicate Ready(s: Input, st: State, slack: nat) {
    Level(s, st) && st.top <= st.cur + slack
  }

  ghost predicate Scanned(s: Input, before: State, keymode: bool, t: Token, after: State) {
    && Level(s, before) && Level(s, after)
    && ScanTok(s, before, keymode) == Ok((t, after))
    && Lies(s.src, before.cur, t, after.cur) && after.top == before.top
    && after.bracket == before.bracket + BracketOf(t.typ)
    && after.brace == before.brace + BraceOf(t.typ)
    && (IsEscaped(t.typ) ==> Unescape(TokText(s, t), 0) != Err(Internal))
  }

  lemma EscapedTokens(s: Input, i: nat, keymode: bool)
    requires i <= |s.src|
    ensures var r := ScanNext(s, i, keymode);
            r.Ok? && IsEscaped(r.value.0.typ) ==>
              Unescape(TokText(s, r.value.0), 0) != Err(Internal)
  {
    hide Unescape, ScanString, ScanLitString, ScanValue, TokenStart;
    if ScanNext(s, i, keymode).Ok? && IsEscaped(ScanNext(s, i, keymode).value.0.typ) {
      var p := TokenStart(s.src, i).value;
      EscapedAt(s, p, keymode);
    }
  }

  lemma EscapedAt(s: Input, p: nat, keymode: bool)
    requires p <= |s.src| && ScanAt(s, p, keymode).Ok? && IsEscaped(ScanAt(s, p, keymode).value.0.typ)
    ensures Unescape(TokText(s, ScanAt(s, p, keymode).value.0), 0) != Err(Internal)
  {
    hide Unescape, ScanString, ScanLitString, ScanValue;
    assert GetChar(s.src, p) == QUOTE && ScanAt(s, p, keymode) == ScanString(s.src, p);
    TokenUnescapes(s.src, p);
  }

  lemma ScanErrors(s: Input, i: nat, keymode: bool)
    requires i <= |s.src|
    ensures ScanNext(s, i, keymode).Err? ==> ScanNext(s, i, keymode).error == Lexical
  {
    hide StringEnd, MlStringEnd, LitStringEnd, MlLitStringEnd;
    TokenStartErrors(s.src, i);
    hide TokenStart;
    if TokenStart(s.src, i).Ok? {
      ScanAtErrors(s, TokenStart(s.src, i).value, keymode);
    }
  }

  lemma {:induction false} TokenStartErrors(src: seq<byte>, i: nat)
    requires i <= |src|
    ensures TokenStart(src, i).Err? ==> TokenStart(src, i).error == Lexical
    decreases |src| - i
  {
    var c := GetChar(src, i);
    if c == SPACE || c == TAB {
      TokenStartErrors(src, i + 1);
    } else if c == 35 {
      CommentErrors(src, i + 1);
      if CommentEnd(src, i + 1).Ok? {
        TokenStartErrors(src, CommentEnd(src, i + 1).value);
      }
    }
  }

  lemma {:induction false} CommentErrors(src: seq<byte>, i: nat)
    requires i <= |src|
    ensures CommentEnd(src, i).Err? ==> CommentEnd(src, i).error == Lexical
    decreases |src| - i
  {
    if i < |src| {
      CommentErrors(src, i + GetLen(src, i));
    }
  }

  lemma {:induction false} ScanAtErrors(s: Input, p: nat, keymode: bool)
    requires p <= |s.src|
    ensures ScanAt(s, p, keymode).Err? ==> ScanAt(s, p, keymode).error == Lexical
  {
    hide ScanString, ScanLitString, ScalarAt;
    StringErrors(s.src, p);
    ScalarErrors(s, p);
  }

  lemma {:induction false} StringErrors(src: seq<byte>, p: nat)
    requires p <= |src|
    ensures GetChar(src, p) == QUOTE ==> ScanString(src, p).Ok? || ScanString(src, p).error == Lexical
    ensures GetChar(src, p) == APOSTROPHE ==> ScanLitString(src, p).Ok? || ScanLitString(src, p).error == Lexical
  {
    hide StringEnd, MlStringEnd, LitStringEnd, MlLitStringEnd, MatchN;
  }

  lemma {:induction false} ScalarErrors(s: Input, p: nat)
    requires p <= |s.src|
    ensures ScalarAt(s, p).Err? ==> ScalarAt(s, p).error == Lexical
  {
    hide Window, ReadTime, ReadDate, ReadZone, NumberOf;
    NumberErrors(s, Window(s.src, p, NUMBER_WINDOW));
  }

  lemma {:induction false} NumberErrors(s: Input, w: seq<byte>)
    ensures NumberOf(s, w).Err? ==> NumberOf(s, w).error == Lexical
  {
    hide StrToLL, Span, FloatLen, Radix, Squeezed, UnderscoresOk, PointsOk, LeadingOk, Lowered;
  }

  /** What one call of scan_key or scan_value does. */
  lemma ScanTokGood(s: Input, st: State, keymode: bool)
    requires Level(s, st)
    ensures var r := ScanTok(s, st, keymode);
            if r.Ok? then Scanned(s, st, keymode, r.value.0, r.value.1) else IsLegit(r.error)
  {
    hide ScanNext, Unescape, TokText, Lies;
    TokenLies(s, st.cur, keymode);
    EscapedTokens(s, st.cur, keymode);
    ScanErrors(s, st.cur, keymode);
  }

  /** The characters of a token never need more pool than is left. */
  lemma NormGood(s: Input, before: State, keymode: bool, t: Token, st: State)
    requires Scanned(s, before, keymode, t, st) && Ready(s, before, 0) && IsText(t.typ)
    ensures var r := Norm(s, st, t);
            if r.Ok? then r.value.1 == st.(top := st.top + t.len + 1) && |r.value.0| <= t.len
            else r.error == BadUnicode
    ensures st.top + t.len + 1 <= st.cur + if t.typ == Lit then 1 else 0
  {
    hide ScanTok, Unescape;
    assert |TokText(s, t)| == t.len;
  }

  // ---------- keys

  /** What stands next when a key has been read. The code has looked at it once already, and
      the nesting counters remember that. */
  ghost predicate KeyGood(s: Input, st: State, r: Result<(seq<Text>, State)>) {
    match r
    case Err(e) => IsLegit(e)
    case Ok((keys, st')) =>
      && Ready(s, st', 1) && keys != [] && st.top <= st'.top
      && ScanNext(s, st'.cur, true).Ok?
      && st'.bracket == st.bracket + BracketOf(ScanNext(s, st'.cur, true).value.0.typ)
      && st'.brace == st.brace + BraceOf(ScanNext(s, st'.cur, true).value.0.typ)
  }

  lemma {:induction false} KeyRestGood(s: Input, st: State, keys: seq<Text>)
    requires Ready(s, st, 1) && keys != []
    ensures KeyGood(s, st, KeyRest(s, st, keys))
    decreases |s.src| - st.cur, 0
  {
    hide ScanTok, ScanNext, Norm, Unescape, TokText;
    ScanTokGood(s, st, true);
    if ScanTok(s, st, true).Ok? {
      var (dot, st1) := ScanTok(s, st, true).value;
      if dot.typ != Dot {
        LookedAt(s, st, dot, st1);
      } else {
        ScanTokGood(s, st1, true);
        KeyPartGood(s, st, keys, st1);
      }
    }
  }

  lemma LookedAt(s: Input, st: State, t: Token, st1: State)
    requires Ready(s, st, 1) && Scanned(s, st, true, t, st1)
    ensures var st' := Restored(st, st1);
            && Ready(s, st', 1)
            && ScanNext(s, st'.cur, true).Ok? && ScanNext(s, st'.cur, true).value.0 == t
            && st'.bracket == st.bracket + BracketOf(t.typ) && st'.brace == st.brace + BraceOf(t.typ)
  {
    hide ScanNext, Unescape, TokText;
  }

  lemma {:induction false} KeyPartGood(s: Input, st: State, keys: seq<Text>, st1: State)
    requires Ready(s, st, 1) && keys != [] && Ready(s, st1, 0) && st.cur < st1.cur
    requires ScanTok(s, st, true).Ok? && ScanTok(s, st, true).value.1 == st1
    requires ScanTok(s, st, true).value.0.typ == Dot
    requires st1.bracket == st.bracket && st1.brace == st.brace
    requires var r := ScanTok(s, st1, true);
             if r.Ok? then Scanned(s, st1, true, r.value.0, r.value.1) else IsLegit(r.error)
    ensures KeyGood(s, st, KeyRest(s, st, keys))
    decreases |s.src| - st1.cur, 1
  {
    hide ScanTok, ScanNext, Norm, Unescape, TokText;
    if ScanTok(s, st1, true).Ok? {
      var (t, st2) := ScanTok(s, st1, true).value;
      if IsKeyTok(t.typ) {
        NormGood(s, st1, true, t, st2);
        if |keys| < KEYPART_MAX && Norm(s, st2, t).Ok? {
          var (k, st3) := Norm(s, st2, t).value;
          KeyRestGood(s, st3, keys + [k]);
        }
      }
    }
  }

  /** parse_key, on a token scanned from before. */
  lemma ParseKeyGood(s: Input, before: State, t: Token, st: State)
    requires Ready(s, before, 0) && Scanned(s, before, true, t, st)
    ensures KeyGood(s, st, ParseKey(s, st, t))
    ensures ParseKey(s, st, t).Ok? ==> IsKeyTok(t.typ)
  {
    hide ScanTok, ScanNext, Norm, Unescape, TokText, KeyRest;
    if IsKeyTok(t.typ) {
      NormGood(s, before, true, t, st);
      if Norm(s, st, t).Ok? {
        var (k, st') := Norm(s, st, t).value;
        KeyRestGood(s, st', [k]);
      }
    }
  }

  /** An equals sign is the same token in both modes. */
  lemma EqualInBothModes(s: Input, i: nat)
    requires i <= |s.src|
    ensures var r := ScanNext(s, i, false);
            r.Ok? && r.value.0.typ == Equal ==> ScanNext(s, i, true) == r
  {
    hide ScanString, ScanLitString, ScanValue, TokenStart;
  }

  // ---------- trees that are being built

  lemma WalkStepLegit(d: Datum, p: Path, k: Text, w: Walker, i: nat)
    requires IsTableAt(d, p)
    ensures WalkStep(d, p, k, w, i).Err? ==> IsLegit(WalkStep(d, p, k, w, i).error)
  {
    hide Put;
  }

  lemma {:induction false} WalkLegit(d: Datum, p: Path, keys: seq<Text>, w: Walker, i: nat)
    requires WellFormed(d) && IsTableAt(d, p)
    ensures var r := Walk(d, p, keys, w, i);
            if r.Ok? then Prepared(d, r.value.0, r.value.1) else IsLegit(r.error)
    decreases |keys|
  {
    hide WalkStep, OnlyAt, Reached, WellFormed, Grows, SameLeaves, StrBytes;
    if keys == [] {
      PreparedSelf(d, p);
    } else {
      WalkStepLegit(d, p, keys[0], w, i);
      if WalkStep(d, p, keys[0], w, i).Ok? {
        WalkStepEffect(d, p, keys[0], w, i);
        var (d', p') := WalkStep(d, p, keys[0], w, i).value;
        WalkLegit(d', p', keys[1..], w, i + 1);
        if Walk(d', p', keys[1..], w, i + 1).Ok? {
          var (r, q) := Walk(d', p', keys[1..], w, i + 1).value;
          PreparedTrans(d, d', p', r, q);
        }
      }
    }
  }

  lemma EnterInlineGood(tab: Datum, keys: seq<Text>)
    requires WellFormed(tab) && tab.Table? && keys != []
    ensures var r := EnterInline(tab, keys);
            if r.Ok? then Prepared(tab, r.value.0, r.value.1) && r.value.0.Table? else IsLegit(r.error)
  {
    hide WellFormed, Grows, SameLeaves, StrBytes, Put, Walk;
    assert IsTableAt(tab, []);
    WalkLegit(tab, [], keys[..|keys| - 1], InlineKey, 0);
    if Walk(tab, [], keys[..|keys| - 1], InlineKey, 0).Ok? {
      var (d, p) := Walk(tab, [], keys[..|keys| - 1], InlineKey, 0).value;
      SetExplicitKeeps(d, p);
      AddedChain(tab, d, p, SetExplicit(d, p), p);
    }
  }

  lemma TabAddGood(d: Datum, p: Path, k: Text, v: Datum)
    requires WellFormed(d) && WellFormed(v) && IsTableAt(d, p) && d.Table?
    ensures var r := TabAdd(d, p, k, v);
            if r.Ok? then WellFormed(r.value) && r.value.Table? && StrBytes(r.value) == StrBytes(d) + StrBytes(v)
            else IsLegit(r.error)
  {
    hide WellFormed, Grows, LeavesPlus, StrBytes, Put;
    if TabAdd(d, p, k, v).Ok? {
      TabAddEffect(d, p, k, v);
      RootGrows(d, TabAdd(d, p, k, v).value);
    }
  }

  lemma {:induction false} InlineGood(d: Datum)
    requires WellFormed(d)
    ensures WellFormed(Inline(d)) && StrBytes(Inline(d)) == StrBytes(d)
    decreases d, 0, 0
  {
    match d
    case Leaf(_, _) =>
    case Array(_, xs) =>
      forall i | 0 <= i < |xs| ensures WellFormed(Inline(xs[i])) { InlineGood(xs[i]); }
      InlineElemBytes(xs, |xs|);
    case Table(_, es) =>
      forall i | 0 <= i < |es| ensures WellFormed(Inline(es[i].val)) { InlineGood(es[i].val); }
      InlineEntryBytes(es, |es|);
  }

  lemma {:induction false} InlineElemBytes(xs: seq<Datum>, n: nat)
    requires n <= |xs| && forall i :: 0 <= i < |xs| ==> WellFormed(xs[i])
    ensures ElemBytes(InlineElems(xs), n) == ElemBytes(xs, n)
    decreases xs, 1, n
  {
    if n > 0 {
      InlineElemBytes(xs, n - 1);
      InlineGood(xs[n - 1]);
    }
  }

  lemma {:induction false} InlineEntryBytes(es: seq<Entry>, n: nat)
    requires n <= |es| && forall i :: 0 <= i < |es| ==> WellFormed(es[i].val)
    ensures EntryBytes(InlineEntries(es), n) == EntryBytes(es, n)
    decreases es, 1, n
  {
    if n > 0 {
      InlineEntryBytes(es, n - 1);
      InlineGood(es[n - 1].val);
    }
  }
}
