/** Six digits of a fraction of a second are read, and no more: a seventh refuses the document. */
module FractionLimits {
  import opened Basics
  import opened Datum
  import opened Numbers
  import opened Stamps
  import opened Layouts
  import opened StampTexts
  import opened StampReaders
  import opened Scanning
  import opened Parsing
  import opened ReadingStamps
  import opened Printing
  import opened Meanings
  import opened NumberWindows

  /** A time with a fraction of more than six digits stands at i. */
  predicate LongFraction(u: seq<byte>, i: nat) {
    && i + 16 <= |u| && IsDigit(u[i]) && IsDigit(u[i + 1]) && u[i + 2] == 58 && u[i + 5] == 58 && u[i + 8] == 46
    && forall k :: i + 9 <= k < i + 16 ==> IsDigit(u[k])
  }

  /** Alone, or behind a date. */
  predicate LongStamp(u: seq<byte>, i: nat) {
    LongFraction(u, i) || (LooksLikeDate(u, i) && i + 10 < |u| && u[i + 10] in {84, 116, 32} && LongFraction(u, i + 11))
  }

  lemma {:induction false} FractionCut(w: seq<byte>, i: nat)
    requires LongFraction(w, i)
    ensures ReadTime(w, i).Some? ==> ReadTime(w, i).value.1 == i + 15
  {
    hide Field, ValueOf;
    DigitsEndIs(w, i + 9, i + 16);
  }

  lemma {:induction false} TimeCut(w: seq<byte>)
    requires LongFraction(w, 0)
    ensures TimeOf(w).Ok? ==> TimeOf(w).value.1 == 15
  {
    hide ReadTime;
    FractionCut(w, 0);
  }

  lemma {:induction false} DateTimeCut(w: seq<byte>)
    requires LooksLikeDate(w, 0) && 10 < |w| && w[10] in {84, 116, 32} && LongFraction(w, 11)
    ensures StampOf(w).Ok? ==> StampOf(w).value.1 == 26
  {
    hide ReadTime, ReadDate, Field;
    FractionCut(w, 11);
  }

  lemma {:induction false} StampCut(src: seq<byte>, p: nat)
    requires LongStamp(src, p)
    ensures LooksLikeStamp(src, p)
    ensures ScanStamp(src, p).Ok? ==>
              var n := ScanStamp(src, p).value.1; p + n < |src| && IsDigit(src[p + n])
  {
    hide TimeOf, StampOf;
    var long := LongFraction(src, p);
    var w := Window(src, p, if long then TIME_WINDOW else STAMP_WINDOW);
    assert forall k :: 0 <= k < |w| ==> w[k] == src[p + k];
    if long {
      assert LongFraction(w, 0);
      TimeCut(w);
    } else {
      assert LongFraction(w, 11);
      DateTimeCut(w);
    }
  }

  lemma {:induction false} StampDispatch(s: Input, p: nat)
    requires p < |s.src| && IsDigit(s.src[p]) && LooksLikeStamp(s.src, p)
    ensures TokenStart(s.src, p) == Ok(p)
    ensures ScanAt(s, p, false) ==
            var r := ScanStamp(s.src, p);
            if r.Err? then Err(r.error)
            else Ok((Token(Value, p, r.value.1, None, r.value.0), p + r.value.1))
  {
    hide ScanStamp, ScanString, ScanLitString, ScanBool, ScanNumber, LooksLikeTime, LooksLikeDate;
    assert ScanAt(s, p, false) == ScanValue(s, p);
  }

  lemma {:induction false} LongStampCut(s: Input, st: State)
    requires LongStamp(s.src, st.cur)
    ensures CutShort(s, st)
  {
    hide ScanStamp, ScanAt, TokenStart, LooksLikeStamp, IsNumberChar, LongStamp;
    StampCut(s.src, st.cur);
    FirstDigit(s.src, st.cur);
    StampDispatch(s, st.cur);
    DigitInNumbers();
  }

  lemma {:induction false} FirstDigit(u: seq<byte>, i: nat)
    requires LongStamp(u, i)
    ensures i < |u| && IsDigit(u[i])
  {}

  lemma {:induction false} DigitInNumbers()
    ensures forall c: int :: IsDigit(c) ==> IsNumberChar(c)
  {}

  // ---------- on text

  lemma {:induction false} LongClock(u: seq<byte>, i: nat, c: ClockForm)
    requires ClockFits(c) && c.Fraction? && |c.digits| > 6 && Stands(u, i, ClockText(c))
    ensures LongFraction(u, i)
  {
    hide Stands, Padded, Field, ClockText, SecondsText;
    StandsLength(u, i, ClockText(c));
    ClockStarts(u, i, c);
    SecondsStand(u, i + 6, c);
    assert i + 2 < |u| && i + 5 < |u|;
  }

  lemma {:induction false} SecondsStand(u: seq<byte>, i: nat, c: ClockForm)
    requires ClockFits(c) && c.Fraction? && |c.digits| > 6 && Stands(u, i, SecondsText(c))
    ensures i + 10 <= |u| && Ch(u, i + 2) == u[i + 2] == 46 && forall k :: i + 3 <= k < i + 10 ==> IsDigit(u[k])
  {
    hide Stands, Padded, Field, DigitText;
    SecondsBack(u, i, c);
    DigitTextDigits(c.digits);
    StandsLength(u, i + 3, DigitText(c.digits));
    DigitsStand(u, i + 3, DigitText(c.digits));
  }

  lemma {:induction false} LongForm(u: seq<byte>, x: StampForm)
    requires StampFits(x) && !IsShort(x) && Stands(u, 0, StampText(x))
    ensures LongStamp(u, 0)
  {
    hide Stands, DateText, ClockText, ZoneText, LongFraction, ClockFits;
    if x.OfTime? {
      LongClock(u, 0, x.clock);
    } else {
      Split(u, 0, DateText(x.year, x.month, x.day), x.sep, ClockText(x.clock) + ZoneText(x.zone));
      StandsTwo(u, 11, ClockText(x.clock), ZoneText(x.zone));
      DateBack(u, 0, x.year, x.month, x.day);
      LongClock(u, 11, x.clock);
    }
  }

  lemma {:induction false} LongBehind(src: seq<byte>, i: nat, u: seq<byte>)
    requires i + |u| == |src| && (forall j :: 0 <= j < |u| ==> src[i + j] == u[j]) && LongStamp(u, 0)
    ensures LongStamp(src, i)
  {
    if LongFraction(u, 0) {
      FractionBehind(src, i, u, 0);
    } else {
      FractionBehind(src, i, u, 11);
    }
  }

  lemma {:induction false} FractionBehind(src: seq<byte>, i: nat, u: seq<byte>, d: nat)
    requires i + |u| == |src| && (forall j :: 0 <= j < |u| ==> src[i + j] == u[j]) && LongFraction(u, d)
    ensures LongFraction(src, i + d)
  {
    forall k | i + d + 9 <= k < i + d + 16 ensures IsDigit(src[k]) {
      assert src[k] == u[k - i];
    }
  }

  /** Behind any lines, with any key, whatever follows and whether the rest of the date and time
      is good or not. */
  lemma {:induction false} LongFractionRefused(s: Input, rows: seq<Row>, key: Key, gap: seq<byte>, x: StampForm, rest: seq<byte>)
    requires StampFits(x) && !IsShort(x) && Leads(s, rows, key, gap, StampText(x) + rest)
    ensures TomlParse(s).Err?
  {
    hide TomlParse, Leads, LongStamp, CutShort, StampText, Stands, StampFits, IsShort;
    var u := StampText(x) + rest;
    TextStands(u);
    StandsTwo(u, 0, StampText(x), rest);
    LongForm(u, x);
    forall st: State | Inside(s, st) && st.cur + |u| == |s.src| && Stands(s.src, st.cur, u) ensures CutShort(s, st) {
      TextHere(s.src, st.cur, u);
      LongBehind(s.src, st.cur, u);
      LongStampCut(s, st);
    }
    CutRefused(s, rows, key, gap, u);
  }

  lemma {:induction false} TextStands(u: seq<byte>)
    ensures Stands(u, 0, u)
  {
    StandsCut(u, 0, |u|);
    assert u[0..|u|] == u;
  }

  /** A date and time that there is, alone or not, with any separator and any offset, is accepted
      exactly when a fraction of its seconds has six digits at most; longer ones are not cut off,
      they refuse the document. */
  lemma {:induction false} FractionExactly(s: Input, rows: seq<Row>, key: Key, gap: seq<byte>, x: StampForm, tail: Tail)
    requires LastKeyValue(s, rows, key, gap, VStamp(x), tail) && StampFits(x) && StampMeaning(x).Ok?
    ensures TomlParse(s).Ok? <==> IsShort(x)
  {
    hide TomlParse, LastKeyValue, StampMeaning, HeadersOf, LinesOf, Leads, IsShort, StampFits, StampText;
    if IsShort(x) {
      LastIsRead(s, rows, key, gap, VStamp(x), tail);
    } else {
      LastLeads(s, rows, key, gap, VStamp(x), tail);
      LongFractionRefused(s, rows, key, gap, x, TailText(tail));
    }
  }
}
