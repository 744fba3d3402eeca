/** Every date and time that is read is one that can be written. */
module AcceptedStamps {
  import opened Basics
  import opened Datum
  import opened Numbers
  import opened Stamps
  import opened StampTexts
  import opened Scanning
  import opened AcceptedStrings

  lemma {:induction false} PaddedNext(u: nat, d: nat, n: nat)
    requires d < 10 && n > 0
    ensures Padded(u * 10 + d, n) == Padded(u, n - 1) + [48 + d]
  {
    assert (u * 10 + d) / 10 == u && (u * 10 + d) % 10 == d;
  }

  lemma {:induction false} DigitsPadded(w: seq<byte>, i: nat, n: nat)
    requires i + n <= |w| && forall k :: i <= k < i + n ==> IsDigit(w[k])
    ensures Spans(w, i, i + n, Padded(ValueOf(w, i, i + n, 10), n)) && ValueOf(w, i, i + n, 10) < Pow10(n)
    decreases n
  {
    if n == 0 {
      SpansNothing(w, i);
    } else {
      DigitsPadded(w, i, n - 1);
      var u, c := ValueOf(w, i, i + n - 1, 10), w[i + n - 1];
      assert ValueOf(w, i, i + n, 10) == u * 10 + DigitValue(c);
      hide Padded, Spans, ValueOf;
      PaddedNext(u, DigitValue(c), n);
      SpansOne(w, i + n - 1, c);
      SpansJoin(w, i, i + n - 1, i + n, Padded(u, n - 1), [c]);
    }
  }

  /** A number of n digits is the text of its value. */
  lemma {:induction false} FieldText(w: seq<byte>, i: nat, n: nat)
    requires i <= |w| && n > 0 && Field(w, i, n).Some?
    ensures Spans(w, i, i + n, Padded(Field(w, i, n).value, n)) && Field(w, i, n).value < Pow10(n)
  {
    hide Padded, Pow10, ValueOf, Spans;
    var j := DigitsEnd(w, i);
    FieldEnds(w, i, n);
    DigitsPadded(w, i, n);
  }

  lemma {:induction false} FieldEnds(w: seq<byte>, i: nat, n: nat)
    requires i <= |w| && n > 0 && Field(w, i, n).Some?
    ensures i + n <= |w| && (forall k :: i <= k < i + n ==> IsDigit(w[k])) && Field(w, i, n) == Some(ValueOf(w, i, i + n, 10))
  {
    hide ValueOf;
  }

  lemma {:induction false} CharSpans(w: seq<byte>, i: nat, c: byte)
    requires Ch(w, i) == c && c != 0
    ensures Spans(w, i, i + 1, [c])
  {
    SpansOne(w, i, c);
  }

  lemma {:induction false} Small()
    ensures Pow10(2) == 100 && Pow10(4) == 10000
  {
    Powers();
  }

  // ---------- dates

  lemma {:induction false} DateFrom(w: seq<byte>)
    requires ReadDate(w).Some?
    ensures var d := ReadDate(w).value;
            && Spans(w, 0, 10, DateText(d.year, d.month, d.day))
            && d.year < 10000 && d.month < 100 && d.day < 100
  {
    hide Field, Padded, Pow10, Spans;
    Small();
    var d := ReadDate(w).value;
    FieldText(w, 0, 4);
    CharSpans(w, 4, 45);
    FieldText(w, 5, 2);
    CharSpans(w, 7, 45);
    FieldText(w, 8, 2);
    SpansJoin(w, 7, 8, 10, [45], Padded(d.day, 2));
    SpansJoin(w, 5, 7, 10, Padded(d.month, 2), [45] + Padded(d.day, 2));
    SpansJoin(w, 4, 5, 10, [45], Padded(d.month, 2) + ([45] + Padded(d.day, 2)));
    SpansJoin(w, 0, 4, 10, Padded(d.year, 4), [45] + (Padded(d.month, 2) + ([45] + Padded(d.day, 2))));
  }

  // ---------- times

  function DecimalsOf(w: seq<byte>, i: nat, j: nat): (ds: seq<Decimal>)
    requires i <= j <= |w| && forall k :: i <= k < j ==> IsDigit(w[k])
    ensures |ds| == j - i
  {
    if i == j then [] else DecimalsOf(w, i, j - 1) + [DecimalOf(w[j - 1])]
  }

  function DecimalOf(c: byte): Decimal
    requires IsDigit(c)
  {
    var v: nat := c;
    v - 48
  }

  lemma {:induction false} DecimalsText(w: seq<byte>, i: nat, j: nat)
    requires i <= j <= |w| && forall k :: i <= k < j ==> IsDigit(w[k])
    ensures Spans(w, i, j, DigitText(DecimalsOf(w, i, j)))
    decreases j - i
  {
    if i == j {
      SpansNothing(w, i);
    } else {
      DecimalsText(w, i, j - 1);
      var ds, d := DecimalsOf(w, i, j - 1), DecimalOf(w[j - 1]);
      assert DigitText(ds + [d]) == DigitText(ds) + [DigitChar(d)];
      SpansOne(w, j - 1, w[j - 1]);
      SpansJoin(w, i, j - 1, j, DigitText(ds), [w[j - 1]]);
    }
  }

  /** Hours and minutes, and what follows them. */
  lemma {:induction false} HoursSpan(w: seq<byte>, i: nat, h: nat, m: nat, n: nat, rest: seq<byte>)
    requires Spans(w, i, i + 2, Padded(h, 2)) && Spans(w, i + 2, i + 3, [58]) && Spans(w, i + 3, i + 5, Padded(m, 2))
    requires Spans(w, i + 5, n, rest)
    ensures Spans(w, i, n, Padded(h, 2) + ([58] + (Padded(m, 2) + rest)))
  {
    hide Spans, Padded;
    SpansJoin(w, i + 3, i + 5, n, Padded(m, 2), rest);
    SpansJoin(w, i + 2, i + 3, n, [58], Padded(m, 2) + rest);
    SpansJoin(w, i, i + 2, n, Padded(h, 2), [58] + (Padded(m, 2) + rest));
  }

  /** The seconds with their fraction, behind a colon. */
  lemma {:induction false} FractionSpans(w: seq<byte>, i: nat, s: nat, j: nat)
    requires Spans(w, i, i + 1, [58]) && Spans(w, i + 1, i + 3, Padded(s, 2)) && Spans(w, i + 3, i + 4, [46])
    requires i + 4 <= j <= |w| && forall k :: i + 4 <= k < j ==> IsDigit(w[k])
    ensures Spans(w, i, j, [58] + (Padded(s, 2) + ([46] + DigitText(DecimalsOf(w, i + 4, j)))))
  {
    hide Spans, Padded, DigitText, DecimalsOf;
    var t := DigitText(DecimalsOf(w, i + 4, j));
    DecimalsText(w, i + 4, j);
    SpansJoin(w, i + 3, i + 4, j, [46], t);
    SpansJoin(w, i + 1, i + 3, j, Padded(s, 2), [46] + t);
    SpansJoin(w, i, i + 1, j, [58], Padded(s, 2) + ([46] + t));
  }

  lemma {:induction false} TimeFrom(w: seq<byte>, i: nat) returns (c: ClockForm)
    requires i <= |w| && ReadTime(w, i).Some?
    ensures ClockFits(c) && (c.Fraction? ==> |c.digits| <= 6) && Spans(w, i, ReadTime(w, i).value.1, ClockText(c))
  {
    hide Field, Padded, Pow10, Spans, ValueOf, DigitText, DecimalsOf, FractionEnd;
    Small();
    var n := ReadTime(w, i).value.1;
    var h, m := Field(w, i, 2).value, Field(w, i + 3, 2).value;
    FieldText(w, i, 2);
    CharSpans(w, i + 2, 58);
    FieldText(w, i + 3, 2);
    if Ch(w, i + 5) != 58 {
      c := Minutes(h, m);
      SpansNothing(w, i + 5);
      HoursSpan(w, i, h, m, i + 5, []);
    } else {
      var s := Field(w, i + 6, 2).value;
      CharSpans(w, i + 5, 58);
      FieldText(w, i + 6, 2);
      if Ch(w, i + 8) != 46 {
        c := Seconds(h, m, s);
        SpansJoin(w, i + 5, i + 6, i + 8, [58], Padded(s, 2));
        HoursSpan(w, i, h, m, i + 8, [58] + Padded(s, 2));
      } else {
        CharSpans(w, i + 8, 46);
        FractionThere(w, i + 9);
        var ds := DecimalsOf(w, i + 9, n);
        c := Fraction(h, m, s, ds);
        FractionSpans(w, i + 5, s, n);
        HoursSpan(w, i, h, m, n, [58] + (Padded(s, 2) + ([46] + DigitText(ds))));
      }
    }
  }

  lemma {:induction false} FractionThere(w: seq<byte>, i: nat)
    requires i <= |w| && IsDigit(Ch(w, i))
    ensures i < FractionEnd(w, i)
  {}

  // ---------- offsets

  lemma {:induction false} ZoneFrom(w: seq<byte>, i: nat) returns (z: ZoneForm)
    requires i <= |w|
    ensures ZoneFits(z)
    ensures var r := ReadZone(w, i); Spans(w, i, if r.Some? then r.value.1 else i, ZoneText(z))
  {
    hide Field, Padded, Pow10, Spans;
    Small();
    var r := ReadZone(w, i);
    var c := Ch(w, i);
    if r.None? {
      z := Local;
      SpansNothing(w, i);
    } else if c == 90 || c == 122 {
      z := Zulu(c == 122);
      CharSpans(w, i, c);
    } else {
      var h, m := r.value.0.hour, r.value.0.minute;
      z := Numeric(c == 45, h, m);
      CharSpans(w, i, c);
      FieldText(w, i + 1, 2);
      CharSpans(w, i + 3, 58);
      FieldText(w, i + 4, 2);
      SpansJoin(w, i + 3, i + 4, i + 6, [58], Padded(m, 2));
      SpansJoin(w, i + 1, i + 3, i + 6, Padded(h, 2), [58] + Padded(m, 2));
      SpansJoin(w, i, i + 1, i + 6, [c], Padded(h, 2) + ([58] + Padded(m, 2)));
    }
  }

  // ---------- all of it

  lemma {:induction false} ClockFrom(w: seq<byte>) returns (x: StampForm)
    requires TimeOf(w).Ok?
    ensures StampOkForm(x) && Spans(w, 0, TimeOf(w).value.1, StampText(x))
  {
    hide ReadTime, ClockFits, ClockText, Spans;
    var c := TimeFrom(w, 0);
    x := OfTime(c);
  }

  lemma {:induction false} BothFrom(w: seq<byte>) returns (x: StampForm)
    requires ReadDate(w).Some? && TimeFollows(w) && ReadTime(w, 11).Some?
    ensures var i := ReadTime(w, 11).value.1;
            var r := ReadZone(w, i);
            StampOkForm(x) && Spans(w, 0, if r.Some? then r.value.1 else i, StampText(x))
  {
    hide ReadDate, ReadTime, ReadZone, ClockFits, ClockText, DateText, ZoneText, Spans;
    var d := ReadDate(w).value;
    var i := ReadTime(w, 11).value.1;
    var r := ReadZone(w, i);
    var n := if r.Some? then r.value.1 else i;
    DateFrom(w);
    SeparatorThere(w);
    var c := TimeFrom(w, 11);
    var z := ZoneFrom(w, i);
    x := OfBoth(d.year, d.month, d.day, w[10], c, z);
    SpansOne(w, 10, w[10]);
    SpansJoin(w, 11, i, n, ClockText(c), ZoneText(z));
    SpansJoin(w, 10, 11, n, [w[10]], ClockText(c) + ZoneText(z));
    SpansJoin(w, 0, 10, n, DateText(d.year, d.month, d.day), [w[10]] + (ClockText(c) + ZoneText(z)));
  }

  lemma {:induction false} SeparatorThere(w: seq<byte>)
    requires TimeFollows(w)
    ensures 11 <= |w| && w[10] in {84, 116, 32}
  {}

  lemma {:induction false} StampFrom(w: seq<byte>) returns (x: StampForm)
    requires StampOf(w).Ok?
    ensures StampOkForm(x) && Spans(w, 0, StampOf(w).value.1, StampText(x))
  {
    hide ReadDate, ReadTime, ReadZone, TimeFollows, StampText, StampOkForm, IsDay, IsClock, TimeOf, Spans;
    StampBranches(w);
    if IsDigit(Ch(w, 0)) && IsDigit(Ch(w, 1)) && Ch(w, 2) == 58 {
      x := ClockFrom(w);
    } else if !TimeFollows(w) {
      DateFrom(w);
      var d := ReadDate(w).value;
      x := OfDate(d.year, d.month, d.day);
      DateIsForm(w, d);
    } else {
      x := BothFrom(w);
    }
  }

  lemma {:induction false} DateIsForm(w: seq<byte>, d: Day)
    requires Spans(w, 0, 10, DateText(d.year, d.month, d.day)) && d.year < 10000 && d.month < 100 && d.day < 100
    ensures var x := OfDate(d.year, d.month, d.day); StampOkForm(x) && Spans(w, 0, 10, StampText(x))
  {
    hide DateText;
  }

  lemma {:induction false} StampBranches(w: seq<byte>)
    requires StampOf(w).Ok?
    ensures var n := StampOf(w).value.1;
            if IsDigit(Ch(w, 0)) && IsDigit(Ch(w, 1)) && Ch(w, 2) == 58 then TimeOf(w).Ok? && n == TimeOf(w).value.1
            else
              ReadDate(w).Some? &&
              if !TimeFollows(w) then n == 10
              else
                ReadTime(w, 11).Some? &&
                var i := ReadTime(w, 11).value.1;
                n == if ReadZone(w, i).Some? then ReadZone(w, i).value.1 else i
  {
    hide ReadDate, ReadTime, ReadZone, TimeFollows, IsDay, IsClock, TimeOf, Offset, IsOffset;
  }

  lemma {:induction false} InWindow(src: seq<byte>, p: nat, k: nat, n: nat, t: seq<byte>)
    requires p <= |src| && Spans(Window(src, p, k), 0, n, t)
    ensures Spans(src, p, p + n, t)
  {
    assert src[p..p + n] == Window(src, p, k)[..n];
  }

  /** What scan_time and scan_timestamp read is a date or time that can be written. */
  lemma {:induction false} StampWritten(src: seq<byte>, p: nat) returns (x: StampForm)
    requires p <= |src| && ScanStamp(src, p).Ok?
    ensures StampOkForm(x) && Spans(src, p, p + ScanStamp(src, p).value.1, StampText(x))
  {
    hide StampText, StampOkForm, TimeOf, StampOf, Window, Spans, LooksLikeTime;
    if LooksLikeTime(src, p) {
      x := ClockFrom(Window(src, p, TIME_WINDOW));
      InWindow(src, p, TIME_WINDOW, ScanStamp(src, p).value.1, StampText(x));
    } else {
      x := StampFrom(Window(src, p, STAMP_WINDOW));
      InWindow(src, p, STAMP_WINDOW, ScanStamp(src, p).value.1, StampText(x));
    }
  }
}
