/** Dates and times are read back from their text, and only they can be read. */
module ReadingStamps {
  import opened Basics
  import opened Datum
  import opened Numbers
  import opened Stamps
  import opened StampTexts
  import opened StampReaders
  import opened Scanning
  import opened Layouts

  lemma {:induction false} PaddedSpelled(w: seq<byte>, i: nat, n: nat, k: nat)
    requires Stands(w, i, Padded(n, k)) && n < Pow10(k)
    ensures (forall x :: i <= x < i + k ==> IsDigit(w[x])) && ValueOf(w, i, i + k, 10) == n
    decreases k
  {
    if k > 0 {
      var t := Padded(n / 10, k - 1);
      StandsTwo(w, i, t, [48 + n % 10]);
      StandsOne(w, i + k - 1, 48 + n % 10);
      PaddedSpelled(w, i, n / 10, k - 1);
    }
  }

  lemma {:induction false} SmallPower(k: nat)
    requires k <= 6
    ensures Pow10(k) <= INT32_MAX
  {
    Powers();
  }

  lemma {:induction false} FieldBack(w: seq<byte>, i: nat, n: nat, k: nat)
    requires Stands(w, i, Padded(n, k)) && n < Pow10(k) && k <= 6 && !IsDigit(Ch(w, i + k))
    ensures Field(w, i, k) == Some(n)
  {
    hide ValueOf, Padded, Stands;
    PaddedSpelled(w, i, n, k);
    StandsLength(w, i, Padded(n, k));
    DigitsEndIs(w, i, i + k);
    SmallPower(k);
  }

  /** A text and a character behind it. */
  lemma {:induction false} Split(w: seq<byte>, i: nat, t: seq<byte>, c: byte, r: seq<byte>)
    requires Stands(w, i, t + ([c] + r))
    ensures Stands(w, i, t) && i + |t| < |w| && Ch(w, i + |t|) == w[i + |t|] == c && Stands(w, i + |t| + 1, r)
  {
    hide Stands;
    StandsTwo(w, i, t, [c] + r);
    StandsTwo(w, i + |t|, [c], r);
    StandsOne(w, i + |t|, c);
  }

  lemma {:induction false} SmallPowers()
    ensures Pow10(2) == 100 && Pow10(4) == 10000
  {
    Powers();
  }

  lemma {:induction false} DateBack(w: seq<byte>, i: nat, y: nat, m: nat, d: nat)
    requires Stands(w, i, DateText(y, m, d)) && y < 10000 && m < 100 && d < 100
    ensures i + 10 <= |w| && IsDigit(w[i]) && IsDigit(w[i + 1]) && IsDigit(w[i + 2]) && IsDigit(w[i + 3]) && w[i + 4] == 45
    ensures i == 0 && !IsDigit(Ch(w, 10)) ==> ReadDate(w) == Some(Day(y, m, d))
  {
    StandsLength(w, i, DateText(y, m, d));
    hide Stands, Padded, Field, Pow10;
    var mt, dt := Padded(m, 2), Padded(d, 2);
    Split(w, i, Padded(y, 4), 45, mt + ([45] + dt));
    Split(w, i + 5, mt, 45, dt);
    DigitsStand(w, i, Padded(y, 4));
    if i == 0 && !IsDigit(Ch(w, 10)) {
      DateFields(w, y, m, d);
    }
  }

  lemma {:induction false} DateFields(w: seq<byte>, y: nat, m: nat, d: nat)
    requires y < 10000 && m < 100 && d < 100 && Stands(w, 0, Padded(y, 4)) && Ch(w, 4) == 45
    requires Stands(w, 5, Padded(m, 2)) && Ch(w, 7) == 45 && Stands(w, 8, Padded(d, 2)) && !IsDigit(Ch(w, 10))
    ensures ReadDate(w) == Some(Day(y, m, d))
  {
    hide Stands, Padded, Field, Pow10;
    StandsLength(w, 8, Padded(d, 2));
    SmallPowers();
    FieldBack(w, 0, y, 4);
    FieldBack(w, 5, m, 2);
    FieldBack(w, 8, d, 2);
  }

  lemma {:induction false} DigitsStand(w: seq<byte>, i: nat, ds: seq<byte>)
    requires Stands(w, i, ds) && forall k :: 0 <= k < |ds| ==> IsDigit(ds[k])
    ensures i + |ds| <= |w| && forall k :: i <= k < i + |ds| ==> IsDigit(w[k])
  {
    forall k | i <= k < i + |ds| ensures IsDigit(w[k]) {
      SliceAt(w, i, ds, k - i);
    }
  }

  lemma {:induction false} SpelledBack(w: seq<byte>, i: nat, ds: seq<Decimal>)
    requires Stands(w, i, DigitText(ds))
    ensures i + |ds| <= |w| && ValueOf(w, i, i + |ds|, 10) == Spelled(ds)
    decreases |ds|
  {
    StandsLength(w, i, DigitText(ds));
    if ds != [] {
      var init, last := ds[..|ds| - 1], ds[|ds| - 1];
      var c := DigitChar(last);
      assert DigitText(ds) == DigitText(init) + [c];
      hide DigitText;
      StandsTwo(w, i, DigitText(init), [c]);
      StandsOne(w, i + |ds| - 1, c);
      hide Stands;
      SpelledBack(w, i, init);
    }
  }

  lemma {:induction false} DigitTextDigits(ds: seq<Decimal>)
    ensures forall k :: 0 <= k < |ds| ==> IsDigit(DigitText(ds)[k])
  {
  }

  /** The fraction of a second, of which no more than six digits are read. */
  lemma {:induction false} FractionBack(w: seq<byte>, i: nat, ds: seq<Decimal>)
    requires Stands(w, i, DigitText(ds)) && ds != [] && |ds| <= 6
    requires !IsDigit(Ch(w, i + |ds|))
    ensures i + |ds| <= |w| && IsDigit(Ch(w, i)) && FractionEnd(w, i) == i + |ds|
    ensures ValueOf(w, i, i + |ds|, 10) == Spelled(ds)
  {
    SpelledBack(w, i, ds);
    DigitTextDigits(ds);
    hide DigitText, ValueOf, Spelled;
    DigitsStand(w, i, DigitText(ds));
    DigitsEndIs(w, i, i + |ds|);
  }

  /** What does not continue a time. */
  predicate ClockStops(c: int) { !IsDigit(c) && c != 58 && c != 46 }

  /** What ReadTime makes of the form. */
  function ClockOf(c: ClockForm): Clock { Clock(c.hour, c.minute, SecondOf(c), UsecOf(c)) }

  /** What stands behind hours and minutes. */
  function ClockRest(c: ClockForm): seq<byte> {
    if c.Minutes? then [] else [58] + SecondsText(c)
  }

  function SecondsText(c: ClockForm): seq<byte>
    requires !c.Minutes?
  {
    Padded(c.second, 2) + if c.Seconds? then [] else [46] + DigitText(c.digits)
  }

  lemma {:induction false} ClockParts(c: ClockForm)
    ensures ClockText(c) == Padded(c.hour, 2) + ([58] + (Padded(c.minute, 2) + ClockRest(c)))
    ensures |ClockText(c)| == 5 + |ClockRest(c)|
  {
    if c.Seconds? {
      assert Padded(c.second, 2) + [] == Padded(c.second, 2);
    }
  }

  /** Hours and minutes, and where the rest stands. */
  lemma {:induction false} ClockStarts(w: seq<byte>, i: nat, c: ClockForm)
    requires ClockFits(c) && Stands(w, i, ClockText(c)) && (c.Minutes? ==> !IsDigit(Ch(w, i + 5)))
    ensures i + |ClockText(c)| <= |w| && i + 5 <= |w| && IsDigit(w[i]) && IsDigit(w[i + 1]) && Ch(w, i + 2) == 58
    ensures Field(w, i, 2) == Some(c.hour) && Field(w, i + 3, 2) == Some(c.minute)
    ensures !c.Minutes? ==> Ch(w, i + 5) == 58 && Stands(w, i + 6, SecondsText(c))
  {
    hide Stands, Padded, Field, Pow10, ClockText, SecondsText;
    StandsLength(w, i, ClockText(c));
    ClockParts(c);
    SmallPowers();
    Split(w, i, Padded(c.hour, 2), 58, Padded(c.minute, 2) + ClockRest(c));
    DigitsStand(w, i, Padded(c.hour, 2));
    StandsTwo(w, i + 3, Padded(c.minute, 2), ClockRest(c));
    if !c.Minutes? {
      StandsTwo(w, i + 5, [58], SecondsText(c));
      StandsOne(w, i + 5, 58);
    }
    FieldBack(w, i, c.hour, 2);
    FieldBack(w, i + 3, c.minute, 2);
  }

  /** Seconds, and where the fraction stands. */
  lemma {:induction false} SecondsBack(w: seq<byte>, i: nat, c: ClockForm)
    requires ClockFits(c) && !c.Minutes?
    requires Stands(w, i, SecondsText(c))
    requires c.Seconds? ==> !IsDigit(Ch(w, i + 2))
    ensures Field(w, i, 2) == Some(c.second)
    ensures c.Fraction? ==> Ch(w, i + 2) == 46 && Stands(w, i + 3, DigitText(c.digits))
  {
    hide Stands, Padded, Field, Pow10;
    SmallPowers();
    if c.Fraction? {
      assert SecondsText(c) == Padded(c.second, 2) + ([46] + DigitText(c.digits));
      Split(w, i, Padded(c.second, 2), 46, DigitText(c.digits));
    } else {
      StandsTwo(w, i, Padded(c.second, 2), []);
    }
    FieldBack(w, i, c.second, 2);
  }

  lemma {:induction false} TimeBack(w: seq<byte>, i: nat, c: ClockForm)
    requires ClockFits(c) && (c.Fraction? ==> |c.digits| <= 6)
    requires Stands(w, i, ClockText(c)) && ClockStops(Ch(w, i + |ClockText(c)|))
    ensures i + |ClockText(c)| <= |w|
    ensures ReadTime(w, i) == Some((ClockOf(c), i + |ClockText(c)|))
  {
    hide Stands, Padded, Field, Pow10, FractionEnd, ValueOf, Spelled, DigitText;
    ClockStarts(w, i, c);
    if !c.Minutes? {
      SecondsBack(w, i + 6, c);
      if c.Fraction? {
        FractionBack(w, i + 9, c.digits);
      }
    }
  }

  /** An offset, or none. */
  lemma {:induction false} ZoneBack(w: seq<byte>, i: nat, z: ZoneForm)
    requires ZoneFits(z) && Stands(w, i, ZoneText(z))
    requires var c := Ch(w, i + |ZoneText(z)|); c == 0 || IsStop(c)
    ensures i + |ZoneText(z)| <= |w| && ClockStops(Ch(w, i))
    ensures var r := ReadZone(w, i);
            match z
            case Local => r == None
            case Zulu(_) => r == Some((Zone(false, 0, 0), i + 1))
            case Numeric(west, h, m) => r == Some((Zone(west, h, m), i + 6))
  {
    StandsLength(w, i, ZoneText(z));
    hide Stands, Padded, Field, Pow10;
    SmallPowers();
    match z {
      case Local =>
      case Zulu(lower) => StandsOne(w, i, if lower then 122 else 90);
      case Numeric(west, h, m) =>
        var sign: byte := if west then 45 else 43;
        assert ZoneText(z) == [] + ([sign] + (Padded(h, 2) + ([58] + Padded(m, 2))));
        Split(w, i, [], sign, Padded(h, 2) + ([58] + Padded(m, 2)));
        Split(w, i + 1, Padded(h, 2), 58, Padded(m, 2));
        FieldBack(w, i + 1, h, 2);
        FieldBack(w, i + 4, m, 2);
    }
  }

  lemma {:induction false} CalendarAgrees(y: nat, m: nat, d: nat)
    ensures IsDay(Day(y, m, d)) <==> IsDate(y, m, d)
  {}

  lemma {:induction false} ZoneAgrees(z: ZoneForm)
    requires z.Numeric?
    ensures Offset(Zone(z.west, z.hours, z.minutes)) == MinutesOf(z)
    ensures z.minutes < 60 ==> (IsOffset(MinutesOf(z)) <==> z.hours <= 23)
  {}

  /** The value and the length of what is read, or the refusal. */
  function Read(x: StampForm): Result<(Scalar, nat)> {
    var v := StampMeaning(x);
    if v.Ok? then Ok((v.value, |StampText(x)|)) else Err(v.error)
  }

  ghost predicate Stopped(w: seq<byte>, n: nat) { Ch(w, n) == 0 || IsStop(Ch(w, n)) }

  lemma {:induction false} TimeIsRead(w: seq<byte>, x: StampForm)
    requires StampOkForm(x) && x.OfTime? && Stands(w, 0, StampText(x)) && Stopped(w, |StampText(x)|)
    ensures TimeOf(w) == Read(x)
  {
    hide Stands, ClockText, ReadTime, UsecOf, ClockFits;
    TimeBack(w, 0, x.clock);
  }

  /** Behind a date alone no time follows. */
  ghost predicate NoTime(w: seq<byte>) { Stopped(w, 10) && (Ch(w, 10) == SPACE ==> !IsDigit(Ch(w, 11))) }

  lemma {:induction false} DateIsRead(w: seq<byte>, x: StampForm)
    requires StampOkForm(x) && x.OfDate? && Stands(w, 0, StampText(x)) && NoTime(w)
    ensures StampOf(w) == Read(x)
  {
    hide Stands, DateText, ReadDate, IsDate, IsDay;
    DateBack(w, 0, x.year, x.month, x.day);
    CalendarAgrees(x.year, x.month, x.day);
  }

  lemma {:induction false} BothAreRead(w: seq<byte>, x: StampForm)
    requires StampOkForm(x) && x.OfBoth? && Stands(w, 0, StampText(x)) && Stopped(w, |StampText(x)|)
    ensures StampOf(w) == Read(x)
  {
    hide Stands, DateText, ClockText, ZoneText, ReadDate, ReadTime, ReadZone, IsDate, IsDay, UsecOf, ClockFits, Field, ZonedOf;
    var date, time, zone := DateText(x.year, x.month, x.day), ClockText(x.clock), ZoneText(x.zone);
    Split(w, 0, date, x.sep, time + zone);
    StandsTwo(w, 11, time, zone);
    DateBack(w, 0, x.year, x.month, x.day);
    ZoneBack(w, 11 + |time|, x.zone);
    ClockBehind(w, x.clock);
    TimeBack(w, 11, x.clock);
    CalendarAgrees(x.year, x.month, x.day);
    ZonedIsRead(w, x, 11 + |time|);
  }

  lemma {:induction false} ClockBehind(w: seq<byte>, c: ClockForm)
    requires ClockFits(c) && Stands(w, 11, ClockText(c)) && ClockStops(Ch(w, 11 + |ClockText(c)|))
    ensures IsDigit(Ch(w, 11)) && IsDigit(Ch(w, 12)) && Ch(w, 13) == 58
  {
    hide Stands, ClockText, Field;
    ClockStarts(w, 11, c);
  }

  lemma {:induction false} ZonedIsRead(w: seq<byte>, x: StampForm, i: nat)
    requires StampOkForm(x) && x.OfBoth? && 0 < i <= |w| && i + |ZoneText(x.zone)| == |StampText(x)|
    requires IsDay(Day(x.year, x.month, x.day)) <==> IsDate(x.year, x.month, x.day)
    requires var r := ReadZone(w, i);
             match x.zone
             case Local => r == None
             case Zulu(_) => r == Some((Zone(false, 0, 0), i + 1))
             case Numeric(west, h, m) => r == Some((Zone(west, h, m), i + 6))
    ensures ZonedOf(w, Day(x.year, x.month, x.day), ClockOf(x.clock), i) == Read(x)
  {
    hide DateText, ClockText, ReadZone, IsDate, IsDay, UsecOf, ClockFits;
    if x.zone.Numeric? {
      ZoneAgrees(x.zone);
    }
  }

  // ---------- in a text

  function StampWindow(x: StampForm): nat { if x.OfTime? then TIME_WINDOW else STAMP_WINDOW }

  /** The copy that is read holds the text and what follows it. */
  lemma {:induction false} InWindow(src: seq<byte>, p: nat, t: seq<byte>, n: nat)
    requires Stands(src, p, t) && p + |t| <= |src| && |t| + 1 < n
    ensures var w := Window(src, p, n);
            Stands(w, 0, t) && forall k :: |t| <= k <= |t| + 1 ==> Ch(w, k) == if p + k < |src| then src[p + k] else 0
  {
    var w := Window(src, p, n);
    assert w[..|t|] == src[p..p + |t|];
    assert w[0..0 + |t|] == w[..|t|];
  }

  lemma {:induction false} StampLength(x: StampForm)
    requires StampOkForm(x)
    ensures |StampText(x)| + 1 < StampWindow(x) && (x.OfDate? ==> |StampText(x)| == 10)
  {
    hide ClockText, DateText, ZoneText;
  }

  lemma {:induction false} StampLooks(src: seq<byte>, p: nat, x: StampForm)
    requires StampOkForm(x) && Stands(src, p, StampText(x)) && EndsHere(src, p + |StampText(x)|)
    ensures if x.OfTime? then LooksLikeTime(src, p) else LooksLikeDate(src, p) && !LooksLikeTime(src, p)
    ensures p < |src| && IsDigit(src[p])
  {
    hide Stands, DateText, ClockText, ZoneText, Field, ClockFits, EndsHere;
    match x {
      case OfTime(c) =>
        EndsClock(src, p + |ClockText(c)|);
        ClockStarts(src, p, c);
      case OfDate(y, m, d) => DateBack(src, p, y, m, d);
      case OfBoth(y, m, d, sep, c, z) =>
        StandsTwo(src, p, DateText(y, m, d), [sep] + (ClockText(c) + ZoneText(z)));
        DateBack(src, p, y, m, d);
    }
  }

  lemma {:induction false} EndsClock(src: seq<byte>, e: nat)
    requires EndsHere(src, e)
    ensures !IsDigit(Ch(src, e))
  {}

  /** Every date, time, and date and time that can be written is read as what it means, or
      refused if there is no such date, time or offset. */
  lemma {:induction false} StampScanned(src: seq<byte>, p: nat, x: StampForm)
    requires StampOkForm(x) && Stands(src, p, StampText(x)) && EndsHere(src, p + |StampText(x)|)
    ensures p < |src| && IsDigit(src[p]) && LooksLikeStamp(src, p) && ScanStamp(src, p) == Read(x)
  {
    hide Stands, StampText, TimeOf, StampOf, Window, LooksLikeTime, LooksLikeDate, Read, StampOkForm;
    var w := Window(src, p, StampWindow(x));
    StampLooks(src, p, x);
    StampLength(x);
    InWindow(src, p, StampText(x), StampWindow(x));
    match x {
      case OfTime(_) => TimeIsRead(w, x);
      case OfDate(_, _, _) => DateIsRead(w, x);
      case OfBoth(_, _, _, _, _, _) => BothAreRead(w, x);
    }
  }

  // ---------- what can be read

  function DigitsOf(n: nat, k: nat): (ds: seq<Decimal>)
    ensures |ds| == k
  {
    if k == 0 then [] else DigitsOf(n / 10, k - 1) + [n % 10]
  }

  lemma {:induction false} SpelledDigits(n: nat, k: nat)
    requires n < Pow10(k)
    ensures Spelled(DigitsOf(n, k)) == n
    decreases k
  {
    if k > 0 {
      SpelledDigits(n / 10, k - 1);
      var ds := DigitsOf(n, k);
      assert ds[..k - 1] == DigitsOf(n / 10, k - 1);
    }
  }

  /** A form of a date or time. */
  function FormOf(v: Scalar): StampForm
    requires StampOk(v)
  {
    var ts := v.ts;
    var tz: nat := if ts.tz < 0 then -ts.tz else ts.tz;
    match v
    case Date(_) => OfDate(ts.year, ts.month, ts.day)
    case Time(_) => OfTime(Fraction(ts.hour, ts.minute, ts.second, DigitsOf(ts.usec, 6)))
    case DateTime(_) =>
      OfBoth(ts.year, ts.month, ts.day, 84, Fraction(ts.hour, ts.minute, ts.second, DigitsOf(ts.usec, 6)), Local)
    case DateTimeTz(_) =>
      OfBoth(ts.year, ts.month, ts.day, 84, Fraction(ts.hour, ts.minute, ts.second, DigitsOf(ts.usec, 6)),
             Numeric(ts.tz < 0, tz / 60, tz % 60))
  }

  lemma {:induction false} FormMeans(v: Scalar)
    requires StampOk(v)
    ensures StampOkForm(FormOf(v)) && StampMeaning(FormOf(v)) == Ok(v)
  {
    if !v.Time? {
      DateSmall(v);
    }
    if !v.Date? {
      Powers();
      SpelledDigits(v.ts.usec, 6);
      hide DigitsOf, Spelled, Pow10, IsDate;
    }
  }

  lemma {:induction false} DateSmall(v: Scalar)
    requires StampOk(v) && !v.Time?
    ensures v.ts.month < 100 && v.ts.day < 100
  {}

  /** A date or time can be read from some text if and only if it is one of the calendar, of the
      day, and with an offset of less than a day. */
  lemma {:induction false} StampsExactly(v: Scalar)
    ensures StampOk(v) <==> exists src: seq<byte>, n: nat :: ScanStamp(src, 0) == Ok((v, n))
  {
    hide StampText, TimeOf, StampOf, StampOk, FormOf, StampMeaning;
    if StampOk(v) {
      FormMeans(v);
      var src := StampText(FormOf(v));
      StandsCut(src, 0, |src|);
      assert src[0..|src|] == src;
      StampScanned(src, 0, FormOf(v));
    }
    if src: seq<byte>, n: nat :| ScanStamp(src, 0) == Ok((v, n)) {
      ReadIsOk(Window(src, 0, TIME_WINDOW));
      ReadIsOk(Window(src, 0, STAMP_WINDOW));
    }
  }
}
