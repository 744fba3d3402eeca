/** Dates and times written out, and which of them can be read at all. */
module StampTexts {
  import opened Basics
  import opened Datum
  import opened Numbers
  import opened Stamps

  /** The last k decimal digits of n. */
  function Padded(n: int, k: nat): (t: seq<byte>)
    ensures |t| == k && forall i :: 0 <= i < k ==> IsDigit(t[i])
    decreases k
  {
    if k == 0 then [] else Padded(n / 10, k - 1) + [48 + n % 10]
  }

  type Decimal = d: nat | d < 10

  function DigitChar(d: Decimal): byte { 48 + d }

  /** Digits as they stand behind the point. */
  function DigitText(ds: seq<Decimal>): (t: seq<byte>)
    ensures |t| == |ds|
  {
    seq(|ds|, i requires 0 <= i < |ds| => DigitChar(ds[i]))
  }

  /** The forms of a time of day: without seconds, with them, with a fraction of a second. */
  datatype ClockForm =
    | Minutes(hour: nat, minute: nat)
    | Seconds(hour: nat, minute: nat, second: nat)
    | Fraction(hour: nat, minute: nat, second: nat, digits: seq<Decimal>)

  /** What may stand behind a time that follows a date. */
  datatype ZoneForm = Local | Zulu(lower: bool) | Numeric(west: bool, hours: nat, minutes: nat)

  datatype StampForm =
    | OfDate(year: nat, month: nat, day: nat)
    | OfTime(clock: ClockForm)
    | OfBoth(year: nat, month: nat, day: nat, sep: byte, clock: ClockForm, zone: ZoneForm)

  /** Every field fits its digits, and a fraction has some. */
  predicate ClockFits(c: ClockForm) {
    c.hour < 100 && c.minute < 100 && (!c.Minutes? ==> c.second < 100)
    && (c.Fraction? ==> c.digits != [])
  }

  predicate ZoneFits(z: ZoneForm) { z.Numeric? ==> z.hours < 100 && z.minutes < 100 }

  predicate StampFits(x: StampForm) {
    && (!x.OfTime? ==> x.year < 10000 && x.month < 100 && x.day < 100)
    && (!x.OfDate? ==> ClockFits(x.clock))
    && (x.OfBoth? ==> x.sep in {84, 116, 32} && ZoneFits(x.zone))
  }

  function DateText(year: nat, month: nat, day: nat): (t: seq<byte>)
    ensures |t| == 10
  {
    Padded(year, 4) + ([45] + (Padded(month, 2) + ([45] + Padded(day, 2))))
  }

  /** Hours and minutes, and a colon before what follows. */
  function ClockText(c: ClockForm): (t: seq<byte>)
    ensures |t| == match c case Minutes(_, _) => 5 case Seconds(_, _, _) => 8 case Fraction(_, _, _, ds) => 9 + |ds|
  {
    Padded(c.hour, 2) + ([58] + (Padded(c.minute, 2) +
      match c
      case Minutes(_, _) => []
      case Seconds(_, _, s) => [58] + Padded(s, 2)
      case Fraction(_, _, s, ds) => [58] + (Padded(s, 2) + ([46] + DigitText(ds)))))
  }

  function ZoneText(z: ZoneForm): (t: seq<byte>)
    ensures |t| == match z case Local => 0 case Zulu(_) => 1 case Numeric(_, _, _) => 6
  {
    match z
    case Local => []
    case Zulu(lower) => [if lower then 122 else 90]
    case Numeric(west, h, m) => [if west then 45 else 43] + (Padded(h, 2) + ([58] + Padded(m, 2)))
  }

  function StampText(x: StampForm): (t: seq<byte>)
    ensures t != []
  {
    match x
    case OfDate(y, m, d) => DateText(y, m, d)
    case OfTime(c) => ClockText(c)
    case OfBoth(y, m, d, sep, c, z) => DateText(y, m, d) + ([sep] + (ClockText(c) + ZoneText(z)))
  }

  // ---------- what they mean

  /** The days of the months, and of February in a leap year. */
  predicate IsDate(year: nat, month: nat, day: nat) {
    && 1 <= year && 1 <= day
    && match month
       case 2 => day <= 28 || (day == 29 && year % 4 == 0 && (year % 100 == 0 ==> year % 400 == 0))
       case 4 => day <= 30
       case 6 => day <= 30
       case 9 => day <= 30
       case 11 => day <= 30
       case _ => 1 <= month <= 12 && day <= 31
  }

  function SecondOf(c: ClockForm): nat { if c.Minutes? then 0 else c.second }

  predicate IsTimeOfDay(c: ClockForm) { c.hour <= 23 && c.minute <= 59 && SecondOf(c) <= 59 }

  predicate IsZone(z: ZoneForm) { z.Numeric? ==> z.hours <= 23 && z.minutes <= 59 }

  function Spelled(ds: seq<Decimal>): nat {
    if ds == [] then 0 else Spelled(ds[..|ds| - 1]) * 10 + ds[|ds| - 1]
  }

  /** Microseconds: the digits, followed by zeros. */
  function UsecOf(c: ClockForm): nat {
    if c.Fraction? && |c.digits| <= 6 then Spelled(c.digits) * Pow10(6 - |c.digits|) else 0
  }

  function MinutesOf(z: ZoneForm): int {
    match z
    case Numeric(west, h, m) => if west then -((h * 60 + m) as int) else h * 60 + m
    case _ => 0
  }

  function StampMeaning(x: StampForm): Result<Scalar> {
    match x
    case OfDate(y, m, d) =>
      if IsDate(y, m, d) then Ok(Date(Stamp(y, m, d, -1, -1, -1, -1, -1))) else Err(Lexical)
    case OfTime(c) =>
      if IsTimeOfDay(c) then Ok(Time(Stamp(-1, -1, -1, c.hour, c.minute, SecondOf(c), UsecOf(c), -1))) else Err(Lexical)
    case OfBoth(y, m, d, _, c, z) =>
      if !IsDate(y, m, d) || !IsTimeOfDay(c) || !IsZone(z) then Err(Lexical)
      else if z.Local? then Ok(DateTime(Stamp(y, m, d, c.hour, c.minute, SecondOf(c), UsecOf(c), -1)))
      else Ok(DateTimeTz(Stamp(y, m, d, c.hour, c.minute, SecondOf(c), UsecOf(c), MinutesOf(z))))
  }

  /** A fraction has six digits at most. */
  predicate IsShort(x: StampForm) { !x.OfDate? && x.clock.Fraction? ==> |x.clock.digits| <= 6 }

  predicate StampOkForm(x: StampForm) { StampFits(x) && IsShort(x) }

  // ---------- which can be read

  predicate DayOk(ts: Stamp) {
    0 <= ts.year <= 9999 && 0 <= ts.month && 0 <= ts.day && IsDate(ts.year, ts.month, ts.day)
  }

  predicate ClockOk(ts: Stamp) {
    0 <= ts.hour <= 23 && 0 <= ts.minute <= 59 && 0 <= ts.second <= 59 && 0 <= ts.usec <= 999999
  }

  predicate NoDay(ts: Stamp) { ts.year == -1 && ts.month == -1 && ts.day == -1 }

  predicate NoClock(ts: Stamp) { ts.hour == -1 && ts.minute == -1 && ts.second == -1 && ts.usec == -1 }

  /** A date of the calendar, a time of the day, an offset of less than a day, and -1 in every
      field that the type does not have. */
  predicate StampOk(v: Scalar) {
    match v
    case Date(ts) => DayOk(ts) && NoClock(ts) && ts.tz == -1
    case Time(ts) => NoDay(ts) && ClockOk(ts) && ts.tz == -1
    case DateTime(ts) => DayOk(ts) && ClockOk(ts) && ts.tz == -1
    case DateTimeTz(ts) => DayOk(ts) && ClockOk(ts) && -1440 < ts.tz < 1440
    case _ => false
  }

  lemma {:induction false} SpelledBound(w: seq<byte>, i: nat, j: nat)
    requires i <= j <= |w| && forall k :: i <= k < j ==> IsDigit(w[k])
    ensures ValueOf(w, i, j, 10) < Pow10(j - i)
    decreases j - i
  {
    if i < j {
      SpelledBound(w, i, j - 1);
    }
  }

  lemma {:induction false} FieldBound(w: seq<byte>, i: nat, n: nat)
    requires i <= |w| && Field(w, i, n).Some?
    ensures Field(w, i, n).value < Pow10(n)
  {
    var j := DigitsEnd(w, i);
    SpelledBound(w, i, j);
    hide ValueOf;
    if n == 0 {
      assert ReadInt(w, i).1 == 0;
    }
  }

  lemma {:induction false} Powers()
    ensures Pow10(0) == 1 && Pow10(1) == 10 && Pow10(2) == 100 && Pow10(3) == 1000 && Pow10(4) == 10000
    ensures Pow10(5) == 100000 && Pow10(6) == 1000000
  {
    assert Pow10(3) == 1000;
    assert Pow10(5) == 100000;
  }

  lemma {:induction false} DateInRange(w: seq<byte>)
    ensures ReadDate(w).Some? ==> ReadDate(w).value.year <= 9999
  {
    hide Field, Pow10;
    Powers();
    if ReadDate(w).Some? {
      FieldBound(w, 0, 4);
    }
  }

  lemma {:induction false} FractionInRange(w: seq<byte>, i: nat)
    requires i <= |w|
    ensures var j := FractionEnd(w, i); ValueOf(w, i, j, 10) * Pow10(i + 6 - j) <= 999999
  {
    var j := FractionEnd(w, i);
    SpelledBound(w, i, j);
    hide ValueOf, FractionEnd, Pow10;
    Powers();
    PowerSum(j - i, i + 6 - j);
    PowerPositive(i + 6 - j);
    Below(ValueOf(w, i, j, 10), Pow10(i + 6 - j), Pow10(j - i));
  }

  lemma {:induction false} Below(x: nat, y: nat, a: nat)
    requires x < a && y >= 1
    ensures x * y < a * y
  {}

  lemma {:induction false} PowerPositive(n: nat)
    ensures Pow10(n) >= 1
  {
    if n > 0 {
      PowerPositive(n - 1);
    }
  }

  lemma {:induction false} PowerSum(m: nat, n: nat)
    ensures Pow10(m) * Pow10(n) == Pow10(m + n)
  {
    if m > 0 {
      PowerSum(m - 1, n);
      assert Pow10(m) * Pow10(n) == 10 * (Pow10(m - 1) * Pow10(n));
    }
  }

  lemma {:induction false} TimeInRange(w: seq<byte>, i: nat)
    requires i <= |w|
    ensures ReadTime(w, i).Some? ==> ReadTime(w, i).value.0.usec <= 999999
  {
    hide Field, ValueOf, FractionEnd, Pow10;
    if ReadTime(w, i).Some? && i + 9 <= |w| {
      FractionInRange(w, i + 9);
    }
  }

  /** Nothing else is ever read. */
  lemma {:induction false} ReadIsOk(w: seq<byte>)
    ensures TimeOf(w).Ok? ==> StampOk(TimeOf(w).value.0)
    ensures StampOf(w).Ok? ==> StampOk(StampOf(w).value.0)
  {
    hide ReadTime, ReadDate, ReadZone;
    TimeInRange(w, 0);
    DateInRange(w);
    if 11 <= |w| {
      TimeInRange(w, 11);
    }
  }
}
