/** Dates and times: read_int, read_date, read_time, read_tzone and the two scanners over them,
    on the text that was copied out for them. */
module Stamps {
  import opened Basics
  import opened Datum
  import opened Numbers

  /** What a C string that holds w has at index i. */
  function Ch(w: seq<byte>, i: nat): (c: int)
    ensures c != 0 ==> i < |w| && w[i] == c
  {
    if i < |w| then w[i] else 0
  }

  // ---------- integers

  /** The end of the digits at i. */
  function DigitsEnd(w: seq<byte>, i: nat): (j: nat)
    requires i <= |w|
    ensures i <= j <= |w| && forall k :: i <= k < j ==> IsDigit(w[k])
    ensures !IsDigit(Ch(w, j))
    decreases |w| - i
  {
    if i < |w| && IsDigit(w[i]) then DigitsEnd(w, i + 1) else i
  }

  /** read_int: how many digits there are, and the number; no digits if it is no int. */
  function ReadInt(w: seq<byte>, i: nat): (r: (nat, nat))
    requires i <= |w|
    ensures i + r.0 <= |w| && forall k :: i <= k < i + r.0 ==> IsDigit(w[k])
  {
    var j := DigitsEnd(w, i);
    if ValueOf(w, i, j, 10) > INT32_MAX then (0, 0) else (j - i, ValueOf(w, i, j, 10))
  }

  /** A number of exactly n digits. */
  function Field(w: seq<byte>, i: nat, n: nat): (r: Option<nat>)
    requires i <= |w|
    ensures r.Some? ==> i + n <= |w| && forall k :: i <= k < i + n ==> IsDigit(w[k])
  {
    if ReadInt(w, i).0 == n then Some(ReadInt(w, i).1) else None
  }

  // ---------- dates and times

  datatype Day = Day(year: nat, month: nat, day: nat)

  /** read_date; a date takes ten characters. */
  function ReadDate(w: seq<byte>): (r: Option<Day>)
    ensures r.Some? ==> 10 <= |w|
  {
    var y :- Field(w, 0, 4);
    if Ch(w, 4) != 45 then None
    else
      var m :- Field(w, 5, 2);
      if Ch(w, 7) != 45 then None
      else
        var d :- Field(w, 8, 2);
        Some(Day(y, m, d))
  }

  datatype Clock = Clock(hour: nat, minute: nat, second: nat, usec: nat)

  /** The end of the fraction that starts at i: no more than six digits are taken. */
  function FractionEnd(w: seq<byte>, i: nat): (j: nat)
    requires i <= |w|
    ensures i <= j <= |w| && j <= i + 6 && forall k :: i <= k < j ==> IsDigit(w[k])
  {
    var j := DigitsEnd(w, i);
    if j > i + 6 then i + 6 else j
  }

  /** read_time from i on, with the position after it. Seconds are optional, and so is their
      fraction. */
  function ReadTime(w: seq<byte>, i: nat): (r: Option<(Clock, nat)>)
    requires i <= |w|
    ensures r.Some? ==> i + 5 <= r.value.1 <= |w| && r.value.1 <= i + 15
  {
    var h :- Field(w, i, 2);
    if Ch(w, i + 2) != 58 then None
    else
      var m :- Field(w, i + 3, 2);
      if Ch(w, i + 5) != 58 then Some((Clock(h, m, 0, 0), i + 5))
      else
        var s :- Field(w, i + 6, 2);
        if Ch(w, i + 8) != 46 then Some((Clock(h, m, s, 0), i + 8))
        else if !IsDigit(Ch(w, i + 9)) then None
        else
          var j := FractionEnd(w, i + 9);
          Some((Clock(h, m, s, ValueOf(w, i + 9, j, 10) * Pow10(i + 15 - j)), j))
  }

  datatype Zone = Zone(west: bool, hour: nat, minute: nat)

  /** read_tzone from i on, with the position after it. */
  function ReadZone(w: seq<byte>, i: nat): (r: Option<(Zone, nat)>)
    requires i <= |w|
    ensures r.Some? ==> i < r.value.1 <= |w|
  {
    var c := Ch(w, i);
    if c == 90 || c == 122 then Some((Zone(false, 0, 0), i + 1))
    else if c != 43 && c != 45 then None
    else
      var h :- Field(w, i + 1, 2);
      if Ch(w, i + 3) != 58 then None
      else
        var m :- Field(w, i + 4, 2);
        Some((Zone(c == 45, h, m), i + 6))
  }

  // ---------- which are accepted

  predicate IsLeap(year: nat) { (year % 4 == 0 && year % 100 != 0) || year % 400 == 0 }

  function DaysIn(year: nat, month: nat): nat {
    if month == 2 then (if IsLeap(year) then 29 else 28)
    else if month in {4, 6, 9, 11} then 30 else 31
  }

  /** is_valid_date. */
  predicate IsDay(d: Day) { 1 <= d.year && 1 <= d.month <= 12 && 1 <= d.day <= DaysIn(d.year, d.month) }

  /** is_valid_time. */
  predicate IsClock(c: Clock) { c.hour <= 23 && c.minute <= 59 && c.second <= 59 }

  /** The offset in minutes. */
  function Offset(z: Zone): int { (z.hour * 60 + z.minute) * (if z.west then -1 else 1) }

  /** is_valid_timezone. */
  predicate IsOffset(tz: int) { (if tz < 0 then -tz else tz) / 60 <= 23 }

  function DateValue(d: Day): Scalar { Date(Stamp(d.year, d.month, d.day, -1, -1, -1, -1, -1)) }

  function TimeValue(c: Clock): Scalar { Time(Stamp(-1, -1, -1, c.hour, c.minute, c.second, c.usec, -1)) }

  function DateTimeValue(d: Day, c: Clock): Scalar {
    DateTime(Stamp(d.year, d.month, d.day, c.hour, c.minute, c.second, c.usec, -1))
  }

  function ZonedValue(d: Day, c: Clock, tz: int): Scalar {
    DateTimeTz(Stamp(d.year, d.month, d.day, c.hour, c.minute, c.second, c.usec, tz))
  }

  predicate IsStamp(v: Scalar) { v.Date? || v.Time? || v.DateTime? || v.DateTimeTz? }

  // ---------- scan_time and scan_timestamp

  function TimeOf(w: seq<byte>): (r: Result<(Scalar, nat)>)
    ensures r.Ok? ==> IsStamp(r.value.0) && 0 < r.value.1 <= |w|
  {
    match ReadTime(w, 0)
    case None => Err(Lexical)
    case Some((c, n)) => if IsClock(c) then Ok((TimeValue(c), n)) else Err(Lexical)
  }

  /** A time follows the date: one of T, t and space, two digits and a colon. */
  predicate TimeFollows(w: seq<byte>) {
    && Ch(w, 10) in {84, 32, 116} && IsDigit(Ch(w, 11)) && IsDigit(Ch(w, 12)) && Ch(w, 13) == 58
  }

  function StampOf(w: seq<byte>): (r: Result<(Scalar, nat)>)
    ensures r.Ok? ==> IsStamp(r.value.0) && 0 < r.value.1 <= |w|
  {
    if IsDigit(Ch(w, 0)) && IsDigit(Ch(w, 1)) && Ch(w, 2) == 58 then TimeOf(w)
    else
      match ReadDate(w)
      case None => Err(Lexical)
      case Some(d) =>
        if !TimeFollows(w) then if IsDay(d) then Ok((DateValue(d), 10)) else Err(Lexical)
        else
          match ReadTime(w, 11)
          case None => Err(Lexical)
          case Some((c, i)) => ZonedOf(w, d, c, i)
  }

  /** The offset, if there is one, and the checks that come last. */
  function ZonedOf(w: seq<byte>, d: Day, c: Clock, i: nat): (r: Result<(Scalar, nat)>)
    requires 0 < i <= |w|
    ensures r.Ok? ==> IsStamp(r.value.0) && 0 < r.value.1 <= |w|
  {
    match ReadZone(w, i)
    case None => if IsDay(d) && IsClock(c) then Ok((DateTimeValue(d, c), i)) else Err(Lexical)
    case Some((z, j)) =>
      if z.minute < 60 && IsDay(d) && IsClock(c) && IsOffset(Offset(z))
      then Ok((ZonedValue(d, c, Offset(z)), j)) else Err(Lexical)
  }

  // ---------- what is read

  lemma TimeChars(w: seq<byte>, i: nat)
    requires i <= |w|
    ensures ReadTime(w, i).Some? ==> forall k :: i <= k < ReadTime(w, i).value.1 ==> w[k] != LF
  {
    hide ReadInt, DigitsEnd;
  }

  lemma ZoneChars(w: seq<byte>, i: nat)
    requires i <= |w|
    ensures ReadZone(w, i).Some? ==> forall k :: i <= k < ReadZone(w, i).value.1 ==> w[k] != LF
  {
    hide ReadInt;
  }

  lemma DateChars(w: seq<byte>)
    ensures ReadDate(w).Some? ==> forall k :: 0 <= k < 10 ==> w[k] != LF
  {
    hide ReadInt;
  }

  /** A date or time stays on its line. */
  lemma StampChars(w: seq<byte>)
    ensures TimeOf(w).Ok? ==> LF !in w[..TimeOf(w).value.1]
    ensures StampOf(w).Ok? ==> LF !in w[..StampOf(w).value.1]
  {
    hide ReadTime, ReadDate, ReadZone;
    TimeChars(w, 0);
    DateChars(w);
    if 11 <= |w| {
      TimeChars(w, 11);
      if ReadTime(w, 11).Some? {
        ZoneChars(w, ReadTime(w, 11).value.1);
      }
    }
  }
}
