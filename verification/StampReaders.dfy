/** The readers of dates and times as the code has them, on a NUL-terminated buffer. */
module StampReaders {
  import opened Basics
  import opened Datum
  import opened Numbers
  import opened Stamps

  /** The buffer holds w and a NUL. */
  ghost predicate InBuffer(buf: array<byte>, w: seq<byte>)
    reads buf
  {
    |w| < buf.Length && buf[..|w|] == w && buf[|w|] == 0
  }

  lemma BufferAt(buf: array<byte>, w: seq<byte>, i: nat)
    requires InBuffer(buf, w) && i <= |w|
    ensures buf[i] == Ch(w, i)
  {
    assert i < |w| ==> buf[i] == buf[..|w|][i];
  }

  /** Appending a digit: the number grows, so once it is no int it stays none. */
  lemma {:induction false} SpelledGrows(w: seq<byte>, i: nat, j: nat, k: nat)
    requires i <= j <= k <= |w| && forall x :: i <= x < k ==> IsDigit(w[x])
    ensures ValueOf(w, i, j, 10) <= ValueOf(w, i, k, 10)
    decreases k - j
  {
    if j < k {
      SpelledGrows(w, i, j, k - 1);
    }
  }

  lemma {:induction false} DigitsEndIs(w: seq<byte>, i: nat, j: nat)
    requires i <= j <= |w| && forall k :: i <= k < j ==> IsDigit(w[k])
    ensures j <= DigitsEnd(w, i) && (!IsDigit(Ch(w, j)) ==> DigitsEnd(w, i) == j)
    decreases j - i
  {
    if i < j {
      DigitsEndIs(w, i + 1, j);
    }
  }

  /** read_int. */
  method ReadIntAt(buf: array<byte>, i: nat, ghost w: seq<byte>) returns (n: nat, v: nat)
    requires InBuffer(buf, w) && i <= |w|
    ensures (n, v) == ReadInt(w, i)
  {
    var p := i;
    v := 0;
    BufferAt(buf, w, p);
    while IsDigit(buf[p])
      invariant i <= p <= |w| && buf[p] == Ch(w, p)
      invariant forall k :: i <= k < p ==> IsDigit(w[k])
      invariant v == ValueOf(w, i, p, 10) <= INT32_MAX
      decreases |w| - p
    {
      v := v * 10 + DigitValue(buf[p]);
      p := p + 1;
      DigitsEndIs(w, i, p);
      if v > INT32_MAX {
        SpelledGrows(w, i, p, DigitsEnd(w, i));
        return 0, 0;
      }
      BufferAt(buf, w, p);
    }
    DigitsEndIs(w, i, p);
    return p - i, v;
  }

  /** read_date. */
  method ReadDateAt(buf: array<byte>, ghost w: seq<byte>) returns (r: Option<Day>)
    requires InBuffer(buf, w)
    ensures r == ReadDate(w)
  {
    hide ReadInt;
    var n, year := ReadIntAt(buf, 0, w);
    if n != 4 {
      return None;
    }
    BufferAt(buf, w, 4);
    if buf[4] != 45 {
      return None;
    }
    var month, day;
    n, month := ReadIntAt(buf, 5, w);
    if n != 2 {
      return None;
    }
    BufferAt(buf, w, 7);
    if buf[7] != 45 {
      return None;
    }
    n, day := ReadIntAt(buf, 8, w);
    if n != 2 {
      return None;
    }
    return Some(Day(year, month, day));
  }

  /** The loop over the digits of a fraction, each worth a tenth of the one before it. */
  method ReadFraction(buf: array<byte>, i: nat, ghost w: seq<byte>) returns (usec: nat, p: nat)
    requires InBuffer(buf, w) && i <= |w|
    ensures p == FractionEnd(w, i) && usec == ValueOf(w, i, p, 10) * Pow10(i + 6 - p)
  {
    var factor := 100000;
    usec, p := 0, i;
    BufferAt(buf, w, p);
    assert Pow10(4) == 10000 && Pow10(5) == 100000;
    while IsDigit(buf[p]) && factor != 0
      invariant i <= p <= |w| && p <= i + 6 && buf[p] == Ch(w, p)
      invariant forall k :: i <= k < p ==> IsDigit(w[k])
      invariant factor == (if p == i + 6 then 0 else Pow10(i + 5 - p))
      invariant usec == ValueOf(w, i, p, 10) * Pow10(i + 6 - p)
      decreases |w| - p
    {
      FractionStep(ValueOf(w, i, p, 10), DigitValue(buf[p]), i + 5 - p);
      usec := usec + DigitValue(buf[p]) * factor;
      factor := factor / 10;
      p := p + 1;
      BufferAt(buf, w, p);
    }
    DigitsEndIs(w, i, p);
  }

  lemma FractionStep(x: nat, d: nat, n: nat)
    ensures x * Pow10(n + 1) + d * Pow10(n) == (x * 10 + d) * Pow10(n)
    ensures Pow10(n) / 10 == if n == 0 then 0 else Pow10(n - 1)
  {}

  /** read_time. */
  method ReadTimeAt(buf: array<byte>, i: nat, ghost w: seq<byte>) returns (r: Option<(Clock, nat)>)
    requires InBuffer(buf, w) && i <= |w|
    ensures r == ReadTime(w, i)
  {
    hide ReadInt;
    var n, hour := ReadIntAt(buf, i, w);
    if n != 2 {
      return None;
    }
    BufferAt(buf, w, i + 2);
    if buf[i + 2] != 58 {
      return None;
    }
    var minute, second;
    n, minute := ReadIntAt(buf, i + 3, w);
    if n != 2 {
      return None;
    }
    BufferAt(buf, w, i + 5);
    if buf[i + 5] != 58 {
      return Some((Clock(hour, minute, 0, 0), i + 5));
    }
    n, second := ReadIntAt(buf, i + 6, w);
    if n != 2 {
      return None;
    }
    BufferAt(buf, w, i + 8);
    if buf[i + 8] != 46 {
      return Some((Clock(hour, minute, second, 0), i + 8));
    }
    BufferAt(buf, w, i + 9);
    if !IsDigit(buf[i + 9]) {
      return None;
    }
    var usec, p := ReadFraction(buf, i + 9, w);
    return Some((Clock(hour, minute, second, usec), p));
  }

  /** read_tzone. */
  method ReadZoneAt(buf: array<byte>, i: nat, ghost w: seq<byte>) returns (r: Option<(Zone, nat)>)
    requires InBuffer(buf, w) && i <= |w|
    ensures r == ReadZone(w, i)
  {
    hide ReadInt;
    BufferAt(buf, w, i);
    var sign := buf[i];
    if sign == 90 || sign == 122 {
      return Some((Zone(false, 0, 0), i + 1));
    }
    if !(sign == 43 || sign == 45) {
      return None;
    }
    var n, hour := ReadIntAt(buf, i + 1, w);
    if n != 2 {
      return None;
    }
    BufferAt(buf, w, i + 3);
    if buf[i + 3] != 58 {
      return None;
    }
    var minute;
    n, minute := ReadIntAt(buf, i + 4, w);
    if n != 2 {
      return None;
    }
    return Some((Zone(sign == 45, hour, minute), i + 6));
  }

  /** scan_time, on its buffer. */
  method TimeToken(buf: array<byte>, ghost w: seq<byte>) returns (r: Result<(Scalar, nat)>)
    requires InBuffer(buf, w)
    ensures r == TimeOf(w)
  {
    hide ReadTime;
    var t := ReadTimeAt(buf, 0, w);
    if t == None || !IsClock(t.value.0) {
      return Err(Lexical);
    }
    return Ok((TimeValue(t.value.0), t.value.1));
  }

  /** The first characters of the buffer, one after the other, as far as each is wanted. */
  lemma FirstThree(buf: array<byte>, w: seq<byte>)
    requires InBuffer(buf, w)
    ensures buf[0] == Ch(w, 0) && (IsDigit(buf[0]) ==> 1 <= |w| && buf[1] == Ch(w, 1))
    ensures IsDigit(buf[0]) && IsDigit(buf[1]) ==> 2 <= |w| && buf[2] == Ch(w, 2)
  {
    BufferAt(buf, w, 0);
    if |w| >= 1 {
      BufferAt(buf, w, 1);
    }
    if |w| >= 2 {
      BufferAt(buf, w, 2);
    }
  }

  method TimeFollowsAt(buf: array<byte>, ghost w: seq<byte>) returns (b: bool)
    requires InBuffer(buf, w) && 10 <= |w|
    ensures b == TimeFollows(w) && (b ==> 14 <= |w|)
  {
    BufferAt(buf, w, 10);
    if buf[10] !in {84, 32, 116} {
      return false;
    }
    BufferAt(buf, w, 11);
    if !IsDigit(buf[11]) {
      return false;
    }
    BufferAt(buf, w, 12);
    if !IsDigit(buf[12]) {
      return false;
    }
    BufferAt(buf, w, 13);
    return buf[13] == 58;
  }

  /** scan_timestamp, on its buffer. */
  method StampToken(buf: array<byte>, ghost w: seq<byte>) returns (r: Result<(Scalar, nat)>)
    requires InBuffer(buf, w)
    ensures r == StampOf(w)
  {
    hide ReadTime, ReadDate, ReadZone, TimeOf, TimeFollows;
    FirstThree(buf, w);
    if IsDigit(buf[0]) && IsDigit(buf[1]) && buf[2] == 58 {
      r := TimeToken(buf, w);
      return;
    }
    var date := ReadDateAt(buf, w);
    if date == None {
      return Err(Lexical);
    }
    var follows := TimeFollowsAt(buf, w);
    if !follows {
      return if IsDay(date.value) then Ok((DateValue(date.value), 10)) else Err(Lexical);
    }
    var time := ReadTimeAt(buf, 11, w);
    if time == None {
      return Err(Lexical);
    }
    var (clock, i) := time.value;
    var zone := ReadZoneAt(buf, i, w);
    if zone == None {
      return if IsDay(date.value) && IsClock(clock) then Ok((DateTimeValue(date.value, clock), i)) else Err(Lexical);
    }
    var (z, j) := zone.value;
    if z.minute >= 60 {
      return Err(Lexical);
    }
    var tz := Offset(z);
    if !IsDay(date.value) || !IsClock(clock) || !IsOffset(tz) {
      return Err(Lexical);
    }
    return Ok((ZonedValue(date.value, clock, tz), j));
  }
}
