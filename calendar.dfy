/** The proleptic Gregorian calendar and the digit-level reading that the server's date
    formats share (java.time's ISO chronology, as used by ZuliaDateUtil and the query
    parser). Epoch days count from 1970-01-01. */
module Calendar {
  import opened Wrappers

  const MILLIS_PER_DAY: int := 86_400_000
  const SECONDS_PER_DAY: int := 86_400

  predicate IsLeap(y: int)
  {
    y % 4 == 0 && (y % 100 != 0 || y % 400 == 0)
  }

  function YearLength(y: int): int
  {
    if IsLeap(y) then 366 else 365
  }

  function MonthLength(y: int, m: int): (r: int)
    requires 1 <= m <= 12
    ensures 28 <= r <= 31
  {
    if m == 2 then (if IsLeap(y) then 29 else 28)
    else if m == 4 || m == 6 || m == 9 || m == 11 then 30
    else 31
  }

  /** Days from 0000-01-01 to y-01-01: 365 a year plus one per leap year before y. */
  function DaysFromYearZero(y: int): int
  {
    365 * y + (y + 3) / 4 - (y + 99) / 100 + (y + 399) / 400
  }

  lemma YearStep(y: int)
    ensures DaysFromYearZero(y + 1) - DaysFromYearZero(y) == YearLength(y)
  {
    var c4 := (y + 4) / 4 - (y + 3) / 4;
    var c100 := (y + 100) / 100 - (y + 99) / 100;
    var c400 := (y + 400) / 400 - (y + 399) / 400;
    assert DaysFromYearZero(y + 1) - DaysFromYearZero(y) == 365 + c4 - c100 + c400;
    CountStep4(y);
    CountStep100(y);
    CountStep400(y);
    LeapDivisors(y);
  }

  /** A multiple of 400 is one of 100, and a multiple of 100 one of 4. */
  lemma LeapDivisors(y: int)
    ensures y % 400 == 0 ==> y % 100 == 0
    ensures y % 100 == 0 ==> y % 4 == 0
  {
    if y % 400 == 0 {
      var q := y / 400;
      assert y == 100 * (4 * q);
      var r := y % 100;
      var p := y / 100;
      assert y == 100 * p + r && 0 <= r < 100;
      assert 100 * (4 * q - p) == r;
    }
    if y % 100 == 0 {
      var q := y / 100;
      assert y == 4 * (25 * q);
      var r := y % 4;
      var p := y / 4;
      assert y == 4 * p + r && 0 <= r < 4;
      assert 4 * (25 * q - p) == r;
    }
  }

  lemma CountStep4(y: int)
    ensures (y + 4) / 4 - (y + 3) / 4 == if y % 4 == 0 then 1 else 0
  {
    var q, r := y / 4, y % 4;
    assert y == 4 * q + r;
    assert (y + 4) / 4 == q + 1;
    assert (y + 3) / 4 == if r == 0 then q else q + 1;
  }

  lemma CountStep100(y: int)
    ensures (y + 100) / 100 - (y + 99) / 100 == if y % 100 == 0 then 1 else 0
  {
    var q, r := y / 100, y % 100;
    assert y == 100 * q + r;
    assert (y + 100) / 100 == q + 1;
    assert (y + 99) / 100 == if r == 0 then q else q + 1;
  }

  lemma CountStep400(y: int)
    ensures (y + 400) / 400 - (y + 399) / 400 == if y % 400 == 0 then 1 else 0
  {
    var q, r := y / 400, y % 400;
    assert y == 400 * q + r;
    assert (y + 400) / 400 == q + 1;
    assert (y + 399) / 400 == if r == 0 then q else q + 1;
  }

  /** Days from January 1st to the first of month m. */
  function DaysBeforeMonth(y: int, m: int): int
    requires 1 <= m <= 12
  {
    var cumulative := [0, 31, 59, 90, 120, 151, 181, 212, 243, 273, 304, 334];
    cumulative[m - 1] + (if m > 2 && IsLeap(y) then 1 else 0)
  }

  predicate ValidDate(y: int, m: int, d: int)
  {
    1 <= m <= 12 && 1 <= d <= MonthLength(y, m)
  }

  function EpochDay(y: int, m: int, d: int): int
    requires ValidDate(y, m, d)
  {
    DaysFromYearZero(y) - DaysFromYearZero(1970) + DaysBeforeMonth(y, m) + d - 1
  }

  /** The day after a valid date (LocalDate.plusDays(1)). */
  function NextDay(y: int, m: int, d: int): (r: (int, int, int))
    requires ValidDate(y, m, d)
    ensures ValidDate(r.0, r.1, r.2)
    ensures EpochDay(r.0, r.1, r.2) == EpochDay(y, m, d) + 1
  {
    YearStep(y);
    if d < MonthLength(y, m) then (y, m, d + 1)
    else if m < 12 then (y, m + 1, 1)
    else (y + 1, 1, 1)
  }

  /** The first day of the next month (plusMonths(1) applied to the first of a month). */
  function NextMonthStart(y: int, m: int): (r: (int, int))
    requires 1 <= m <= 12
    ensures 1 <= r.1 <= 12
    ensures EpochDay(r.0, r.1, 1) == EpochDay(y, m, 1) + MonthLength(y, m)
  {
    YearStep(y);
    if m < 12 then (y, m + 1) else (y + 1, 1)
  }

  lemma NextYearStart(y: int)
    ensures EpochDay(y + 1, 1, 1) == EpochDay(y, 1, 1) + YearLength(y)
  {
    YearStep(y);
  }

  // ---------------------------------------------------------------------------
  // Reading digits and literals at a position of a string.

  predicate IsDigit(c: char) { '0' <= c <= '9' }

  function DigitValue(c: char): (r: nat)
    ensures r <= 9
  {
    if IsDigit(c) then (c as int) - ('0' as int) else 0
  }

  /** The decimal value of a string of digits. */
  function DigitsValue(s: string): (r: nat)
    ensures r < Pow10(|s|)
  {
    if |s| == 0 then 0 else DigitsValue(s[..|s| - 1]) * 10 + DigitValue(s[|s| - 1])
  }

  function Pow10(n: nat): (r: nat)
    ensures r >= 1
  {
    if n == 0 then 1 else 10 * Pow10(n - 1)
  }

  /** The number of consecutive digits at `pos`, reading at most `max`. */
  function CountDigits(s: string, pos: nat, max: nat): (n: nat)
    requires pos <= |s|
    ensures n <= max && pos + n <= |s|
    ensures forall i :: pos <= i < pos + n ==> IsDigit(s[i])
    ensures n < max && pos + n < |s| ==> !IsDigit(s[pos + n])
    decreases max
  {
    if max == 0 || pos == |s| || !IsDigit(s[pos]) then 0
    else 1 + CountDigits(s, pos + 1, max - 1)
  }

  /** A number of `minWidth` to `maxWidth` digits read greedily at `pos`:
      its value and the position after it. */
  function ReadNumber(s: string, pos: nat, minWidth: nat, maxWidth: nat): (r: Option<(nat, nat)>)
    requires pos <= |s|
    ensures r.Some? ==> pos + minWidth <= r.value.1 <= pos + maxWidth && r.value.1 <= |s|
    ensures r.Some? ==> r.value.0 == DigitsValue(s[pos..r.value.1])
  {
    var n := CountDigits(s, pos, maxWidth);
    if n < minWidth then None else Some((DigitsValue(s[pos..pos + n]), pos + n))
  }

  lemma {:induction false} CountDigitsAt(s: string, pos: nat, max: nat, w: nat)
    requires pos + w <= |s| && w <= max
    requires forall i :: pos <= i < pos + w ==> IsDigit(s[i])
    requires w == max || pos + w == |s| || !IsDigit(s[pos + w])
    ensures CountDigits(s, pos, max) == w
    decreases w
  {
    if w > 0 {
      CountDigitsAt(s, pos + 1, max - 1, w - 1);
    }
  }

  /** Reading a run of exactly `w` digits, as concrete examples need it. */
  lemma ReadNumberAt(s: string, pos: nat, minWidth: nat, maxWidth: nat, w: nat)
    requires pos + w <= |s| && minWidth <= w <= maxWidth
    requires forall i :: pos <= i < pos + w ==> IsDigit(s[i])
    requires w == maxWidth || pos + w == |s| || !IsDigit(s[pos + w])
    ensures ReadNumber(s, pos, minWidth, maxWidth) == Some((DigitsValue(s[pos..pos + w]), pos + w))
  {
    CountDigitsAt(s, pos, maxWidth, w);
  }

  lemma DigitsValue1(s: string)
    requires |s| == 1
    ensures DigitsValue(s) == DigitValue(s[0])
  {
    assert s[..0] == [];
  }

  lemma DigitsValue2(s: string)
    requires |s| == 2
    ensures DigitsValue(s) == DigitValue(s[0]) * 10 + DigitValue(s[1])
  {
    DigitsValue1(s[..1]);
  }

  lemma DigitsValue4(s: string)
    requires |s| == 4
    ensures DigitsValue(s) == DigitValue(s[0]) * 1000 + DigitValue(s[1]) * 100 + DigitValue(s[2]) * 10 + DigitValue(s[3])
  {
    DigitsValue2(s[..2]);
    assert s[..3][..2] == s[..2];
  }

  /** The position after the character `c` at `pos`, if it is there. */
  function ReadChar(s: string, pos: nat, c: char): (r: Option<nat>)
    requires pos <= |s|
    ensures r.Some? <==> pos < |s| && s[pos] == c
    ensures r.Some? ==> r.value == pos + 1
  {
    if pos < |s| && s[pos] == c then Some(pos + 1) else None
  }

  /** The position after the letter `upper` at `pos`; a parser set to ignore case also takes
      its lower-case form. */
  function ReadLetter(s: string, pos: nat, upper: char, caseInsensitive: bool): (r: Option<nat>)
    requires pos <= |s| && 'A' <= upper <= 'Z'
    ensures r.Some? <==> pos < |s| && (s[pos] == upper || (caseInsensitive && s[pos] as int == upper as int + 32))
    ensures r.Some? ==> r.value == pos + 1
  {
    if pos < |s| && (s[pos] == upper || (caseInsensitive && s[pos] as int == upper as int + 32)) then Some(pos + 1)
    else None
  }

  // ---------------------------------------------------------------------------
  // Times of day and zone offsets (ISO_LOCAL_TIME and appendOffsetId).

  /** A time as instant arithmetic sees it: seconds since midnight and the nanoseconds of the
      second. 86400 seconds is the midnight that ends the day. */
  datatype Time = Time(secondOfDay: nat, nano: nat)

  /** The fields of a time of day as read, before any range is checked. */
  datatype RawTime = RawTime(hour: nat, minute: nat, second: nat, nano: nat)

  /** A fraction of a second: '.' and up to nine digits, scaled to nanoseconds. */
  function ReadFraction(s: string, pos: nat): (r: (nat, nat))
    requires pos <= |s|
    ensures pos <= r.1 <= |s| && r.0 < 1_000_000_000
  {
    match ReadChar(s, pos, '.')
    case None => (0, pos)
    case Some(p) =>
      var n := CountDigits(s, p, 9);
      var v := DigitsValue(s[p..p + n]);
      PowScale(v, n);
      var scaled: nat := v * Pow10(9 - n);
      (scaled, p + n)
  }

  lemma PowScale(v: nat, n: nat)
    requires n <= 9 && v < Pow10(n)
    ensures 0 <= v * Pow10(9 - n) < 1_000_000_000
  {
    var p := Pow10(9 - n);
    PowSplit(n, 9 - n);
    assert Pow10(9) == 1_000_000_000;
    MulMonotone(v + 1, Pow10(n), p);
    assert (v + 1) * p == v * p + p;
  }

  lemma MulMonotone(a: nat, b: nat, c: nat)
    requires a <= b
    ensures 0 <= a * c <= b * c
  {
    assert b * c == a * c + (b - a) * c;
  }

  lemma {:induction false} PowSplit(a: nat, b: nat)
    ensures Pow10(a) * Pow10(b) == Pow10(a + b)
  {
    if a > 0 {
      PowSplit(a - 1, b);
    }
  }

  /** HH ':' mm, then ':' ss (required when `secondsRequired`) and an optional fraction; the
      two-digit fields are read as they stand, ranges are the resolver's business. */
  function ReadTime(s: string, pos: nat, secondsRequired: bool): (r: Option<(RawTime, nat)>)
    requires pos <= |s|
    ensures r.Some? ==> r.value.0.hour < 100 && r.value.0.minute < 100 && r.value.0.second < 100
    ensures r.Some? ==> r.value.0.nano < 1_000_000_000 && pos < r.value.1 <= |s|
  {
    match ReadNumber(s, pos, 2, 2)
    case None => None
    case Some((hh, p1)) =>
      match ReadChar(s, p1, ':')
      case None => None
      case Some(p2) =>
        match ReadNumber(s, p2, 2, 2)
        case None => None
        case Some((mi, p3)) =>
          match ReadChar(s, p3, ':')
          case None =>
            if secondsRequired then None else Some((RawTime(hh, mi, 0, 0), p3))
          case Some(p4) =>
            match ReadNumber(s, p4, 2, 2)
            case None => None
            case Some((ss, p5)) =>
              var (nano, p6) := ReadFraction(s, p5);
              Some((RawTime(hh, mi, ss, nano), p6))
  }

  /** The time of day of checked fields. */
  function TimeOfDay(hour: nat, minute: nat, second: nat, nano: nat): (r: Time)
    requires hour <= 23 && minute <= 59 && second <= 59
    ensures r.secondOfDay < SECONDS_PER_DAY
  {
    Time(hour * 3600 + minute * 60 + second, nano)
  }

  /** The SMART resolver's time: 24:00 with nothing after it is the midnight ending the day;
      otherwise hour, minute and second must be in range. */
  function SmartTime(t: RawTime): (r: Option<Time>)
    ensures r.Some? <==> ((t.hour == 24 && t.minute == 0 && t.second == 0 && t.nano == 0) ||
                          (t.hour <= 23 && t.minute <= 59 && t.second <= 59))
    ensures r.Some? ==> r.value.secondOfDay <= SECONDS_PER_DAY && r.value.nano == t.nano
  {
    if t.hour == 24 && t.minute == 0 && t.second == 0 && t.nano == 0 then Some(Time(SECONDS_PER_DAY, 0))
    else if t.hour <= 23 && t.minute <= 59 && t.second <= 59 then Some(TimeOfDay(t.hour, t.minute, t.second, t.nano))
    else None
  }

  /** The time an instant parser takes: 24:00:00 is the midnight ending the day, the leap
      second 23:59:60 is read as 23:59:59, and everything else must be in range. */
  function InstantTime(t: RawTime): (r: Option<Time>)
    ensures r.Some? ==> r.value.secondOfDay <= SECONDS_PER_DAY && r.value.nano == t.nano
    ensures t.hour <= 23 && t.minute <= 59 && t.second <= 59 ==> r == SmartTime(t)
    ensures t.hour == 24 ==> r == SmartTime(t)
  {
    if t.hour == 24 && t.minute == 0 && t.second == 0 && t.nano == 0 then Some(Time(SECONDS_PER_DAY, 0))
    else
      var second := if t.hour == 23 && t.minute == 59 && t.second == 60 then 59 else t.second;
      if t.hour <= 23 && t.minute <= 59 && second <= 59 then Some(TimeOfDay(t.hour, t.minute, second, t.nano))
      else None
  }

  /** The leap second reads as the second before it, and "24:00:00" as the end of the day. */
  lemma InstantTimeSpecialCases(nano: nat)
    ensures InstantTime(RawTime(23, 59, 60, nano)) == InstantTime(RawTime(23, 59, 59, nano))
    ensures InstantTime(RawTime(23, 59, 60, nano)) == Some(Time(SECONDS_PER_DAY - 1, nano))
    ensures InstantTime(RawTime(24, 0, 0, 0)) == Some(Time(SECONDS_PER_DAY, 0))
    ensures nano > 0 ==> InstantTime(RawTime(24, 0, 0, nano)).None?
    ensures SmartTime(RawTime(23, 59, 60, nano)).None?
  {
  }

  /** Optional seconds of a zone offset: ':' ss, or nothing. */
  function ReadOffsetSeconds(s: string, pos: nat): (r: Option<(nat, nat)>)
    requires pos <= |s|
    ensures r.Some? ==> pos <= r.value.1 <= |s|
  {
    match ReadChar(s, pos, ':')
    case None => Some((0, pos))
    case Some(p) => ReadNumber(s, p, 2, 2)
  }

  /** 'Z', or a sign with HH ':' MM and optional ':' ss; the offset in seconds. A parser set to
      ignore case also takes 'z'. */
  function ReadOffset(s: string, pos: nat, caseInsensitive: bool): (r: Option<(int, nat)>)
    requires pos <= |s|
    ensures r.Some? ==> pos < r.value.1 <= |s| && -18 * 3600 <= r.value.0 <= 18 * 3600
  {
    if pos == |s| then None
    else if ReadLetter(s, pos, 'Z', caseInsensitive).Some? then Some((0, pos + 1))
    else if s[pos] != '+' && s[pos] != '-' then None
    else
      match ReadNumber(s, pos + 1, 2, 2)
      case None => None
      case Some((hh, p1)) =>
        match ReadChar(s, p1, ':')
        case None => None
        case Some(p2) =>
          match ReadNumber(s, p2, 2, 2)
          case None => None
          case Some((mm, p3)) =>
            match ReadOffsetSeconds(s, p3)
            case None => None
            case Some((ss, p4)) =>
              if hh > 18 || mm > 59 || ss > 59 || hh * 3600 + mm * 60 + ss > 18 * 3600 then None
              else if s[pos] == '+' then Some((hh * 3600 + mm * 60 + ss, p4))
              else Some((-(hh * 3600 + mm * 60 + ss), p4))
  }

  /** Milliseconds since the epoch of a date and time at a zone offset (Instant.toEpochMilli). */
  function EpochMillis(y: int, m: int, d: int, t: Time, offsetSeconds: int): int
    requires ValidDate(y, m, d)
  {
    (EpochDay(y, m, d) * SECONDS_PER_DAY + t.secondOfDay - offsetSeconds) * 1000 + t.nano / 1_000_000
  }

  /** The midnight that ends a day is the first instant of the next day. */
  lemma EndOfDayIsNextMidnight(y: int, m: int, d: int, offsetSeconds: int)
    requires ValidDate(y, m, d)
    ensures var next := NextDay(y, m, d);
      EpochMillis(y, m, d, Time(SECONDS_PER_DAY, 0), offsetSeconds) == EpochMillis(next.0, next.1, next.2, Time(0, 0), offsetSeconds)
  {
  }

  /** The first millisecond of a date in UTC (atStartOfDay().toInstant(UTC)). */
  function StartOfDayMillis(y: int, m: int, d: int): (r: int)
    requires ValidDate(y, m, d)
    ensures r == EpochMillis(y, m, d, Time(0, 0), 0)
    ensures r % MILLIS_PER_DAY == 0
  {
    var day := EpochDay(y, m, d);
    WholeDays(day);
    day * MILLIS_PER_DAY
  }

  /** A whole number of days is a multiple of a day's milliseconds. */
  lemma WholeDays(k: int)
    ensures (k * MILLIS_PER_DAY) % MILLIS_PER_DAY == 0
  {
    var x := k * 86_400_000;
    var q := x / 86_400_000;
    var r := x % 86_400_000;
    assert x == 86_400_000 * q + r && 0 <= r < 86_400_000;
    assert 86_400_000 * (k - q) == r;
  }
}
