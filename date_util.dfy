/** Parsing of a date filter into the range of epoch milliseconds it denotes (ZuliaDateUtil).
    A timestamp denotes one instant; a day, a month or a year denotes every millisecond from
    its first instant (UTC) to the instant before the next day, month or year begins. */
module DateUtil {
  import opened Wrappers
  import opened Calendar

  datatype DateBounds = DateBounds(begin: int, end: int)

  /** '/' is accepted in place of '-'. */
  function NormalizeSlashes(s: string): (r: string)
    ensures |r| == |s| && '/' !in r
    ensures forall i :: 0 <= i < |s| ==> r[i] == (if s[i] == '/' then '-' else s[i])
  {
    if |s| == 0 then ""
    else NormalizeSlashes(s[..|s| - 1]) + [if s[|s| - 1] == '/' then '-' else s[|s| - 1]]
  }

  /** yyyy '-' M '-' d with a four-digit year and a month and day of one or two digits;
      the raw field values and the position after them. */
  function ReadYearMonthDay(s: string): (r: Option<(nat, nat, nat, nat)>)
    ensures r.Some? ==> r.value.3 <= |s|
  {
    match ReadNumber(s, 0, 4, 4)
    case None => None
    case Some((y, p1)) =>
      match ReadChar(s, p1, '-')
      case None => None
      case Some(p2) =>
        match ReadNumber(s, p2, 1, 2)
        case None => None
        case Some((m, p3)) =>
          match ReadChar(s, p3, '-')
          case None => None
          case Some(p4) =>
            match ReadNumber(s, p4, 1, 2)
            case None => None
            case Some((d, p5)) => Some((y, m, d, p5))
  }

  /** The SMART resolver: month 1-12 and day 1-31 are checked, and a day past the end of
      its month is moved back to the month's last day. */
  function ResolveSmart(y: int, m: int, d: int): (r: Option<int>)
    ensures r.Some? ==> ValidDate(y, m, r.value)
    ensures r.Some? <==> 1 <= m <= 12 && 1 <= d <= 31
    ensures r.Some? && ValidDate(y, m, d) ==> r.value == d
  {
    if 1 <= m <= 12 && 1 <= d <= 31 then
      Some(if d <= MonthLength(y, m) then d else MonthLength(y, m))
    else None
  }

  /** yyyy-M-d'T'HH:mm[:ss[.f]] followed by a zone offset: the instant in epoch milliseconds.
      The SMART resolver reads 24:00 (with zero seconds and fraction) as the next midnight. */
  function ParseTimestamp(s: string): Option<int>
  {
    match ReadYearMonthDay(s)
    case None => None
    case Some((y, m, d0, p1)) =>
      match ResolveSmart(y, m, d0)
      case None => None
      case Some(d) =>
        match ReadChar(s, p1, 'T')
        case None => None
        case Some(p2) =>
          match ReadTime(s, p2, false)
          case None => None
          case Some((raw, p3)) =>
            match SmartTime(raw)
            case None => None
            case Some(t) =>
              match ReadOffset(s, p3, false)
              case None => None
              case Some((offset, p4)) =>
                if p4 == |s| then Some(EpochMillis(y, m, d, t, offset)) else None
  }

  /** The whole string as yyyy-M-d. */
  function ParseDay(s: string): (r: Option<(int, int, int)>)
    ensures r.Some? ==> ValidDate(r.value.0, r.value.1, r.value.2)
  {
    match ReadYearMonthDay(s)
    case None => None
    case Some((y, m, d0, p)) =>
      if p != |s| then None
      else
        match ResolveSmart(y, m, d0)
        case None => None
        case Some(d) => Some((y, m, d))
  }

  /** The whole string as yyyy-M, with the month as read: this formatter alone leaves the
      month unchecked. */
  function ParseYearMonth(s: string): (r: Option<(int, int)>)
  {
    match ReadNumber(s, 0, 4, 4)
    case None => None
    case Some((y, p1)) =>
      match ReadChar(s, p1, '-')
      case None => None
      case Some(p2) =>
        match ReadNumber(s, p2, 1, 2)
        case None => None
        case Some((m, p3)) =>
          if p3 == |s| then Some((y, m)) else None
  }

  /** The whole string as yyyy. */
  function ParseYear(s: string): Option<int>
  {
    match ReadNumber(s, 0, 4, 4)
    case None => None
    case Some((y, p)) => if p == |s| then Some(y) else None
  }

  function DayBounds(y: int, m: int, d: int): (r: DateBounds)
    requires ValidDate(y, m, d)
    ensures r.begin == StartOfDayMillis(y, m, d)
    ensures r.end - r.begin + 1 == MILLIS_PER_DAY
  {
    var next := NextDay(y, m, d);
    DateBounds(StartOfDayMillis(y, m, d), StartOfDayMillis(next.0, next.1, next.2) - 1)
  }

  function MonthBounds(y: int, m: int): (r: DateBounds)
    requires 1 <= m <= 12
    ensures r.begin == StartOfDayMillis(y, m, 1)
    ensures r.end - r.begin + 1 == MonthLength(y, m) * MILLIS_PER_DAY
  {
    var next := NextMonthStart(y, m);
    DateBounds(StartOfDayMillis(y, m, 1), StartOfDayMillis(next.0, next.1, 1) - 1)
  }

  function YearBounds(y: int): (r: DateBounds)
    ensures r.begin == StartOfDayMillis(y, 1, 1)
    ensures r.end - r.begin + 1 == YearLength(y) * MILLIS_PER_DAY
  {
    NextYearStart(y);
    DateBounds(StartOfDayMillis(y, 1, 1), StartOfDayMillis(y + 1, 1, 1) - 1)
  }

  /** The month of a yyyy-M text that YearMonth.from refuses. */
  predicate BadYearMonth(t: string)
  {
    ParseDay(t).None? && ParseYearMonth(t).Some? && !(1 <= ParseYearMonth(t).value.1 <= 12)
  }

  /** getParseDate: `Ok(None)` stands for the null returned when no format matches, and `Err`
      for the DateTimeException of YearMonth.from, which escapes because only
      DateTimeParseException is caught. */
  function ParseDate(s: string): (r: Result<Option<DateBounds>>)
    ensures r.Ok? && r.value.Some? && ':' in s ==> r.value.value.begin == r.value.value.end
    ensures r.Ok? && r.value.Some? ==> r.value.value.begin <= r.value.value.end
    ensures r.Err? <==> ':' !in s && BadYearMonth(NormalizeSlashes(s))
  {
    var t := NormalizeSlashes(s);
    assert ':' in s <==> ':' in t by {
      if ':' in s { var i :| 0 <= i < |s| && s[i] == ':'; assert t[i] == ':'; }
      if ':' in t { var i :| 0 <= i < |t| && t[i] == ':'; assert s[i] == ':'; }
    }
    if ':' in t then
      match ParseTimestamp(t)
      case None => Ok(None)
      case Some(ms) => Ok(Some(DateBounds(ms, ms)))
    else if ParseDay(t).Some? then
      var (y, m, d) := ParseDay(t).value;
      Ok(Some(DayBounds(y, m, d)))
    else if ParseYearMonth(t).Some? then
      var (y, m) := ParseYearMonth(t).value;
      if 1 <= m <= 12 then Ok(Some(MonthBounds(y, m)))
      else Err("DateTimeException: Unable to obtain YearMonth")
    else if ParseYear(t).Some? then
      Ok(Some(YearBounds(ParseYear(t).value)))
    else Ok(None)
  }

  lemma NoSlashesUnchanged(s: string)
    requires '/' !in s
    ensures NormalizeSlashes(s) == s
  {
  }

  /** Writing '/' or '-' makes no difference to the bounds. */
  lemma SlashesAreDashes(s: string)
    ensures ParseDate(s) == ParseDate(NormalizeSlashes(s))
  {
    var t := NormalizeSlashes(s);
    assert NormalizeSlashes(t) == t;
  }

  /** A day's bounds lie inside its month's, and a month's inside its year's. */
  lemma {:induction false} PeriodsNest(y: int, m: int, d: int)
    requires ValidDate(y, m, d)
    ensures MonthBounds(y, m).begin <= DayBounds(y, m, d).begin
    ensures DayBounds(y, m, d).end <= MonthBounds(y, m).end
    ensures YearBounds(y).begin <= MonthBounds(y, m).begin
    ensures MonthBounds(y, m).end <= YearBounds(y).end
  {
    YearStep(y);
    var cumulative := [0, 31, 59, 90, 120, 151, 181, 212, 243, 273, 304, 334];
    assert DaysBeforeMonth(y, m) + MonthLength(y, m) <= YearLength(y);
  }

  /** The fields of "yyyy-MM-dd" (all digits, dashes at 4 and 7). */
  lemma ReadTenCharDate(t: string)
    requires |t| == 10 && t[4] == '-' && t[7] == '-'
    requires forall i :: 0 <= i < 10 && i != 4 && i != 7 ==> IsDigit(t[i])
    ensures ReadYearMonthDay(t) == Some((DigitsValue(t[0..4]), DigitsValue(t[5..7]), DigitsValue(t[8..10]), 10))
  {
    ReadNumberAt(t, 0, 4, 4, 4);
    ReadNumberAt(t, 5, 1, 2, 2);
    ReadNumberAt(t, 8, 1, 2, 2);
    assert ReadChar(t, 4, '-') == Some(5);
    assert ReadChar(t, 7, '-') == Some(8);
  }

  /** Day 30 of February is moved back to the 28th, and the whole day is covered. */
  lemma ExampleClampedDay()
    ensures ParseDate("2021/02/30") == Ok(Some(DateBounds(1614470400000, 1614556799999)))
  {
    ExampleClampedDayNormalized();
    ExampleClampedDayParses();
    ExampleClampedDayBounds();
    assert ParseDate("2021/02/30") == Ok(Some(DayBounds(2021, 2, 28)));
  }

  lemma ExampleClampedDayNormalized()
    ensures NormalizeSlashes("2021/02/30") == "2021-02-30"
  {
  }

  lemma ExampleClampedDayParses()
    ensures ':' !in "2021-02-30" && ParseDay("2021-02-30") == Some((2021, 2, 28))
  {
    PlainClampedDay();
    ExampleClampedDayFields();
  }

  lemma PlainClampedDay()
    ensures ':' !in "2021-02-30"
  {
    var t := "2021-02-30";
    assert forall i | 0 <= i < |t| :: t[i] in "0123-";
  }

  lemma ExampleClampedDayFields()
    ensures ReadYearMonthDay("2021-02-30") == Some((2021, 2, 30, 10))
  {
    var t := "2021-02-30";
    ReadTenCharDate(t);
    ClampedDayDigits(t);
  }

  lemma ClampedDayDigits(t: string)
    requires t == "2021-02-30"
    ensures DigitsValue(t[0..4]) == 2021 && DigitsValue(t[5..7]) == 2 && DigitsValue(t[8..10]) == 30
  {
    DigitsValue4(t[0..4]);
    DigitsValue2(t[5..7]);
    DigitsValue2(t[8..10]);
  }

  lemma ExampleClampedDayBounds()
    ensures DayBounds(2021, 2, 28) == DateBounds(1614470400000, 1614556799999)
  {
    assert EpochDay(2021, 2, 28) == 18686;
    assert StartOfDayMillis(2021, 2, 28) == 1614470400000;
    assert NextDay(2021, 2, 28) == (2021, 3, 1);
  }

  /** A month covers all of its days, 29 of them in February 2020. */
  lemma ExampleMonth()
    ensures ParseDate("2020-02") == Ok(Some(DateBounds(1580515200000, 1583020799999)))
  {
    var t := "2020-02";
    PlainMonth();
    NoSlashesUnchanged(t);
    ExampleMonthParses();
    ExampleMonthBounds();
    assert ParseDate(t) == Ok(Some(MonthBounds(2020, 2)));
  }

  lemma PlainMonth()
    ensures ':' !in "2020-02" && '/' !in "2020-02"
  {
    var t := "2020-02";
    assert forall i | 0 <= i < |t| :: t[i] in "20-";
  }

  lemma ExampleMonthBounds()
    ensures MonthBounds(2020, 2) == DateBounds(1580515200000, 1583020799999)
  {
    assert NextMonthStart(2020, 2) == (2020, 3);
  }

  lemma ExampleMonthParses()
    ensures ParseDay("2020-02") == None && ParseYearMonth("2020-02") == Some((2020, 2))
  {
    var t := "2020-02";
    ReadNumberAt(t, 0, 4, 4, 4);
    DigitsValue4(t[0..4]);
    assert ReadNumber(t, 0, 4, 4) == Some((2020, 4));
    assert ReadChar(t, 4, '-') == Some(5);
    ReadNumberAt(t, 5, 1, 2, 2);
    DigitsValue2(t[5..7]);
    assert ReadNumber(t, 5, 1, 2) == Some((2, 7));
    assert ReadChar(t, 7, '-') == None;
    assert ParseDay(t) == None;
  }

  /** Month 13 with a day is refused by every format: null. */
  lemma ExampleBadMonth()
    ensures ParseDate("2021-13-01") == Ok(None)
  {
    PlainBadMonth();
    ExampleBadMonthFields();
  }

  lemma PlainBadMonth()
    ensures ':' !in "2021-13-01" && '/' !in "2021-13-01" && NormalizeSlashes("2021-13-01") == "2021-13-01"
  {
    var t := "2021-13-01";
    assert forall i | 0 <= i < |t| :: t[i] in "0123-";
    NoSlashesUnchanged(t);
  }

  lemma ExampleBadMonthFields()
    ensures ParseDay("2021-13-01") == None && ParseYearMonth("2021-13-01") == None && ParseYear("2021-13-01") == None
  {
    var t := "2021-13-01";
    ReadTenCharDate(t);
    DigitsValue2(t[5..7]);
    assert ReadYearMonthDay(t).value.1 == 13;
    ReadNumberAt(t, 0, 4, 4, 4);
    ReadNumberAt(t, 5, 1, 2, 2);
  }

  /** Month 13 without a day passes the yyyy-M formatter, and YearMonth.from throws. */
  lemma ExampleBadYearMonth()
    ensures ParseDate("2021-13").Err?
  {
    var t := "2021-13";
    PlainBadYearMonth();
    ExampleBadYearMonthFields();
    assert BadYearMonth(t);
  }

  lemma PlainBadYearMonth()
    ensures ':' !in "2021-13" && '/' !in "2021-13" && NormalizeSlashes("2021-13") == "2021-13"
  {
    var t := "2021-13";
    assert forall i | 0 <= i < |t| :: t[i] in "0123-";
    NoSlashesUnchanged(t);
  }

  lemma ExampleBadYearMonthFields()
    ensures ParseDay("2021-13") == None && ParseYearMonth("2021-13") == Some((2021, 13))
  {
    var t := "2021-13";
    ReadNumberAt(t, 0, 4, 4, 4);
    DigitsValue4(t[0..4]);
    assert ReadNumber(t, 0, 4, 4) == Some((2021, 4));
    assert ReadChar(t, 4, '-') == Some(5);
    ReadNumberAt(t, 5, 1, 2, 2);
    DigitsValue2(t[5..7]);
    assert ReadNumber(t, 5, 1, 2) == Some((13, 7));
    assert ReadChar(t, 7, '-') == None;
  }
}
