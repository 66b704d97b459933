/** The server's query parser hooks (ZuliaQueryParser): length-field rewriting, the bounds of
    numeric and date range queries, exact numeric term queries and the field-list wildcard.
    Lucene's query objects are modelled by the fields and bounds they are built from. */
module QueryParser {
  import opened Wrappers
  import opened JavaInt
  import opened FieldTypes
  import opened Calendar

  /** What the parser is configured with: the naming constants, the field that lists the
      fields a document has, and the type of each index field (`getFieldTypeForIndexField`). */
  datatype ParserConfig = ParserConfig(naming: Naming, fieldsListField: string, fieldTypes: map<string, FieldType>)
  {
    function TypeOf(field: string): Option<FieldType>
    {
      if field in fieldTypes then Some(fieldTypes[field]) else None
    }
  }

  /** `|||f|||` names the list length of f and `|f|` its character length; `||f||` and
      names without bars are left alone. `substring` throws when the bars overlap. */
  function RewriteLengthFields(n: Naming, field: string): (r: Result<string>)
    ensures r.Err? ==> |field| < 6
  {
    if StartsWith(field, "|||") && EndsWith(field, "|||") then
      if |field| < 6 then Err("StringIndexOutOfBoundsException")
      else Ok(n.listLengthPrefix + field[3..|field| - 3])
    else if StartsWith(field, "||") && EndsWith(field, "||") then Ok(field)
    else if StartsWith(field, "|") && EndsWith(field, "|") then
      if |field| < 2 then Err("StringIndexOutOfBoundsException")
      else Ok(n.charLengthPrefix + field[1..|field| - 1])
    else Ok(field)
  }

  /** Exactly the names made of one, three, four or five bars make the rewrite throw. */
  lemma RewriteFailsExactly(n: Naming, field: string)
    ensures RewriteLengthFields(n, field).Err? <==> field in {"|", "|||", "||||", "|||||"}
  {
    if RewriteLengthFields(n, field).Err? {
      if |field| == 1 {
        assert field == "|";
      } else {
        assert StartsWith(field, "|||") && EndsWith(field, "|||");
        assert forall i :: 0 <= i < |field| ==> field[i] == '|' by {
          forall i | 0 <= i < |field| ensures field[i] == '|' {
            if i < 3 { assert field[..3][i] == '|'; }
            else { assert field[|field| - 3..][i - (|field| - 3)] == '|'; }
          }
        }
        assert field == "|||" || field == "||||" || field == "|||||";
      }
    }
  }

  /** The list-length wrap of any field name is rewritten to its list-length index field. */
  lemma ListWrapRoundTrip(n: Naming, f: string)
    ensures RewriteLengthFields(n, ListLengthWrap(f)) == Ok(ListLengthIndexField(n, f))
  {
  }

  /** The character-length wrap round-trips for every non-empty name that does not start with
      a bar; the wrap of the empty name is "||", which is left alone. */
  lemma CharWrapRoundTrip(n: Naming, f: string)
    requires |f| > 0 && f[0] != '|'
    ensures RewriteLengthFields(n, CharLengthWrap(f)) == Ok(CharLengthIndexField(n, f))
  {
    var w := CharLengthWrap(f);
    assert !StartsWith(w, "||");
  }

  lemma EmptyCharWrapUnchanged(n: Naming)
    ensures RewriteLengthFields(n, CharLengthWrap("")) == Ok("||")
  {
  }

  /** A name that does not both start and end with a bar is never rewritten. */
  lemma PlainNamesUnchanged(n: Naming, field: string)
    requires !(StartsWith(field, "|") && EndsWith(field, "|"))
    ensures RewriteLengthFields(n, field) == Ok(field)
  {
  }

  predicate IsLengthField(n: Naming, field: string)
  {
    IsCharLengthField(n, field) || IsListLengthField(n, field)
  }

  // ---------------------------------------------------------------------------
  // Integer.parseInt / Long.parseLong on ASCII digits.

  /** The text after one leading sign, if there is one. */
  function WithoutSign(s: string): (r: string)
    ensures |r| <= |s|
  {
    if |s| > 0 && (s[0] == '+' || s[0] == '-') then s[1..] else s
  }

  predicate AllDigits(s: string)
  {
    forall i :: 0 <= i < |s| ==> IsDigit(s[i])
  }

  function ParseInteger(s: string, lo: int, hi: int): (r: Option<int>)
    ensures r.Some? ==> lo <= r.value <= hi
  {
    var digits := WithoutSign(s);
    if |digits| == 0 || !AllDigits(digits) then None
    else
      var v: int := if s[0] == '-' then 0 - DigitsValue(digits) else DigitsValue(digits);
      if lo <= v <= hi then Some(v) else None
  }

  function ParseInt(s: string): (r: Option<int>)
    ensures r.Some? ==> IsInt(r.value)
  {
    ParseInteger(s, INT_MIN, INT_MAX)
  }

  function ParseLong(s: string): (r: Option<int>)
    ensures r.Some? ==> IsLong(r.value)
  {
    ParseInteger(s, LONG_MIN, LONG_MAX)
  }

  // ---------------------------------------------------------------------------
  // Float.parseFloat / Double.parseDouble: which texts they accept (the values they give
  // are not modelled).

  /** String.trim: without the leading and trailing characters at or below U+0020. */
  function Trim(s: string): (r: string)
    ensures |r| > 0 ==> r[0] > ' ' && r[|r| - 1] > ' '
  {
    TrimEnd(TrimStart(s))
  }

  function TrimStart(s: string): (r: string)
    ensures |r| > 0 ==> r[0] > ' '
  {
    if |s| > 0 && s[0] <= ' ' then TrimStart(s[1..]) else s
  }

  function TrimEnd(s: string): (r: string)
    ensures |r| <= |s| && r == s[..|r|]
    ensures |r| > 0 ==> r[|r| - 1] > ' '
  {
    if |s| > 0 && s[|s| - 1] <= ' ' then TrimEnd(s[..|s| - 1]) else s
  }

  predicate IsHexLetter(c: char) { 'a' <= c <= 'f' || 'A' <= c <= 'F' }

  /** How many decimal (or, with `hex`, hexadecimal) digits s starts with. */
  function DigitRun(s: string, hex: bool): (n: nat)
    ensures n <= |s|
  {
    if |s| == 0 || !(IsDigit(s[0]) || (hex && IsHexLetter(s[0]))) then 0 else 1 + DigitRun(s[1..], hex)
  }

  /** Nothing, or one of the suffixes f, F, d and D. */
  predicate SuffixOnly(s: string)
  {
    |s| == 0 || (|s| == 1 && s[0] in "fFdD")
  }

  /** Digits, an optional point and more digits, with at least one digit in all: the text
      after them, or None. */
  function Mantissa(s: string, hex: bool): Option<string>
  {
    var a := DigitRun(s, hex);
    var rest := s[a..];
    if |rest| > 0 && rest[0] == '.' then
      var b := DigitRun(rest[1..], hex);
      if a + b == 0 then None else Some(rest[1..][b..])
    else if a == 0 then None else Some(rest)
  }

  /** An exponent (one of the `marker` letters, an optional sign and at least one decimal
      digit), required or optional, followed by nothing but a suffix. */
  predicate ExponentAndSuffix(s: string, marker: string, required: bool)
  {
    if |s| > 0 && s[0] in marker then
      var e := WithoutSign(s[1..]);
      var c := DigitRun(e, false);
      c > 0 && SuffixOnly(e[c..])
    else !required && SuffixOnly(s)
  }

  predicate HexPrefix(t: string)
  {
    |t| >= 2 && t[0] == '0' && (t[1] == 'x' || t[1] == 'X')
  }

  /** The texts Float.parseFloat and Double.parseDouble accept: after trimming, an optional
      sign, then NaN, Infinity, a hexadecimal significand with a required binary exponent,
      or decimal digits with at most one point and an optional exponent; the numeric forms may
      end in f, F, d or D. Any other text throws NumberFormatException. */
  predicate FloatSyntax(text: string)
  {
    var t := WithoutSign(Trim(text));
    t == "NaN" || t == "Infinity" ||
    (HexPrefix(t) && Mantissa(t[2..], true).Some? && ExponentAndSuffix(Mantissa(t[2..], true).value, "pP", true)) ||
    (!HexPrefix(t) && Mantissa(t, false).Some? && ExponentAndSuffix(Mantissa(t, false).value, "eE", false))
  }

  lemma {:induction false} DigitRunAll(s: string, hex: bool)
    requires AllDigits(s)
    ensures DigitRun(s, hex) == |s|
  {
    if |s| > 0 {
      DigitRunAll(s[1..], hex);
    }
  }

  /** Every text Integer.parseInt or Long.parseLong accepts, the floating-point parsers
      accept too. */
  lemma IntegerTextIsFloatText(s: string, lo: int, hi: int)
    requires ParseInteger(s, lo, hi).Some?
    ensures FloatSyntax(s)
  {
    var digits := WithoutSign(s);
    assert s[|s| - 1] == digits[|digits| - 1];
    assert s[0] == '-' || s[0] == '+' || s[0] == digits[0];
    assert TrimStart(s) == s;
    assert TrimEnd(s) == s;
    assert WithoutSign(s) == digits;
    DigitRunAll(digits, false);
    DigitRunAll(digits, true);
    assert digits[|digits|..] == "";
    assert Mantissa(digits, false) == Some("");
  }

  /** An unsigned decimal text with no blanks around it is a float text exactly when it is a
      special value or a decimal mantissa followed by an optional exponent and suffix. */
  lemma DecimalText(t: string)
    requires |t| > 0 && t[0] > ' ' && t[|t| - 1] > ' ' && t[0] != '+' && t[0] != '-' && !HexPrefix(t)
    ensures FloatSyntax(t) <==>
      t == "NaN" || t == "Infinity" || (Mantissa(t, false).Some? && ExponentAndSuffix(Mantissa(t, false).value, "eE", false))
  {
    assert TrimStart(t) == t;
    assert TrimEnd(t) == t;
  }

  /** Texts that trim to the same text are accepted alike. */
  lemma SameTrimmed(s: string, t: string)
    requires Trim(s) == Trim(t)
    ensures FloatSyntax(s) == FloatSyntax(t)
  {
  }

  /** Surrounding blanks are trimmed, and an exponent and a suffix are allowed. */
  lemma FloatSyntaxTrimmedExponent()
    ensures FloatSyntax(" 1.5e3f ")
  {
    var t := "1.5e3f";
    DecimalText(t);
    MantissaExample();
    ExponentExample();
    TrimExample();
    SameTrimmed(" 1.5e3f ", t);
  }

  /** The mantissa of "1.5e3f" leaves its exponent and suffix. */
  lemma MantissaExample()
    ensures Mantissa("1.5e3f", false) == Some("e3f")
  {
    var t := "1.5e3f";
    assert DigitRun(t, false) == 1;
    assert t[1..][1..] == "5e3f";
    assert DigitRun("5e3f", false) == 1;
  }

  /** "e3f" is a decimal exponent followed by a suffix. */
  lemma ExponentExample()
    ensures ExponentAndSuffix("e3f", "eE", false)
  {
    var e := "e3f"[1..];
    assert e == "3f" && WithoutSign(e) == e;
    assert DigitRun(e[1..], false) == 0;
    assert DigitRun(e, false) == 1;
    assert e[1..] == "f";
  }

  /** Blanks around "1.5e3f" are trimmed away. */
  lemma TrimExample()
    ensures Trim(" 1.5e3f ") == Trim("1.5e3f") == "1.5e3f"
  {
    var s := " 1.5e3f ";
    var t := "1.5e3f";
    var inner := s[1..];
    assert TrimStart(s) == inner;
    assert inner[..|inner| - 1] == t;
    assert TrimEnd(inner) == TrimEnd(t) == t;
  }

  /** A hexadecimal significand with its binary exponent is taken. */
  lemma FloatSyntaxHex()
    ensures FloatSyntax("0x1.8p1")
  {
    var t := "0x1.8p1";
    assert Trim(t) == t && WithoutSign(t) == t && HexPrefix(t);
    assert t[2..] == "1.8p1";
    assert DigitRun("1.8p1", true) == 1;
    assert DigitRun("8p1", true) == 1;
    assert Mantissa("1.8p1", true) == Some("p1");
    assert DigitRun("1", false) == 1;
  }

  /** Without the binary exponent a hexadecimal significand is refused. */
  lemma FloatSyntaxHexNeedsExponent()
    ensures !FloatSyntax("0x1.8")
  {
    var t := "0x1.8";
    assert Trim(t) == t && WithoutSign(t) == t && HexPrefix(t);
    assert t[2..] == "1.8";
    assert DigitRun("1.8", true) == 1;
    assert DigitRun("8", true) == 1;
    assert Mantissa("1.8", true) == Some("");
  }

  /** A second point is refused. */
  lemma FloatSyntaxSecondPoint()
    ensures !FloatSyntax("1.5.2")
  {
    var t := "1.5.2";
    DecimalText(t);
    assert DigitRun(t, false) == 1;
    assert t[1..][1..] == "5.2";
    assert DigitRun("5.2", false) == 1;
    assert Mantissa(t, false) == Some(".2");
  }

  /** An exponent without digits is refused. */
  lemma FloatSyntaxBareExponent()
    ensures !FloatSyntax("1e")
  {
    var t := "1e";
    DecimalText(t);
    assert DigitRun(t, false) == 1;
    assert Mantissa(t, false) == Some("e");
    assert DigitRun("", false) == 0;
  }

  /** The special values keep their case. */
  lemma FloatSyntaxSpecial()
    ensures FloatSyntax("-Infinity") && !FloatSyntax("nan")
  {
    assert Trim("-Infinity") == "-Infinity";
    assert Trim("nan") == "nan";
    assert DigitRun("nan", false) == 0;
  }

  // ---------------------------------------------------------------------------
  // getDateAsLong: an ISO instant when the text has a ':', an ISO local date otherwise.

  /** ISO_LOCAL_DATE's year: four digits; or five to ten behind a '+'; or four to ten behind a
      '-', never all zeros. */
  function ReadIsoYear(s: string, pos: nat): (r: Option<(int, nat)>)
    requires pos <= |s|
    ensures r.Some? ==> pos + 4 <= r.value.1 <= |s|
  {
    if pos < |s| && (s[pos] == '+' || s[pos] == '-') then
      var n := CountDigits(s, pos + 1, 10);
      var v: int := DigitsValue(s[pos + 1..pos + 1 + n]);
      if n < 4 then None
      else if s[pos] == '+' then (if n == 4 then None else Some((v, pos + 1 + n)))
      else if v == 0 then None
      else Some((0 - v, pos + 1 + n))
    else
      var n := CountDigits(s, pos, 10);
      if n != 4 then None else Some((DigitsValue(s[pos..pos + 4]), pos + 4))
  }

  /** The year, '-', a two-digit month, '-', a two-digit day, checked strictly against the
      calendar. */
  function ParseIsoLocalDate(s: string, pos: nat): (r: Option<(int, int, int, nat)>)
    requires pos <= |s|
    ensures r.Some? ==> ValidDate(r.value.0, r.value.1, r.value.2) && r.value.3 <= |s|
  {
    match ReadIsoYear(s, pos)
    case None => None
    case Some((y, p1)) =>
      match ReadChar(s, p1, '-')
      case None => None
      case Some(p2) =>
        match ReadNumber(s, p2, 2, 2)
        case None => None
        case Some((m, p3)) =>
          match ReadChar(s, p3, '-')
          case None => None
          case Some(p4) =>
            match ReadNumber(s, p4, 2, 2)
            case None => None
            case Some((d, p5)) => if ValidDate(y, m, d) then Some((y, m, d, p5)) else None
  }

  /** Instant.parse (ISO_INSTANT, which ignores case): a local date, 'T', HH:mm:ss with an
      optional fraction, and a zone offset; 24:00:00 is the next midnight and 23:59:60 reads
      as 23:59:59. toEpochMilli throws when the milliseconds leave the long range. */
  function ParseInstant(s: string): (r: Option<int>)
    ensures r.Some? ==> IsLong(r.value)
  {
    match ParseIsoLocalDate(s, 0)
    case None => None
    case Some((y, m, d, p1)) =>
      match ReadLetter(s, p1, 'T', true)
      case None => None
      case Some(p2) =>
        match ReadTime(s, p2, true)
        case None => None
        case Some((raw, p3)) =>
          match ReadOffset(s, p3, true)
          case None => None
          case Some((offset, p4)) =>
            if p4 != |s| then None
            else
              match InstantTime(raw)
              case None => None
              case Some(t) =>
                var ms := EpochMillis(y, m, d, t, offset);
                if IsLong(ms) then Some(ms) else None
  }

  /** `None` stands for the exception thrown on text of neither form (a DateTimeParseException,
      or an ArithmeticException from toEpochMilli). */
  function DateAsLong(s: string): (r: Option<int>)
    ensures r.Some? ==> IsLong(r.value)
    ensures ':' !in s && r.Some? ==> r.value % MILLIS_PER_DAY == 0
  {
    if ':' in s then ParseInstant(s)
    else
      match ParseIsoLocalDate(s, 0)
      case None => None
      case Some((y, m, d, p)) =>
        if p == |s| && IsLong(StartOfDayMillis(y, m, d)) then Some(StartOfDayMillis(y, m, d)) else None
  }

  // ---------------------------------------------------------------------------
  // getNumericOrDateRange

  /** A Lucene point range query: the field and its inclusive bounds. Floating-point ranges
      keep the request, since `Math.nextUp`/`nextDown` are not modelled. */
  datatype PointRange =
    | IntPointRange(field: string, min: int, max: int)
    | LongPointRange(field: string, min: int, max: int)
    | FloatingPointRange(field: string, start: Option<string>, end: Option<string>, startInclusive: bool, endInclusive: bool)

  /** What a range request admits: a value above (or at) the start and below (or at) the end,
      where a missing bound admits everything. */
  predicate Admits(v: int, start: Option<int>, end: Option<int>, startInclusive: bool, endInclusive: bool)
  {
    (start.None? || (if startInclusive then start.value <= v else start.value < v)) &&
    (end.None? || (if endInclusive then v <= end.value else v < end.value))
  }

  /** Bounds of an int range: a missing bound is Integer.MIN/MAX_VALUE, an exclusive bound moves
      by one with Math.addExact, which throws on overflow. */
  function IntBounds(start: Option<string>, end: Option<string>, startInclusive: bool, endInclusive: bool): (r: Result<(int, int)>)
    ensures r.Ok? ==> IsInt(r.value.0) && IsInt(r.value.1)
    ensures r.Ok? && start.None? && startInclusive ==> r.value.0 == INT_MIN
    ensures r.Ok? && end.None? && endInclusive ==> r.value.1 == INT_MAX
  {
    var min := if start.None? then Some(INT_MIN) else ParseInt(start.value);
    var max := if end.None? then Some(INT_MAX) else ParseInt(end.value);
    if min.None? || max.None? then Err("NumberFormatException")
    else
      var lo := if startInclusive then (true, min.value) else AddExact32(min.value, 1);
      var hi := if endInclusive then (true, max.value) else AddExact32(max.value, -1);
      if !lo.0 || !hi.0 then Err("ArithmeticException") else Ok((lo.1, hi.1))
  }

  function LongBounds(start: Option<string>, end: Option<string>, startInclusive: bool, endInclusive: bool): (r: Result<(int, int)>)
    ensures r.Ok? ==> IsLong(r.value.0) && IsLong(r.value.1)
    ensures r.Ok? && start.None? && startInclusive ==> r.value.0 == LONG_MIN
    ensures r.Ok? && end.None? && endInclusive ==> r.value.1 == LONG_MAX
  {
    var min := if start.None? then Some(LONG_MIN) else ParseLong(start.value);
    var max := if end.None? then Some(LONG_MAX) else ParseLong(end.value);
    if min.None? || max.None? then Err("NumberFormatException")
    else
      var lo := if startInclusive then (true, min.value) else AddExact64(min.value, 1);
      var hi := if endInclusive then (true, max.value) else AddExact64(max.value, -1);
      if !lo.0 || !hi.0 then Err("ArithmeticException") else Ok((lo.1, hi.1))
  }

  /** Bounds of a date range, as written: an exclusive end is moved UP by one millisecond. */
  function DateBoundsAsWritten(start: Option<string>, end: Option<string>, startInclusive: bool, endInclusive: bool): (r: Result<(int, int)>)
  {
    var min := if start.None? then Some(LONG_MIN) else DateAsLong(start.value);
    var max := if end.None? then Some(LONG_MAX) else DateAsLong(end.value);
    if min.None? || max.None? || !IsLong(min.value) || !IsLong(max.value) then Err("DateTimeParseException")
    else
      var lo := if startInclusive then (true, min.value) else AddExact64(min.value, 1);
      var hi := if endInclusive then (true, max.value) else AddExact64(max.value, 1);
      if !lo.0 || !hi.0 then Err("ArithmeticException") else Ok((lo.1, hi.1))
  }

  /** Bounds of a date range with an exclusive end moved down by one, like the int and long ranges. */
  function DateBounds(start: Option<string>, end: Option<string>, startInclusive: bool, endInclusive: bool): (r: Result<(int, int)>)
    ensures r.Ok? ==> IsLong(r.value.0) && IsLong(r.value.1)
  {
    var min := if start.None? then Some(LONG_MIN) else DateAsLong(start.value);
    var max := if end.None? then Some(LONG_MAX) else DateAsLong(end.value);
    if min.None? || max.None? || !IsLong(min.value) || !IsLong(max.value) then Err("DateTimeParseException")
    else
      var lo := if startInclusive then (true, min.value) else AddExact64(min.value, 1);
      var hi := if endInclusive then (true, max.value) else AddExact64(max.value, -1);
      if !lo.0 || !hi.0 then Err("ArithmeticException") else Ok((lo.1, hi.1))
  }

  /** getNumericOrDateRange for a field of the given type; any other type throws. */
  function NumericOrDateRange(field: string, start: Option<string>, end: Option<string>,
                              startInclusive: bool, endInclusive: bool, t: FieldType): (r: Result<PointRange>)
    ensures !IsNumericOrDate(t) ==> r.Err?
    ensures r.Ok? && r.value.IntPointRange? ==>
      IsNumericInt(t) && IntBounds(start, end, startInclusive, endInclusive) == Ok((r.value.min, r.value.max))
    ensures IsFloatingPoint(t) ==>
      (r.Ok? <==> (start.None? || FloatSyntax(start.value)) && (end.None? || FloatSyntax(end.value)))
  {
    if IsNumericInt(t) then
      match IntBounds(start, end, startInclusive, endInclusive)
      case Err(e) => Err(e)
      case Ok((lo, hi)) => Ok(IntPointRange(field, lo, hi))
    else if IsNumericLong(t) then
      match LongBounds(start, end, startInclusive, endInclusive)
      case Err(e) => Err(e)
      case Ok((lo, hi)) => Ok(LongPointRange(field, lo, hi))
    else if IsFloatingPoint(t) then
      if (start.Some? && !FloatSyntax(start.value)) || (end.Some? && !FloatSyntax(end.value)) then Err("NumberFormatException")
      else Ok(FloatingPointRange(field, start, end, startInclusive, endInclusive))
    else if IsDate(t) then
      match DateBounds(start, end, startInclusive, endInclusive)
      case Err(e) => Err(e)
      case Ok((lo, hi)) => Ok(LongPointRange(field, lo, hi))
    else Err("Not a valid numeric field <" + field + ">")
  }

  /** The int bounds admit exactly the ints the request admits. (An open bound marked
      exclusive drops the extreme value itself, so open bounds are taken as inclusive.) */
  lemma IntBoundsExact(start: Option<string>, end: Option<string>, startInclusive: bool, endInclusive: bool, v: int)
    requires IntBounds(start, end, startInclusive, endInclusive).Ok?
    requires start.Some? || startInclusive
    requires end.Some? || endInclusive
    requires IsInt(v)
    ensures var (lo, hi) := IntBounds(start, end, startInclusive, endInclusive).value;
      lo <= v <= hi <==>
      Admits(v, if start.None? then None else ParseInt(start.value), if end.None? then None else ParseInt(end.value), startInclusive, endInclusive)
  {
  }

  /** An exclusive bound at the end of the int range cannot be moved, and the request throws. */
  lemma IntBoundsOverflow(end: string)
    requires ParseInt(end) == Some(INT_MIN)
    ensures IntBounds(None, Some(end), true, false).Err?
  {
  }

  /** The corrected date bounds admit exactly the instants the request admits. */
  lemma DateBoundsExact(start: Option<string>, end: Option<string>, startInclusive: bool, endInclusive: bool, v: int)
    requires DateBounds(start, end, startInclusive, endInclusive).Ok?
    requires start.Some? || startInclusive
    requires end.Some? || endInclusive
    requires IsLong(v)
    ensures var (lo, hi) := DateBounds(start, end, startInclusive, endInclusive).value;
      lo <= v <= hi <==>
      Admits(v, if start.None? then None else DateAsLong(start.value), if end.None? then None else DateAsLong(end.value), startInclusive, endInclusive)
  {
  }

  /** As written, an exclusive date end admits the end instant itself and the one after it,
      both of which the request excludes. */
  lemma DateBoundsAsWrittenAdmitsEnd(end: string, e: int)
    requires DateAsLong(end) == Some(e) && IsLong(e) && e < LONG_MAX
    ensures DateBoundsAsWritten(None, Some(end), true, false) == Ok((LONG_MIN, e + 1))
    ensures LONG_MIN <= e < e + 1 <= e + 1
    ensures !Admits(e, None, Some(e), true, false) && !Admits(e + 1, None, Some(e), true, false)
  {
  }

  /** The fields of a ten-character "yyyy-MM-dd". */
  lemma ReadIsoDate(t: string)
    requires |t| == 10 && t[4] == '-' && t[7] == '-'
    requires forall i :: 0 <= i < 10 && i != 4 && i != 7 ==> IsDigit(t[i])
    requires ValidDate(DigitsValue(t[0..4]), DigitsValue(t[5..7]), DigitsValue(t[8..10]))
    ensures ParseIsoLocalDate(t, 0).Some?
    ensures ParseIsoLocalDate(t, 0).value.0 == DigitsValue(t[0..4])
    ensures ParseIsoLocalDate(t, 0).value.1 == DigitsValue(t[5..7])
    ensures ParseIsoLocalDate(t, 0).value.2 == DigitsValue(t[8..10])
    ensures ParseIsoLocalDate(t, 0).value.3 == 10
  {
    CountDigitsAt(t, 0, 10, 4);
    ReadNumberAt(t, 5, 2, 2, 2);
    ReadNumberAt(t, 8, 2, 2, 2);
    assert ReadChar(t, 4, '-') == Some(5);
    assert ReadChar(t, 7, '-') == Some(8);
  }

  lemma ExampleNewYear2020()
    ensures DateAsLong("2020-01-01") == Some(1577836800000)
  {
    var t := "2020-01-01";
    NewYear2020Fields(t);
    NewYear2020Millis();
  }

  lemma NewYear2020Fields(t: string)
    requires t == "2020-01-01"
    ensures ':' !in t && ParseIsoLocalDate(t, 0) == Some((2020, 1, 1, 10))
  {
    assert forall i | 0 <= i < |t| :: t[i] in "012-";
    DigitsValue4(t[0..4]);
    DigitsValue2(t[5..7]);
    DigitsValue2(t[8..10]);
    ReadIsoDate(t);
  }

  lemma NewYear2020Millis()
    ensures StartOfDayMillis(2020, 1, 1) == 1577836800000 && IsLong(1577836800000)
  {
    assert EpochDay(2020, 1, 1) == 18262;
  }

  /** The range [* TO 2020-01-01} on a date field, as written, reaches 1 ms past midnight. */
  lemma ExampleExclusiveDateEnd()
    ensures DateBoundsAsWritten(None, Some("2020-01-01"), true, false) == Ok((LONG_MIN, 1577836800001))
    ensures DateBounds(None, Some("2020-01-01"), true, false) == Ok((LONG_MIN, 1577836799999))
  {
    ExampleNewYear2020();
  }

  // ---------------------------------------------------------------------------
  // getRangeQuery, newTermQuery and getWildcardQuery

  datatype Query =
    | Range(range: PointRange)
    | TextRange(field: string, start: Option<string>, end: Option<string>, startInclusive: bool, endInclusive: bool)
    | IntExact(field: string, intValue: int)
    | LongExact(field: string, longValue: int)
    | FloatingExact(field: string, text: string)
    | MatchNoDocs(field: string)
    | Term(field: string, text: string)
    | Wildcard(field: string, text: string)

  /** Length fields are ranged as ints, numeric and date fields by their type, anything else
      as a text range. */
  function RangeQuery(c: ParserConfig, field0: string, start: Option<string>, end: Option<string>,
                      startInclusive: bool, endInclusive: bool): (r: Result<Query>)
    ensures r.Ok? && r.value.Range? && r.value.range.IntPointRange? ==>
      IntBounds(start, end, startInclusive, endInclusive) == Ok((r.value.range.min, r.value.range.max))
  {
    match RewriteLengthFields(c.naming, field0)
    case Err(e) => Err(e)
    case Ok(field) =>
      if IsLengthField(c.naming, field) then
        match NumericOrDateRange(field, start, end, startInclusive, endInclusive, NUMERIC_INT)
        case Err(e) => Err(e)
        case Ok(p) => Ok(Range(p))
      else if c.TypeOf(field).Some? && IsNumericOrDate(c.TypeOf(field).value) then
        match NumericOrDateRange(field, start, end, startInclusive, endInclusive, c.TypeOf(field).value)
        case Err(e) => Err(e)
        case Ok(p) => Ok(Range(p))
      else Ok(TextRange(field, start, end, startInclusive, endInclusive))
  }

  /** A term on a length field must be an int (a parse failure throws); on an int, long or
      date field a value that does not parse matches no documents. */
  function NewTermQuery(c: ParserConfig, field0: string, text: string): (r: Result<Query>)
    ensures r.Ok? && r.value.IntExact? ==> ParseInt(text) == Some(r.value.intValue)
    ensures r.Ok? && r.value.LongExact? ==> ParseLong(text) == Some(r.value.longValue) || DateAsLong(text) == Some(r.value.longValue)
    ensures r.Ok? && r.value.FloatingExact? ==> FloatSyntax(text)
  {
    match RewriteLengthFields(c.naming, field0)
    case Err(e) => Err(e)
    case Ok(field) =>
      if IsLengthField(c.naming, field) then
        match ParseInt(text)
        case None => Err("NumberFormatException")
        case Some(v) => Ok(IntExact(field, v))
      else if c.TypeOf(field).Some? && IsNumericOrDate(c.TypeOf(field).value) then
        var t := c.TypeOf(field).value;
        if IsDate(t) then
          match DateAsLong(text)
          case None => Ok(MatchNoDocs(field))
          case Some(v) => Ok(LongExact(field, v))
        else if IsNumericInt(t) then
          match ParseInt(text)
          case None => Ok(MatchNoDocs(field))
          case Some(v) => Ok(IntExact(field, v))
        else if IsNumericLong(t) then
          match ParseLong(text)
          case None => Ok(MatchNoDocs(field))
          case Some(v) => Ok(LongExact(field, v))
        else if FloatSyntax(text) then Ok(FloatingExact(field, text))
        else Ok(MatchNoDocs(field))
      else Ok(Term(field, text))
  }

  /** On a numeric field, text that does not parse gives a query matching nothing, not an error. */
  lemma UnparsableNumberMatchesNothing(c: ParserConfig, field: string, text: string)
    requires RewriteLengthFields(c.naming, field) == Ok(field) && !IsLengthField(c.naming, field)
    requires c.TypeOf(field) == Some(NUMERIC_INT) && ParseInt(text).None?
    ensures NewTermQuery(c, field, text) == Ok(MatchNoDocs(field))
  {
  }

  /** On a float or double field, text the floating-point parser refuses gives a query
      matching nothing, and text it accepts an exact query. */
  lemma FloatTermQuery(c: ParserConfig, field: string, text: string)
    requires RewriteLengthFields(c.naming, field) == Ok(field) && !IsLengthField(c.naming, field)
    requires c.TypeOf(field) == Some(NUMERIC_FLOAT) || c.TypeOf(field) == Some(NUMERIC_DOUBLE)
    ensures NewTermQuery(c, field, text) == Ok(if FloatSyntax(text) then FloatingExact(field, text) else MatchNoDocs(field))
  {
    var t := c.TypeOf(field).value;
    assert IsNumericOrDate(t) && !IsDate(t) && !IsNumericInt(t) && !IsNumericLong(t);
  }

  /** A lone '*' on a named field asks for documents that have the field. */
  function WildcardQuery(c: ParserConfig, field: string, text: string): (r: Query)
    ensures r.Term? <==> text == "*" && field != "*"
    ensures r.Term? ==> r == Term(c.fieldsListField, field)
    ensures r.Wildcard? ==> r == Wildcard(field, text)
  {
    if text == "*" && field != "*" then Term(c.fieldsListField, field) else Wildcard(field, text)
  }
}
