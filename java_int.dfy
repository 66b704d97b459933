/** Java's fixed-width integer arithmetic, written out over Dafny's unbounded integers. */
module JavaInt {

  const INT_MIN: int := -0x8000_0000
  const INT_MAX: int := 0x7FFF_FFFF
  const LONG_MIN: int := -0x8000_0000_0000_0000
  const LONG_MAX: int := 0x7FFF_FFFF_FFFF_FFFF

  predicate IsInt(x: int) { INT_MIN <= x <= INT_MAX }
  predicate IsLong(x: int) { LONG_MIN <= x <= LONG_MAX }

  /** Two's-complement wrap-around of a 32-bit `int` result. */
  function Wrap32(x: int): (r: int)
    ensures IsInt(r)
    ensures (r - x) % 0x1_0000_0000 == 0
    ensures IsInt(x) ==> r == x
  {
    var m := x % 0x1_0000_0000;
    if m > INT_MAX then m - 0x1_0000_0000 else m
  }

  /** Java's `%` by a positive divisor: the remainder takes the sign of the dividend
      (truncating division), unlike Dafny's Euclidean `%`. */
  function JavaRem(a: int, b: int): (r: int)
    requires b > 0
    ensures a >= 0 ==> 0 <= r < b
    ensures a < 0 ==> -b < r <= 0
    ensures a >= 0 ==> r == a % b
  {
    if a >= 0 then a % b else -((-a) % b)
  }

  /** `Math.abs` on a Java `int`: the negation wraps, so `abs(Integer.MIN_VALUE)` stays negative. */
  function JavaAbs32(x: int): (r: int)
    requires IsInt(x)
    ensures IsInt(r)
    ensures x != INT_MIN ==> r >= 0 && (r == x || r == -x)
    ensures x == INT_MIN ==> r == INT_MIN
  {
    Wrap32(if x < 0 then -x else x)
  }

  /** `Integer.compare` / `Long.compare`: only the sign of the result is ever used. */
  function CompareInts(a: int, b: int): (r: int)
    ensures r == -1 || r == 0 || r == 1
    ensures r < 0 <==> a < b
    ensures r == 0 <==> a == b
  {
    if a < b then -1 else if a == b then 0 else 1
  }

  /** `Double.compare` on values that are neither NaN nor a signed zero. */
  function CompareReals(a: real, b: real): (r: int)
    ensures r == -1 || r == 0 || r == 1
    ensures r < 0 <==> a < b
    ensures r == 0 <==> a == b
  {
    if a < b then -1 else if a == b then 0 else 1
  }

  /** Lexicographic order on code sequences, reduced to its sign. */
  function CompareUnits(a: seq<int>, b: seq<int>): (r: int)
    ensures r == -1 || r == 0 || r == 1
    ensures r == 0 <==> a == b
    decreases |a|
  {
    if |a| == 0 && |b| == 0 then 0
    else if |a| == 0 then -1
    else if |b| == 0 then 1
    else if a[0] < b[0] then -1
    else if a[0] > b[0] then 1
    else
      assert a == [a[0]] + a[1..] && b == [b[0]] + b[1..];
      CompareUnits(a[1..], b[1..])
  }

  lemma {:induction false} CompareUnitsAntisymmetric(a: seq<int>, b: seq<int>)
    ensures CompareUnits(a, b) == -CompareUnits(b, a)
    decreases |a|
  {
    if |a| > 0 && |b| > 0 && a[0] == b[0] {
      CompareUnitsAntisymmetric(a[1..], b[1..]);
    }
  }

  lemma {:induction false} CompareUnitsTransitive(a: seq<int>, b: seq<int>, c: seq<int>)
    requires CompareUnits(a, b) <= 0 && CompareUnits(b, c) <= 0
    ensures CompareUnits(a, c) <= 0
    decreases |a|
  {
    if |a| > 0 && |b| > 0 && |c| > 0 && a[0] == b[0] && b[0] == c[0] {
      CompareUnitsTransitive(a[1..], b[1..], c[1..]);
    }
  }

  /** The Unicode code points of a string, one per character. */
  function CodePoints(s: string): (r: seq<int>)
    ensures |r| == |s|
  {
    seq(|s|, k requires 0 <= k < |s| => s[k] as int)
  }

  lemma CodePointsInjective(a: string, b: string)
    requires CodePoints(a) == CodePoints(b)
    ensures a == b
  {
    assert forall k :: 0 <= k < |a| ==> a[k] as int == CodePoints(a)[k] == CodePoints(b)[k] == b[k] as int;
  }

  /** `BytesRef.compareTo` on the UTF-8 encodings of two strings: UTF-8 byte order is code
      point order. */
  function CompareCodePoints(a: string, b: string): (r: int)
    ensures r == -1 || r == 0 || r == 1
    ensures r == 0 <==> a == b
  {
    if CodePoints(a) == CodePoints(b) then CodePointsInjective(a, b); CompareUnits(CodePoints(a), CodePoints(b))
    else CompareUnits(CodePoints(a), CodePoints(b))
  }

  lemma CompareCodePointsAntisymmetric(a: string, b: string)
    ensures CompareCodePoints(a, b) == -CompareCodePoints(b, a)
  {
    CompareUnitsAntisymmetric(CodePoints(a), CodePoints(b));
  }

  lemma CompareCodePointsTransitive(a: string, b: string, c: string)
    requires CompareCodePoints(a, b) <= 0 && CompareCodePoints(b, c) <= 0
    ensures CompareCodePoints(a, c) <= 0
  {
    CompareUnitsTransitive(CodePoints(a), CodePoints(b), CodePoints(c));
  }

  /** The UTF-16 code units of one character: itself below U+10000, otherwise a high and a
      low surrogate. */
  function Units(c: char): (r: seq<int>)
    ensures |r| == 1 || |r| == 2
    ensures |r| == 1 <==> c as int < 0x1_0000
    ensures |r| == 1 ==> r[0] == c as int && !(0xD800 <= r[0] < 0xE000)
    ensures |r| == 2 ==> (0xD800 <= r[0] < 0xDC00 && 0xDC00 <= r[1] < 0xE000 &&
                          c as int == 0x1_0000 + (r[0] - 0xD800) * 0x400 + (r[1] - 0xDC00))
  {
    var v := c as int;
    if v < 0x1_0000 then [v] else [0xD800 + (v - 0x1_0000) / 0x400, 0xDC00 + (v - 0x1_0000) % 0x400]
  }

  /** A Java string is its UTF-16 code units: `length()`, `charAt`, `compareTo` and `hashCode`
      all work on them. */
  function Utf16(s: string): (r: seq<int>)
    ensures |r| >= |s|
    ensures |s| > 0 ==> |r| > 0
    decreases |s|
  {
    if |s| == 0 then [] else Units(s[0]) + Utf16(s[1..])
  }

  /** Below U+10000 every character is one code unit, its own code point. */
  lemma {:induction false} Utf16OfBmp(s: string)
    requires forall k :: 0 <= k < |s| ==> s[k] as int < 0x1_0000
    ensures Utf16(s) == CodePoints(s)
    decreases |s|
  {
    if |s| > 0 {
      Utf16OfBmp(s[1..]);
      assert CodePoints(s) == [s[0] as int] + CodePoints(s[1..]);
    }
  }

  /** Different strings have different UTF-16 encodings. */
  lemma {:induction false} Utf16Injective(a: string, b: string)
    requires Utf16(a) == Utf16(b)
    ensures a == b
    decreases |a|
  {
    if |a| > 0 && |b| > 0 {
      var ua, ub := Units(a[0]), Units(b[0]);
      assert Utf16(a) == ua + Utf16(a[1..]) && Utf16(b) == ub + Utf16(b[1..]);
      assert Utf16(a)[0] == ua[0] && Utf16(b)[0] == ub[0];
      assert |ua| == |ub|;
      if |ua| == 2 {
        assert Utf16(a)[1] == ua[1] && Utf16(b)[1] == ub[1];
      }
      assert a[0] == b[0];
      assert Utf16(a)[|ua|..] == Utf16(a[1..]) && Utf16(b)[|ub|..] == Utf16(b[1..]);
      Utf16Injective(a[1..], b[1..]);
      assert a == [a[0]] + a[1..] && b == [b[0]] + b[1..];
    }
  }

  /** `String.compareTo` reduced to its sign: lexicographic order on UTF-16 code units. */
  function CompareStrings(a: string, b: string): (r: int)
    ensures r == -1 || r == 0 || r == 1
    ensures r == 0 <==> a == b
  {
    if Utf16(a) == Utf16(b) then Utf16Injective(a, b); CompareUnits(Utf16(a), Utf16(b))
    else CompareUnits(Utf16(a), Utf16(b))
  }

  lemma CompareStringsAntisymmetric(a: string, b: string)
    ensures CompareStrings(a, b) == -CompareStrings(b, a)
  {
    CompareUnitsAntisymmetric(Utf16(a), Utf16(b));
  }

  lemma CompareStringsTransitive(a: string, b: string, c: string)
    requires CompareStrings(a, b) <= 0 && CompareStrings(b, c) <= 0
    ensures CompareStrings(a, c) <= 0
  {
    CompareUnitsTransitive(Utf16(a), Utf16(b), Utf16(c));
  }

  lemma CompareStringsLessTransitive(a: string, b: string, c: string)
    requires CompareStrings(a, b) < 0 && CompareStrings(b, c) < 0
    ensures CompareStrings(a, c) < 0
  {
    CompareStringsTransitive(a, b, c);
    CompareStringsAntisymmetric(a, b);
  }

  /** The two orders differ beyond U+FFFF: a surrogate pair sorts below U+FFFF in Java's
      string order, while its code point sorts above it. */
  lemma StringOrderIsNotCodePointOrder()
    ensures CompareStrings("\U{1F600}", "\U{FFFF}") < 0
    ensures CompareCodePoints("\U{1F600}", "\U{FFFF}") > 0
  {
    assert Utf16("\U{1F600}") == [0xD83D, 0xDE00] by {
      assert Utf16("\U{1F600}") == Units('\U{1F600}') + Utf16([]);
    }
    assert Utf16("\U{FFFF}") == [0xFFFF] by {
      assert Utf16("\U{FFFF}") == Units('\U{FFFF}') + Utf16([]);
    }
    assert CodePoints("\U{1F600}") == [0x1F600];
    assert CodePoints("\U{FFFF}") == [0xFFFF];
  }

  /** `Math.addExact` on ints: `None` stands for the ArithmeticException thrown on overflow. */
  function AddExact32(a: int, b: int): (r: (bool, int))
    requires IsInt(a) && IsInt(b)
    ensures r.0 <==> IsInt(a + b)
    ensures r.0 ==> r.1 == a + b
  {
    if IsInt(a + b) then (true, a + b) else (false, 0)
  }

  /** `Math.addExact` on longs. */
  function AddExact64(a: int, b: int): (r: (bool, int))
    requires IsLong(a) && IsLong(b)
    ensures r.0 <==> IsLong(a + b)
    ensures r.0 ==> r.1 == a + b
  {
    if IsLong(a + b) then (true, a + b) else (false, 0)
  }
  /** `String.hashCode` continued from `h` over UTF-16 code units: each unit multiplies the
      hash by 31 and adds itself, wrapping to 32 bits at every step. */
  function HashFrom(h: int, u: seq<int>): (r: int)
    requires IsInt(h)
    ensures IsInt(r)
    decreases |u|
  {
    if |u| == 0 then h else HashFrom(Wrap32(31 * h + u[0]), u[1..])
  }

  function StringHashCode(s: string): (r: int)
    ensures IsInt(r)
  {
    HashFrom(0, Utf16(s))
  }

  function Pow31(n: nat): nat
  {
    if n == 0 then 1 else 31 * Pow31(n - 1)
  }

  /** The documented formula s[0]*31^(n-1) + s[1]*31^(n-2) + ... + s[n-1], unbounded, over
      the code units s[k]. */
  function Polynomial(u: seq<int>): int
  {
    if |u| == 0 then 0 else u[0] * Pow31(|u| - 1) + Polynomial(u[1..])
  }

  lemma {:induction false} HashFromPolynomial(h: int, u: seq<int>)
    requires IsInt(h)
    ensures (HashFrom(h, u) - (h * Pow31(|u|) + Polynomial(u))) % 0x1_0000_0000 == 0
    decreases |u|
  {
    if |u| > 0 {
      var c := u[0];
      var p := Pow31(|u| - 1);
      var rest := Polynomial(u[1..]);
      var next := Wrap32(31 * h + c);
      HashFromPolynomial(next, u[1..]);
      var x := HashFrom(h, u);
      assert x == HashFrom(next, u[1..]);
      var a := DivisibleIsMultiple(x - (next * p + rest));
      var q := DivisibleIsMultiple(next - (31 * h + c));
      PolynomialStep(x, next, p, rest, h, c, a, q);
      MultipleDivisible(a + q * p);
      assert Pow31(|u|) == 31 * p && Polynomial(u) == c * p + rest;
    }
  }

  /** One step of the hash in unbounded arithmetic: the error of the recursive call and the
      wrap of the new hash both are multiples of 2^32, and so is their combination. */
  lemma PolynomialStep(x: int, next: int, p: int, rest: int, h: int, c: int, a: int, q: int)
    requires x - (next * p + rest) == 0x1_0000_0000 * a
    requires next - (31 * h + c) == 0x1_0000_0000 * q
    ensures x - (h * (31 * p) + (c * p + rest)) == 0x1_0000_0000 * (a + q * p)
  {
    MulDistributes(31 * h + c, 0x1_0000_0000 * q, p);
    MulDistributes(31 * h, c, p);
    MulAssociates(0x1_0000_0000, q, p);
    MulAssociates(h, 31, p);
  }

  lemma DivisibleIsMultiple(v: int) returns (k: int)
    requires v % 0x1_0000_0000 == 0
    ensures v == 0x1_0000_0000 * k
  {
    k := v / 0x1_0000_0000;
  }

  lemma MultipleDivisible(k: int)
    ensures (0x1_0000_0000 * k) % 0x1_0000_0000 == 0
  {
  }

  lemma MulDistributes(a: int, b: int, c: int)
    ensures (a + b) * c == a * c + b * c
  {
  }

  lemma MulAssociates(a: int, b: int, c: int)
    ensures (a * b) * c == a * (b * c)
  {
  }

  /** String.hashCode is the documented polynomial over the UTF-16 code units, modulo 2^32. */
  lemma StringHashCodeIsPolynomial(s: string)
    ensures (StringHashCode(s) - Polynomial(Utf16(s))) % 0x1_0000_0000 == 0
  {
    HashFromPolynomial(0, Utf16(s));
  }

  /** The decimal digits of `n`, most significant first. */
  function Digits(n: nat): (r: string)
    ensures |r| > 0 && '0' <= r[0] <= '9'
  {
    if n < 10 then [('0' as int + n) as char]
    else Digits(n / 10) + [('0' as int + n % 10) as char]
  }

  /** Every character of the digits is a decimal digit. */
  lemma {:induction false} DigitsAreDigits(n: nat)
    ensures forall k :: 0 <= k < |Digits(n)| ==> '0' <= Digits(n)[k] <= '9'
  {
    if n >= 10 {
      DigitsAreDigits(n / 10);
    }
  }

  /** `Integer.toString` / `Long.toString`: a minus sign for negatives, then the digits. */
  function IntToString(i: int): (r: string)
    ensures |r| > 0 && (r[0] == '-' <==> i < 0)
  {
    if i < 0 then "-" + Digits(-i) else Digits(i)
  }
}
