/** The per-field statistics of a schema scan (FieldStats): how often a field held a nested
    document, a collection, a number, a string or a date. The counters are Java `int`s and
    wrap like them. */
module SchemaStats {
  import opened JavaInt

  /** What tallyType is given: a Number, a String, a Date, or anything else (null included). */
  datatype Value = NumberValue | StringValue | DateValue | OtherValue

  /** The five counters; `str` is the source's `string` counter. */
  datatype Counts = Counts(collection: int, document: int, number: int, str: int, date: int)

  const ZERO: Counts := Counts(0, 0, 0, 0, 0)

  predicate IntCounts(c: Counts)
  {
    IsInt(c.collection) && IsInt(c.document) && IsInt(c.number) && IsInt(c.str) && IsInt(c.date)
  }

  predicate NonNegative(c: Counts)
  {
    c.collection >= 0 && c.document >= 0 && c.number >= 0 && c.str >= 0 && c.date >= 0
  }

  /** `x++` on an int. */
  function Inc(x: int): (r: int)
    ensures IsInt(r)
    ensures 0 <= x < INT_MAX ==> r == x + 1 && r > 0
    ensures x == INT_MAX ==> r == INT_MIN
  {
    Wrap32(x + 1)
  }

  /** tallyType: one more of the kind the value is, nothing for other values. */
  function Tally(c: Counts, o: Value): Counts
  {
    match o
    case NumberValue => c.(number := Inc(c.number))
    case StringValue => c.(str := Inc(c.str))
    case DateValue => c.(date := Inc(c.date))
    case OtherValue => c
  }

  /** At most one of number, string and date moves, by one while below the int limit, and
      only for a number, string or date; collection and document never move. */
  lemma TallyFacts(c: Counts, o: Value)
    requires NonNegative(c) && c.number < INT_MAX && c.str < INT_MAX && c.date < INT_MAX
    ensures var r := Tally(c, o);
      r.collection == c.collection && r.document == c.document &&
      (r.number - c.number) + (r.str - c.str) + (r.date - c.date) == (if o == OtherValue then 0 else 1) &&
      r.number >= c.number && r.str >= c.str && r.date >= c.date &&
      (r.number != c.number <==> o == NumberValue) &&
      (r.str != c.str <==> o == StringValue) &&
      (r.date != c.date <==> o == DateValue) &&
      NonNegative(r)
  {
  }

  /** incrementByCounts: the counts added field by field, each sum an int. */
  function Add(a: Counts, b: Counts): (r: Counts)
    ensures IntCounts(r)
  {
    Counts(AddInt(a.collection, b.collection), AddInt(a.document, b.document), AddInt(a.number, b.number),
      AddInt(a.str, b.str), AddInt(a.date, b.date))
  }

  /** `x += y` on ints. */
  function AddInt(x: int, y: int): (r: int)
    ensures IsInt(r)
  {
    Wrap32(x + y)
  }

  /** Two ints that differ by a multiple of 2^32 wrap to the same int. */
  lemma WrapCongruent(x: int, y: int)
    requires (x - y) % 0x1_0000_0000 == 0
    ensures Wrap32(x) == Wrap32(y)
  {
    var q := (x - y) / 0x1_0000_0000;
    assert x == y + q * 0x1_0000_0000;
    assert x % 0x1_0000_0000 == y % 0x1_0000_0000;
  }

  lemma WrapAddAssociative(a: int, b: int, c: int)
    ensures AddInt(AddInt(a, b), c) == AddInt(a, AddInt(b, c))
  {
    WrapCongruent(Wrap32(a + b) + c, a + b + c);
    WrapCongruent(a + Wrap32(b + c), a + b + c);
  }

  /** Merging is order-free: adding counts is commutative and associative, wrap-around
      included, so the totals of a scan do not depend on how partial results are grouped. */
  lemma AddCommutes(a: Counts, b: Counts)
    ensures Add(a, b) == Add(b, a)
  {
  }

  lemma AddAssociates(a: Counts, b: Counts, c: Counts)
    ensures Add(Add(a, b), c) == Add(a, Add(b, c))
  {
    WrapAddAssociative(a.collection, b.collection, c.collection);
    WrapAddAssociative(a.document, b.document, c.document);
    WrapAddAssociative(a.number, b.number, c.number);
    WrapAddAssociative(a.str, b.str, c.str);
    WrapAddAssociative(a.date, b.date, c.date);
  }

  /** Without overflow each field of the sum is the plain sum, and sums of non-negative counts
      stay non-negative; ZERO adds nothing. */
  lemma AddFacts(a: Counts, b: Counts)
    requires IntCounts(a)
    ensures Add(a, ZERO) == a
    ensures IsInt(a.collection + b.collection) ==> Add(a, b).collection == a.collection + b.collection
    ensures IsInt(a.document + b.document) ==> Add(a, b).document == a.document + b.document
    ensures IsInt(a.number + b.number) ==> Add(a, b).number == a.number + b.number
    ensures IsInt(a.str + b.str) ==> Add(a, b).str == a.str + b.str
    ensures IsInt(a.date + b.date) ==> Add(a, b).date == a.date + b.date
    ensures (NonNegative(a) && NonNegative(b) && IntCounts(Counts(a.collection + b.collection, a.document + b.document,
      a.number + b.number, a.str + b.str, a.date + b.date))) ==> NonNegative(Add(a, b))
  {
  }

  /** 1 for each kind the counts hold at least one of. */
  function Presence(b: Counts): (r: Counts)
    ensures NonNegative(r) && IntCounts(r)
    ensures r.date == 1 <==> b.date > 0
    ensures r.str == 1 <==> b.str > 0
    ensures r.document == 1 <==> b.document > 0
    ensures r.number == 1 <==> b.number > 0
    ensures r.collection == 1 <==> b.collection > 0
  {
    Counts(if b.collection > 0 then 1 else 0, if b.document > 0 then 1 else 0, if b.number > 0 then 1 else 0,
      if b.str > 0 then 1 else 0, if b.date > 0 then 1 else 0)
  }

  /** incrementByIfExists: one more for each kind the other statistics saw at all. */
  function IncrementIfExists(a: Counts, b: Counts): Counts
  {
    Counts(if b.collection > 0 then Inc(a.collection) else a.collection,
      if b.document > 0 then Inc(a.document) else a.document,
      if b.number > 0 then Inc(a.number) else a.number,
      if b.str > 0 then Inc(a.str) else a.str,
      if b.date > 0 then Inc(a.date) else a.date)
  }

  /** incrementByIfExists is incrementByCounts with the other statistics' presence: each field
      moves by one exactly when the other's is positive. */
  lemma IncrementIfExistsAddsPresence(a: Counts, b: Counts)
    requires IntCounts(a)
    ensures IncrementIfExists(a, b) == Add(a, Presence(b))
  {
  }

  /** Folding incrementByIfExists over per-document statistics counts the documents that
      held each kind. */
  function DocumentsWithDates(docs: seq<Counts>): nat
  {
    if |docs| == 0 then 0 else DocumentsWithDates(docs[..|docs| - 1]) + (if docs[|docs| - 1].date > 0 then 1 else 0)
  }

  function IncrementAll(a: Counts, docs: seq<Counts>): Counts
  {
    if |docs| == 0 then a else IncrementIfExists(IncrementAll(a, docs[..|docs| - 1]), docs[|docs| - 1])
  }

  lemma {:induction false} IncrementAllCounts(docs: seq<Counts>)
    requires |docs| < INT_MAX
    ensures IncrementAll(ZERO, docs).date == DocumentsWithDates(docs) <= |docs|
  {
    if |docs| > 0 {
      IncrementAllCounts(docs[..|docs| - 1]);
    }
  }

  class FieldStats {
    const key: string
    var collection: int
    var document: int
    var number: int
    var str: int
    var date: int

    function Totals(): Counts
      reads this
    {
      Counts(collection, document, number, str, date)
    }

    predicate Valid()
      reads this
    {
      IntCounts(Totals())
    }

    constructor (key: string)
      ensures Valid() && this.key == key && Totals() == ZERO
    {
      this.key := key;
      collection, document, number, str, date := 0, 0, 0, 0, 0;
    }

    /** tallyType */
    method TallyType(o: Value)
      requires Valid()
      modifies this
      ensures Valid() && Totals() == Tally(old(Totals()), o)
    {
      if o == NumberValue {
        number := Wrap32(number + 1);
      } else if o == StringValue {
        str := Wrap32(str + 1);
      } else if o == DateValue {
        date := Wrap32(date + 1);
      }
    }

    /** tallyCollection */
    method TallyCollection()
      requires Valid()
      modifies this
      ensures Valid() && Totals() == old(Totals()).(collection := Inc(old(collection)))
    {
      collection := Wrap32(collection + 1);
    }

    /** tallyDocument */
    method TallyDocument()
      requires Valid()
      modifies this
      ensures Valid() && Totals() == old(Totals()).(document := Inc(old(document)))
    {
      document := Wrap32(document + 1);
    }

    /** incrementByCounts; adding a statistics object to itself doubles it. */
    method IncrementByCounts(fieldStats: FieldStats)
      requires Valid()
      modifies this
      ensures Valid() && Totals() == Add(old(Totals()), old(fieldStats.Totals()))
    {
      var other := fieldStats.Totals();
      var t, s, d, n, c := AddInt(date, other.date), AddInt(str, other.str), AddInt(document, other.document),
        AddInt(number, other.number), AddInt(collection, other.collection);
      collection, document, number, str, date := c, d, n, s, t;
    }

    /** incrementByIfExists */
    method IncrementByIfExists(fieldStats: FieldStats)
      requires Valid()
      modifies this
      ensures Valid() && Totals() == IncrementIfExists(old(Totals()), old(fieldStats.Totals()))
    {
      var other := fieldStats.Totals();
      var c, d, n, s, t := collection, document, number, str, date;
      if other.date > 0 {
        t := Inc(t);
      }
      if other.str > 0 {
        s := Inc(s);
      }
      if other.document > 0 {
        d := Inc(d);
      }
      if other.number > 0 {
        n := Inc(n);
      }
      if other.collection > 0 {
        c := Inc(c);
      }
      collection, document, number, str, date := c, d, n, s, t;
    }
  }
}
