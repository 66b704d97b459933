/** Merging the numeric statistics that several shards return for one stat request into a
    single stat group (StatCombiner): the global statistics and, per facet, the componentwise
    minimum and maximum, the sum and the document counts; a facet that some shard did not
    return is flagged and carries a bound on the sum the missing shards may hold; the facets
    are returned by descending sum. */
module StatCombining {
  import opened Wrappers
  import opened JavaInt
  import PostSorting
  import FacetCombining

  type SortValue = PostSorting.SortValue

  /** The default SortValue message: no value, every component zero or empty. */
  const EMPTY_VALUE: SortValue := PostSorting.SortValue(false, 0, 0, 0, 0.0, 0.0, "")

  // ---------------------------------------------------------------------------------------
  // Merging single values (StatCarrier's static helpers)

  /** Every component of `r` is at least the matching component of `v`. */
  predicate Above(r: SortValue, v: SortValue)
  {
    && r.intValue >= v.intValue && r.longValue >= v.longValue && r.dateValue >= v.dateValue
    && r.floatValue >= v.floatValue && r.doubleValue >= v.doubleValue
    && CompareStrings(r.stringValue, v.stringValue) >= 0
  }

  /** Every component of `r` is at most the matching component of `v`. */
  predicate Below(r: SortValue, v: SortValue)
  {
    && r.intValue <= v.intValue && r.longValue <= v.longValue && r.dateValue <= v.dateValue
    && r.floatValue <= v.floatValue && r.doubleValue <= v.doubleValue
    && CompareStrings(r.stringValue, v.stringValue) <= 0
  }

  /** Every component of `r` is taken from `a` or from `b`. */
  predicate PickedFrom(r: SortValue, a: SortValue, b: SortValue)
  {
    && (r.intValue == a.intValue || r.intValue == b.intValue)
    && (r.longValue == a.longValue || r.longValue == b.longValue)
    && (r.dateValue == a.dateValue || r.dateValue == b.dateValue)
    && (r.floatValue == a.floatValue || r.floatValue == b.floatValue)
    && (r.doubleValue == a.doubleValue || r.doubleValue == b.doubleValue)
    && (r.stringValue == a.stringValue || r.stringValue == b.stringValue)
  }

  /** updateMaxValue: the first value is copied, later ones raise each component separately;
      the value exists when either does. */
  function UpdateMax(b: Option<SortValue>, v: SortValue): (r: SortValue)
    ensures var base := b.GetOr(v);
      Above(r, base) && Above(r, v) && PickedFrom(r, base, v) && r.hasValue == (base.hasValue || v.hasValue)
  {
    var x := b.GetOr(v);
    CompareStringsAntisymmetric(v.stringValue, x.stringValue);
    PostSorting.SortValue(
      x.hasValue || v.hasValue,
      if v.intValue > x.intValue then v.intValue else x.intValue,
      if v.longValue > x.longValue then v.longValue else x.longValue,
      if v.dateValue > x.dateValue then v.dateValue else x.dateValue,
      if v.floatValue > x.floatValue then v.floatValue else x.floatValue,
      if v.doubleValue > x.doubleValue then v.doubleValue else x.doubleValue,
      if CompareStrings(v.stringValue, x.stringValue) > 0 then v.stringValue else x.stringValue)
  }

  /** updateMinValue: the first value is copied, later ones lower each component separately;
      the value exists when either does. */
  function UpdateMin(b: Option<SortValue>, v: SortValue): (r: SortValue)
    ensures var base := b.GetOr(v);
      Below(r, base) && Below(r, v) && PickedFrom(r, base, v) && r.hasValue == (base.hasValue || v.hasValue)
  {
    var x := b.GetOr(v);
    CompareStringsAntisymmetric(v.stringValue, x.stringValue);
    PostSorting.SortValue(
      x.hasValue || v.hasValue,
      if v.intValue < x.intValue then v.intValue else x.intValue,
      if v.longValue < x.longValue then v.longValue else x.longValue,
      if v.dateValue < x.dateValue then v.dateValue else x.dateValue,
      if v.floatValue < x.floatValue then v.floatValue else x.floatValue,
      if v.doubleValue < x.doubleValue then v.doubleValue else x.doubleValue,
      if CompareStrings(v.stringValue, x.stringValue) < 0 then v.stringValue else x.stringValue)
  }

  /** addToSum: the first value is copied; later ones are added component by component (the
      32-bit int component wraps), the string of the first value is kept. */
  function AddToSum(b: Option<SortValue>, v: SortValue): SortValue
  {
    match b
    case None => v
    case Some(x) =>
      PostSorting.SortValue(
        x.hasValue || v.hasValue, Wrap32(x.intValue + v.intValue), x.longValue + v.longValue,
        x.dateValue + v.dateValue, x.floatValue + v.floatValue, x.doubleValue + v.doubleValue,
        x.stringValue)
  }

  // ---------------------------------------------------------------------------------------
  // Folds over the values of several shards

  function MaxOf(vs: seq<SortValue>): SortValue
    requires |vs| > 0
  {
    if |vs| == 1 then UpdateMax(None, vs[0]) else UpdateMax(Some(MaxOf(vs[..|vs| - 1])), vs[|vs| - 1])
  }

  function MinOf(vs: seq<SortValue>): SortValue
    requires |vs| > 0
  {
    if |vs| == 1 then UpdateMin(None, vs[0]) else UpdateMin(Some(MinOf(vs[..|vs| - 1])), vs[|vs| - 1])
  }

  /** The sum of several values, starting from `init` (absent: from the first value). */
  function SumFrom(init: Option<SortValue>, vs: seq<SortValue>): (r: Option<SortValue>)
    ensures r.Some? <==> init.Some? || |vs| > 0
  {
    if |vs| == 0 then init else Some(AddToSum(SumFrom(init, vs[..|vs| - 1]), vs[|vs| - 1]))
  }

  predicate SomeExists(vs: seq<SortValue>)
  {
    exists k :: 0 <= k < |vs| && vs[k].hasValue
  }

  /** Each component of `r` is the same component of some value of `vs`. */
  predicate Attained(r: SortValue, vs: seq<SortValue>)
  {
    && (exists k :: 0 <= k < |vs| && r.intValue == vs[k].intValue)
    && (exists k :: 0 <= k < |vs| && r.longValue == vs[k].longValue)
    && (exists k :: 0 <= k < |vs| && r.dateValue == vs[k].dateValue)
    && (exists k :: 0 <= k < |vs| && r.floatValue == vs[k].floatValue)
    && (exists k :: 0 <= k < |vs| && r.doubleValue == vs[k].doubleValue)
    && (exists k :: 0 <= k < |vs| && r.stringValue == vs[k].stringValue)
  }

  lemma AboveTransitive(a: SortValue, b: SortValue, c: SortValue)
    requires Above(a, b) && Above(b, c)
    ensures Above(a, c)
  {
    CompareStringsAntisymmetric(a.stringValue, b.stringValue);
    CompareStringsAntisymmetric(b.stringValue, c.stringValue);
    CompareStringsAntisymmetric(a.stringValue, c.stringValue);
    CompareStringsTransitive(c.stringValue, b.stringValue, a.stringValue);
  }

  lemma BelowTransitive(a: SortValue, b: SortValue, c: SortValue)
    requires Below(a, b) && Below(b, c)
    ensures Below(a, c)
  {
    CompareStringsTransitive(a.stringValue, b.stringValue, c.stringValue);
  }

  lemma SomeExistsSnoc(vs: seq<SortValue>)
    requires |vs| > 0
    ensures SomeExists(vs) <==> SomeExists(vs[..|vs| - 1]) || vs[|vs| - 1].hasValue
  {
    var init := vs[..|vs| - 1];
    if SomeExists(vs) && !vs[|vs| - 1].hasValue {
      var k :| 0 <= k < |vs| && vs[k].hasValue;
      assert init[k] == vs[k];
    }
    if SomeExists(init) {
      var k :| 0 <= k < |init| && init[k].hasValue;
      assert vs[k] == init[k];
    }
  }

  lemma AttainedStep(r: SortValue, prev: SortValue, vs: seq<SortValue>)
    requires |vs| > 1 && Attained(prev, vs[..|vs| - 1]) && PickedFrom(r, prev, vs[|vs| - 1])
    ensures Attained(r, vs)
  {
    var init := vs[..|vs| - 1];
    assert forall k :: 0 <= k < |init| ==> init[k] == vs[k];
  }

  /** The merged maximum is, component by component, the largest value any shard sent, and it
      exists when some shard's value does. */
  lemma {:induction false} MaxOfIsMaximum(vs: seq<SortValue>)
    requires |vs| > 0
    ensures forall k :: 0 <= k < |vs| ==> Above(MaxOf(vs), vs[k])
    ensures Attained(MaxOf(vs), vs)
    ensures MaxOf(vs).hasValue <==> SomeExists(vs)
  {
    var m := MaxOf(vs);
    var last := vs[|vs| - 1];
    if |vs| == 1 {
      assert Attained(m, vs) by {
        assert m.intValue == vs[0].intValue;
      }
      assert SomeExists(vs) <==> last.hasValue;
    } else {
      var init := vs[..|vs| - 1];
      MaxOfIsMaximum(init);
      var prev := MaxOf(init);
      assert m == UpdateMax(Some(prev), last);
      assert forall k :: 0 <= k < |vs| - 1 ==> Above(m, vs[k]) by {
        forall k | 0 <= k < |vs| - 1
          ensures Above(m, vs[k])
        {
          assert init[k] == vs[k];
          AboveTransitive(m, prev, vs[k]);
        }
      }
      AttainedStep(m, prev, vs);
      SomeExistsSnoc(vs);
    }
  }

  /** The merged minimum is, component by component, the smallest value any shard sent, and
      it exists when some shard's value does. */
  lemma {:induction false} MinOfIsMinimum(vs: seq<SortValue>)
    requires |vs| > 0
    ensures forall k :: 0 <= k < |vs| ==> Below(MinOf(vs), vs[k])
    ensures Attained(MinOf(vs), vs)
    ensures MinOf(vs).hasValue <==> SomeExists(vs)
  {
    var m := MinOf(vs);
    var last := vs[|vs| - 1];
    if |vs| == 1 {
      assert Attained(m, vs) by {
        assert m.intValue == vs[0].intValue;
      }
      assert SomeExists(vs) <==> last.hasValue;
    } else {
      var init := vs[..|vs| - 1];
      MinOfIsMinimum(init);
      var prev := MinOf(init);
      assert m == UpdateMin(Some(prev), last);
      assert forall k :: 0 <= k < |vs| - 1 ==> Below(m, vs[k]) by {
        forall k | 0 <= k < |vs| - 1
          ensures Below(m, vs[k])
        {
          assert init[k] == vs[k];
          BelowTransitive(m, prev, vs[k]);
        }
      }
      AttainedStep(m, prev, vs);
      SomeExistsSnoc(vs);
    }
  }

  // ---------------------------------------------------------------------------------------
  // Sums of the components

  function IntSum(vs: seq<SortValue>): int
  {
    if |vs| == 0 then 0 else IntSum(vs[..|vs| - 1]) + vs[|vs| - 1].intValue
  }

  function LongSum(vs: seq<SortValue>): int
  {
    if |vs| == 0 then 0 else LongSum(vs[..|vs| - 1]) + vs[|vs| - 1].longValue
  }

  function DateSum(vs: seq<SortValue>): int
  {
    if |vs| == 0 then 0 else DateSum(vs[..|vs| - 1]) + vs[|vs| - 1].dateValue
  }

  function FloatSum(vs: seq<SortValue>): real
  {
    if |vs| == 0 then 0.0 else FloatSum(vs[..|vs| - 1]) + vs[|vs| - 1].floatValue
  }

  function DoubleSum(vs: seq<SortValue>): real
  {
    if |vs| == 0 then 0.0 else DoubleSum(vs[..|vs| - 1]) + vs[|vs| - 1].doubleValue
  }

  /** Wrapping after every addition is the same as wrapping once at the end. */
  lemma WrapAdd(a: int, b: int)
    ensures Wrap32(Wrap32(a) + b) == Wrap32(a + b)
  {
    var w := Wrap32(a);
    var k := (w - a) / 0x1_0000_0000;
    assert w == a + k * 0x1_0000_0000;
    assert (w + b) % 0x1_0000_0000 == (a + b) % 0x1_0000_0000;
  }

  /** Adding to a wrapped partial sum wraps the whole sum. */
  lemma WrapAddInto(p: int, x: int, a: int, b: int, total: int)
    requires p == Wrap32(x + a) && total == a + b
    ensures Wrap32(p + b) == Wrap32(x + total)
  {
    WrapAdd(x + a, b);
  }

  /** Summing with addToSum, from `init` or (absent) from the first value, adds up every
      numeric component -- the 32-bit int component modulo 2^32 -- keeps the string of the
      starting value, and has a value when the start or any summand has one. */
  lemma SumTotals(init: Option<SortValue>, vs: seq<SortValue>)
    requires init.Some? || |vs| > 0
    ensures var r := SumFrom(init, vs).value; var x := init.GetOr(EMPTY_VALUE);
      var start := if init.Some? then init.value else vs[0];
      && r.longValue == x.longValue + LongSum(vs)
      && r.dateValue == x.dateValue + DateSum(vs)
      && r.floatValue == x.floatValue + FloatSum(vs)
      && r.doubleValue == x.doubleValue + DoubleSum(vs)
      && (IsInt(start.intValue) ==> r.intValue == Wrap32(x.intValue + IntSum(vs)))
      && (r.hasValue <==> x.hasValue || SomeExists(vs))
      && r.stringValue == start.stringValue
  {
    SumNumbers(init, vs);
    SumInts(init, vs);
    SumFlags(init, vs);
  }

  lemma {:induction false} SumNumbers(init: Option<SortValue>, vs: seq<SortValue>)
    requires init.Some? || |vs| > 0
    ensures var r := SumFrom(init, vs).value; var x := init.GetOr(EMPTY_VALUE);
      && r.longValue == x.longValue + LongSum(vs)
      && r.dateValue == x.dateValue + DateSum(vs)
      && r.floatValue == x.floatValue + FloatSum(vs)
      && r.doubleValue == x.doubleValue + DoubleSum(vs)
  {
    if |vs| > 0 {
      var init' := vs[..|vs| - 1];
      if |init'| == 0 && init.None? {
        assert SumFrom(init, vs).value == vs[0];
      } else {
        SumNumbers(init, init');
        assert SumFrom(init, vs).value == AddToSum(Some(SumFrom(init, init').value), vs[|vs| - 1]);
      }
    }
  }

  lemma {:induction false} SumInts(init: Option<SortValue>, vs: seq<SortValue>)
    requires init.Some? || |vs| > 0
    ensures var r := SumFrom(init, vs).value; var x := init.GetOr(EMPTY_VALUE);
      var start := if init.Some? then init.value else vs[0];
      IsInt(start.intValue) ==> r.intValue == Wrap32(x.intValue + IntSum(vs))
  {
    if |vs| > 0 {
      var init' := vs[..|vs| - 1];
      if |init'| == 0 && init.None? {
        assert SumFrom(init, vs).value == vs[0];
      } else {
        SumInts(init, init');
        var x := init.GetOr(EMPTY_VALUE);
        var v := vs[|vs| - 1];
        var prev := SumFrom(init, init').value;
        assert init.None? ==> init'[0] == vs[0];
        var start := if init.Some? then init.value else vs[0];
        if IsInt(start.intValue) {
          assert SumFrom(init, vs).value.intValue == Wrap32(prev.intValue + v.intValue);
          WrapAddInto(prev.intValue, x.intValue, IntSum(init'), v.intValue, IntSum(vs));
        }
      }
    }
  }

  lemma {:induction false} SumFlags(init: Option<SortValue>, vs: seq<SortValue>)
    requires init.Some? || |vs| > 0
    ensures var r := SumFrom(init, vs).value; var x := init.GetOr(EMPTY_VALUE);
      var start := if init.Some? then init.value else vs[0];
      && (r.hasValue <==> x.hasValue || SomeExists(vs))
      && r.stringValue == start.stringValue
  {
    if |vs| > 0 {
      var init' := vs[..|vs| - 1];
      if |init'| == 0 && init.None? {
        assert SumFrom(init, vs).value == vs[0];
      } else {
        SumFlags(init, init');
        var v := vs[|vs| - 1];
        assert init.None? ==> init'[0] == vs[0];
        assert SumFrom(init, vs).value == AddToSum(Some(SumFrom(init, init').value), v);
        assert SomeExists(vs) <==> SomeExists(init') || v.hasValue by {
          assert forall k :: 0 <= k < |init'| ==> init'[k] == vs[k];
        }
      }
    }
  }

  // ---------------------------------------------------------------------------------------
  // Messages

  datatype StatRequest = StatRequest(
    numericField: string, maxFacets: int, shardFacets: int, precision: real, percentiles: seq<real>)

  /** The statistics one shard computed for one facet (or, with an empty facet name, for all
      matching documents); an absent min, max or sum reads as EMPTY_VALUE. */
  datatype FacetStatsInternal = FacetStatsInternal(
    facet: string, min: Option<SortValue>, max: Option<SortValue>, sum: Option<SortValue>,
    docCount: int, allDocCount: int, valueCount: int)

  /** A message with every field at its default (serialized size zero). */
  predicate Blank(s: FacetStatsInternal)
  {
    s == FacetStatsInternal("", None, None, None, 0, 0, 0)
  }

  function Value(o: Option<SortValue>): SortValue
  {
    o.GetOr(EMPTY_VALUE)
  }

  datatype StatGroupInternal = StatGroupInternal(globalStats: FacetStatsInternal, facetStats: seq<FacetStatsInternal>)

  datatype ShardStatGroup = ShardStatGroup(statGroup: StatGroupInternal, shardIndex: int)

  datatype ShardFacetStats = ShardFacetStats(facetStats: FacetStatsInternal, shardIndex: int)

  /** The merged statistics of one facet as returned to the client. */
  datatype FacetStats = FacetStats(
    facet: string, min: Option<SortValue>, max: Option<SortValue>, sum: Option<SortValue>,
    docCount: int, allDocCount: int, valueCount: int, hasError: bool, maxSumError: Option<SortValue>)

  const BLANK_STATS: FacetStats := FacetStats("", None, None, None, 0, 0, 0, false, None)

  datatype StatGroup = StatGroup(statRequest: StatRequest, globalStats: FacetStats, facetStats: seq<FacetStats>)

  predicate ShardsInRange(sgs: seq<ShardStatGroup>, n: int)
  {
    forall k :: 0 <= k < |sgs| ==> 0 <= sgs[k].shardIndex < n
  }

  // ---------------------------------------------------------------------------------------
  // Merging the statistics of one facet (convertAndCombineFacetStats)

  function Mins(ss: seq<ShardFacetStats>): (r: seq<SortValue>)
    ensures |r| == |ss|
  {
    if |ss| == 0 then [] else Mins(ss[..|ss| - 1]) + [Value(ss[|ss| - 1].facetStats.min)]
  }

  function Maxs(ss: seq<ShardFacetStats>): (r: seq<SortValue>)
    ensures |r| == |ss|
  {
    if |ss| == 0 then [] else Maxs(ss[..|ss| - 1]) + [Value(ss[|ss| - 1].facetStats.max)]
  }

  function Sums(ss: seq<ShardFacetStats>): (r: seq<SortValue>)
    ensures |r| == |ss|
  {
    if |ss| == 0 then [] else Sums(ss[..|ss| - 1]) + [Value(ss[|ss| - 1].facetStats.sum)]
  }

  function DocCounts(ss: seq<ShardFacetStats>): int
  {
    if |ss| == 0 then 0 else DocCounts(ss[..|ss| - 1]) + ss[|ss| - 1].facetStats.docCount
  }

  function AllDocCounts(ss: seq<ShardFacetStats>): int
  {
    if |ss| == 0 then 0 else AllDocCounts(ss[..|ss| - 1]) + ss[|ss| - 1].facetStats.allDocCount
  }

  function ValueCounts(ss: seq<ShardFacetStats>): int
  {
    if |ss| == 0 then 0 else ValueCounts(ss[..|ss| - 1]) + ss[|ss| - 1].facetStats.valueCount
  }

  /** What convertAndCombineFacetStats returns for the statistics several shards sent for one
      facet, before any error bound is attached. */
  function Combined(req: StatRequest, n: int, ss: seq<ShardFacetStats>): FacetStats
    requires |ss| > 0
  {
    if Blank(ss[0].facetStats) then BLANK_STATS
    else FacetStats(
      ss[0].facetStats.facet, Some(MinOf(Mins(ss))), Some(MaxOf(Maxs(ss))), SumFrom(None, Sums(ss)),
      DocCounts(ss), AllDocCounts(ss), ValueCounts(ss), req.shardFacets != -1 && |ss| < n, None)
  }

  /** A minimum over one more value is the carrier's update of the previous minimum. */
  lemma MinOfStep(vs: seq<SortValue>, x: SortValue)
    ensures MinOf(vs + [x]) == UpdateMin(if |vs| == 0 then None else Some(MinOf(vs)), x)
  {
    assert (vs + [x])[..|vs|] == vs;
  }

  lemma MaxOfStep(vs: seq<SortValue>, x: SortValue)
    ensures MaxOf(vs + [x]) == UpdateMax(if |vs| == 0 then None else Some(MaxOf(vs)), x)
  {
    assert (vs + [x])[..|vs|] == vs;
  }

  /** The merged parts of a carrier: counts, sum, maximum and minimum. */
  datatype Carried = Carried(docCount: int, allDocCount: int, valueCount: int, sum: Option<SortValue>,
                             maxValue: Option<SortValue>, minValue: Option<SortValue>)

  /** The carrier's parts after StatCarrier.AddStat takes one shard's statistics. */
  function AddedStat(c: Carried, f: FacetStatsInternal): Carried
  {
    Carried(c.docCount + f.docCount, c.allDocCount + f.allDocCount, c.valueCount + f.valueCount,
      Some(AddToSum(c.sum, Value(f.sum))), Some(UpdateMax(c.maxValue, Value(f.max))), Some(UpdateMin(c.minValue, Value(f.min))))
  }

  /** The carrier's parts after it has taken the statistics `ss`, one at a time. */
  ghost function CarriedAfter(ss: seq<ShardFacetStats>): Carried
  {
    if |ss| == 0 then Carried(0, 0, 0, None, None, None)
    else AddedStat(CarriedAfter(ss[..|ss| - 1]), ss[|ss| - 1].facetStats)
  }

  lemma CarriedAfterStep(ss: seq<ShardFacetStats>, i: int)
    requires 0 <= i < |ss|
    ensures CarriedAfter(ss[..i + 1]) == AddedStat(CarriedAfter(ss[..i]), ss[i].facetStats)
  {
    assert ss[..i + 1][..i] == ss[..i];
  }

  /** A carrier that has taken `ss` holds their summed counts, their summed sums and the
      extremes of their minima and maxima. */
  lemma CarriedAfterMerges(ss: seq<ShardFacetStats>)
    ensures CarriedAfter(ss) == Carried(DocCounts(ss), AllDocCounts(ss), ValueCounts(ss), SumFrom(None, Sums(ss)),
      if |ss| == 0 then None else Some(MaxOf(Maxs(ss))), if |ss| == 0 then None else Some(MinOf(Mins(ss))))
  {
    CountsMerge(ss);
    SumMerge(ss);
    MaxMerge(ss);
    MinMerge(ss);
  }

  lemma {:induction false} CountsMerge(ss: seq<ShardFacetStats>)
    ensures var c := CarriedAfter(ss);
      c.docCount == DocCounts(ss) && c.allDocCount == AllDocCounts(ss) && c.valueCount == ValueCounts(ss)
  {
    if |ss| > 0 {
      CountsMerge(ss[..|ss| - 1]);
    }
  }

  lemma {:induction false} SumMerge(ss: seq<ShardFacetStats>)
    ensures CarriedAfter(ss).sum == SumFrom(None, Sums(ss))
  {
    if |ss| > 0 {
      SumMerge(ss[..|ss| - 1]);
    }
  }

  lemma {:induction false} MaxMerge(ss: seq<ShardFacetStats>)
    ensures CarriedAfter(ss).maxValue == if |ss| == 0 then None else Some(MaxOf(Maxs(ss)))
  {
    if |ss| > 0 {
      var init := ss[..|ss| - 1];
      MaxMerge(init);
      MaxOfStep(Maxs(init), Value(ss[|ss| - 1].facetStats.max));
    }
  }

  lemma {:induction false} MinMerge(ss: seq<ShardFacetStats>)
    ensures CarriedAfter(ss).minValue == if |ss| == 0 then None else Some(MinOf(Mins(ss)))
  {
    if |ss| > 0 {
      var init := ss[..|ss| - 1];
      MinMerge(init);
      MinOfStep(Mins(init), Value(ss[|ss| - 1].facetStats.min));
    }
  }

  /** Accumulates the statistics of several shards. */
  class StatCarrier {
    var docCount: int
    var allDocCount: int
    var valueCount: int
    var sum: Option<SortValue>
    var maxValue: Option<SortValue>
    var minValue: Option<SortValue>
    /** The smallest error metric seen so far. */
    var errorValue: Option<SortValue>

    function Parts(): Carried
      reads this
    {
      Carried(docCount, allDocCount, valueCount, sum, maxValue, minValue)
    }

    constructor()
      ensures docCount == 0 && allDocCount == 0 && valueCount == 0
      ensures sum == None && maxValue == None && minValue == None && errorValue == None
    {
      docCount, allDocCount, valueCount := 0, 0, 0;
      sum, maxValue, minValue, errorValue := None, None, None, None;
    }

    method AddStat(fsi: FacetStatsInternal)
      modifies this
      ensures Parts() == AddedStat(old(Parts()), fsi)
      ensures errorValue == old(errorValue)
    {
      maxValue := Some(UpdateMax(maxValue, Value(fsi.max)));
      minValue := Some(UpdateMin(minValue, Value(fsi.min)));
      sum := Some(AddToSum(sum, Value(fsi.sum)));
      docCount := docCount + fsi.docCount;
      allDocCount := allDocCount + fsi.allDocCount;
      valueCount := valueCount + fsi.valueCount;
    }

    method AddErrorStat(errorMetric: SortValue)
      modifies this
      ensures errorValue == Some(UpdateMin(old(errorValue), errorMetric))
      ensures docCount == old(docCount) && allDocCount == old(allDocCount) && valueCount == old(valueCount)
      ensures sum == old(sum) && maxValue == old(maxValue) && minValue == old(minValue)
    {
      errorValue := Some(UpdateMin(errorValue, errorMetric));
    }
  }

  /** convertAndCombineFacetStats: the statistics of one facet from every shard that sent it,
      merged through a StatCarrier. */
  method ConvertAndCombine(req: StatRequest, n: int, ss: seq<ShardFacetStats>) returns (r: FacetStats)
    requires |ss| > 0
    ensures r == Combined(req, n, ss)
  {
    var facetName := ss[0].facetStats.facet;
    var hasError := req.shardFacets != -1 && |ss| < n;
    if Blank(ss[0].facetStats) {
      return BLANK_STATS;
    }
    var carrier := new StatCarrier();
    var i := 0;
    while i < |ss|
      invariant 0 <= i <= |ss|
      invariant carrier.Parts() == CarriedAfter(ss[..i])
    {
      CarriedAfterStep(ss, i);
      carrier.AddStat(ss[i].facetStats);
      i := i + 1;
    }
    assert ss[..|ss|] == ss;
    CarriedAfterMerges(ss);
    r := FacetStats(facetName, carrier.minValue, carrier.maxValue, carrier.sum,
                    carrier.docCount, carrier.allDocCount, carrier.valueCount, hasError, None);
  }

  // ---------------------------------------------------------------------------------------
  // Shards that did not return a facet (getNonReportingShards)

  predicate ReportedBy(ss: seq<ShardFacetStats>, i: int)
  {
    exists k :: 0 <= k < |ss| && ss[k].shardIndex == i
  }

  /** The shards below `n` that sent none of `ss`, in increasing order. */
  function Missing(ss: seq<ShardFacetStats>, n: nat): seq<int>
  {
    if n == 0 then [] else Missing(ss, n - 1) + (if ReportedBy(ss, n - 1) then [] else [n - 1])
  }

  /** The missing shards are exactly the shards that sent nothing, each once, in order. */
  lemma {:induction false} MissingShards(ss: seq<ShardFacetStats>, n: nat)
    ensures forall i :: i in Missing(ss, n) <==> 0 <= i < n && !ReportedBy(ss, i)
    ensures forall a, b :: 0 <= a < b < |Missing(ss, n)| ==> Missing(ss, n)[a] < Missing(ss, n)[b]
  {
    if n > 0 {
      MissingShards(ss, n - 1);
      var prev := Missing(ss, n - 1);
      var m := Missing(ss, n);
      forall a | 0 <= a < |prev|
        ensures prev[a] < n - 1
      {
        assert prev[a] in prev;
      }
      forall a, b | 0 <= a < b < |m|
        ensures m[a] < m[b]
      {
        if b < |prev| {
          assert m[a] == prev[a] && m[b] == prev[b];
        } else {
          assert m[a] == prev[a];
        }
      }
    }
  }

  /** getNonReportingShards: marks the shards that sent the facet in a mask, then lists the
      unmarked ones. */
  method NonReportingShards(ss: seq<ShardFacetStats>, n: nat) returns (missing: seq<int>)
    requires forall k :: 0 <= k < |ss| ==> 0 <= ss[k].shardIndex < n
    ensures missing == Missing(ss, n)
  {
    var mask := new bool[n](_ => false);
    var j := 0;
    while j < |ss|
      invariant 0 <= j <= |ss|
      invariant forall i :: 0 <= i < n ==> (mask[i] <==> ReportedBy(ss[..j], i))
    {
      assert forall k :: 0 <= k < j ==> ss[..j + 1][k] == ss[..j][k];
      assert ss[..j + 1][j] == ss[j];
      mask[ss[j].shardIndex] := true;
      j := j + 1;
    }
    assert ss[..|ss|] == ss;
    missing := [];
    var i := 0;
    while i < n
      invariant 0 <= i <= n
      invariant missing == Missing(ss, i)
    {
      if !mask[i] {
        missing := missing + [i];
      }
      i := i + 1;
    }
  }

  // ---------------------------------------------------------------------------------------
  // The error bound on a facet's sum (getErrorBound)

  function GroupSums(fs: seq<FacetStatsInternal>): (r: seq<SortValue>)
    ensures |r| == |fs|
  {
    if |fs| == 0 then [] else GroupSums(fs[..|fs| - 1]) + [Value(fs[|fs| - 1].sum)]
  }

  /** The smallest sum one shard returned for any of its facets. */
  function ShardMinimum(fs: seq<FacetStatsInternal>): SortValue
    requires |fs| > 0
  {
    MinOf(GroupSums(fs))
  }

  /** The error values getErrorBound collects as written: one per stat group of a missing
      shard; a group with no facet statistics leaves its carrier empty, and reading it throws
      (None). */
  function ErrorValuesAsWritten(sgs: seq<ShardStatGroup>, missing: seq<int>): Option<seq<SortValue>>
  {
    if |sgs| == 0 then Some([])
    else
      var prev := ErrorValuesAsWritten(sgs[..|sgs| - 1], missing);
      var last := sgs[|sgs| - 1];
      if last.shardIndex !in missing then prev
      else if |last.statGroup.facetStats| == 0 || prev.None? then None
      else Some(prev.value + [ShardMinimum(last.statGroup.facetStats)])
  }

  /** getErrorBound as written: the sum, starting from the empty value, of the error values;
      None stands for the NullPointerException. */
  function ErrorBoundAsWritten(sgs: seq<ShardStatGroup>, missing: seq<int>): Option<SortValue>
  {
    match ErrorValuesAsWritten(sgs, missing)
    case None => None
    case Some(vs) => SumFrom(Some(EMPTY_VALUE), vs)
  }

  /** The error values with the missing shards that returned no facet statistics skipped:
      such a shard holds no document of any facet, so it adds nothing to the bound. */
  function ErrorValues(sgs: seq<ShardStatGroup>, missing: seq<int>): seq<SortValue>
  {
    if |sgs| == 0 then []
    else
      var prev := ErrorValues(sgs[..|sgs| - 1], missing);
      var last := sgs[|sgs| - 1];
      if last.shardIndex !in missing || |last.statGroup.facetStats| == 0 then prev
      else prev + [ShardMinimum(last.statGroup.facetStats)]
  }

  /** The corrected error bound: the sum over the missing shards of the smallest sum each
      returned for any facet. */
  function ErrorBound(sgs: seq<ShardStatGroup>, missing: seq<int>): SortValue
  {
    SumFrom(Some(EMPTY_VALUE), ErrorValues(sgs, missing)).value
  }

  predicate EmptyMissingShard(sgs: seq<ShardStatGroup>, missing: seq<int>)
  {
    exists k :: 0 <= k < |sgs| && sgs[k].shardIndex in missing && |sgs[k].statGroup.facetStats| == 0
  }

  /** As written, the error bound throws exactly when a missing shard returned no facet
      statistics; whenever it does not throw, it agrees with the corrected bound. */
  lemma ErrorBoundAsWrittenThrows(sgs: seq<ShardStatGroup>, missing: seq<int>)
    ensures ErrorValuesAsWritten(sgs, missing).None? <==> EmptyMissingShard(sgs, missing)
    ensures ErrorValuesAsWritten(sgs, missing).Some? ==> ErrorValuesAsWritten(sgs, missing).value == ErrorValues(sgs, missing)
    ensures ErrorBoundAsWritten(sgs, missing).None? <==> EmptyMissingShard(sgs, missing)
    ensures ErrorBoundAsWritten(sgs, missing).Some? ==> ErrorBoundAsWritten(sgs, missing).value == ErrorBound(sgs, missing)
  {
    ErrorValuesAsWrittenFacts(sgs, missing);
  }

  lemma {:induction false} ErrorValuesAsWrittenFacts(sgs: seq<ShardStatGroup>, missing: seq<int>)
    ensures ErrorValuesAsWritten(sgs, missing).None? <==> EmptyMissingShard(sgs, missing)
    ensures ErrorValuesAsWritten(sgs, missing).Some? ==> ErrorValuesAsWritten(sgs, missing).value == ErrorValues(sgs, missing)
  {
    if |sgs| > 0 {
      var init := sgs[..|sgs| - 1];
      ErrorValuesAsWrittenFacts(init, missing);
      if EmptyMissingShard(sgs, missing) {
        var k :| 0 <= k < |sgs| && sgs[k].shardIndex in missing && |sgs[k].statGroup.facetStats| == 0;
        if k < |init| {
          assert init[k] == sgs[k];
        }
      }
      if EmptyMissingShard(init, missing) {
        var k :| 0 <= k < |init| && init[k].shardIndex in missing && |init[k].statGroup.facetStats| == 0;
        assert sgs[k] == init[k];
      }
    }
  }

  /** Each numeric component of the corrected bound is the sum of that component over the
      missing shards' minimum sums, and it starts from zero. */
  lemma ErrorBoundSums(sgs: seq<ShardStatGroup>, missing: seq<int>)
    ensures var r := ErrorBound(sgs, missing); var vs := ErrorValues(sgs, missing);
      && r.longValue == LongSum(vs) && r.dateValue == DateSum(vs)
      && r.floatValue == FloatSum(vs) && r.doubleValue == DoubleSum(vs)
      && r.intValue == Wrap32(IntSum(vs))
      && (r.hasValue <==> SomeExists(vs))
  {
    SumTotals(Some(EMPTY_VALUE), ErrorValues(sgs, missing));
  }

  /** One carrier of getErrorBound: the minimum of the sums one shard returned, absent when
      it returned no facet statistics. */
  method ShardErrorValue(fs: seq<FacetStatsInternal>) returns (r: Option<SortValue>)
    ensures r == (if |fs| == 0 then None else Some(ShardMinimum(fs)))
  {
    var sc := new StatCarrier();
    var j := 0;
    while j < |fs|
      invariant 0 <= j <= |fs|
      invariant sc.errorValue == (if j == 0 then None else Some(MinOf(GroupSums(fs[..j]))))
    {
      ShardMinimumStep(fs, j);
      sc.AddErrorStat(Value(fs[j].sum));
      j := j + 1;
    }
    assert fs[..|fs|] == fs;
    r := sc.errorValue;
  }

  /** One more sum taken into a shard's running minimum. */
  lemma ShardMinimumStep(fs: seq<FacetStatsInternal>, j: int)
    requires 0 <= j < |fs|
    ensures UpdateMin(if j == 0 then None else Some(MinOf(GroupSums(fs[..j]))), Value(fs[j].sum))
      == MinOf(GroupSums(fs[..j + 1]))
  {
    assert fs[..j + 1][..j] == fs[..j];
    var sums := GroupSums(fs[..j]);
    assert GroupSums(fs[..j + 1]) == sums + [Value(fs[j].sum)];
    MinOfStep(sums, Value(fs[j].sum));
  }

  /** getErrorBound, with the missing shards that returned no facet statistics skipped: one
      carrier per missing shard takes the minimum of its sums, and the minima are added up. */
  method GetErrorBound(sgs: seq<ShardStatGroup>, missing: seq<int>) returns (bound: SortValue)
    ensures bound == ErrorBound(sgs, missing)
  {
    var errorValues: seq<SortValue> := [];
    var i := 0;
    while i < |sgs|
      invariant 0 <= i <= |sgs|
      invariant errorValues == ErrorValues(sgs[..i], missing)
    {
      assert sgs[..i + 1][..i] == sgs[..i];
      if sgs[i].shardIndex in missing {
        var v := ShardErrorValue(sgs[i].statGroup.facetStats);
        if v.Some? {
          errorValues := errorValues + [v.value];
        }
      }
      i := i + 1;
    }
    assert sgs[..|sgs|] == sgs;
    bound := EMPTY_VALUE;
    var k := 0;
    while k < |errorValues|
      invariant 0 <= k <= |errorValues|
      invariant SumFrom(Some(EMPTY_VALUE), errorValues[..k]) == Some(bound)
    {
      assert errorValues[..k + 1][..k] == errorValues[..k];
      bound := AddToSum(Some(bound), errorValues[k]);
      k := k + 1;
    }
    assert errorValues[..|errorValues|] == errorValues;
  }

  // ---------------------------------------------------------------------------------------
  // Grouping the facet statistics of all shards by facet name

  /** The global statistics of every shard, with the shard's index. */
  function Globals(sgs: seq<ShardStatGroup>): (r: seq<ShardFacetStats>)
    ensures |r| == |sgs|
  {
    if |sgs| == 0 then []
    else Globals(sgs[..|sgs| - 1]) + [ShardFacetStats(sgs[|sgs| - 1].statGroup.globalStats, sgs[|sgs| - 1].shardIndex)]
  }

  /** The statistics of facet `f` among one shard's facet statistics. */
  function Matching(fs: seq<FacetStatsInternal>, f: string, idx: int): seq<ShardFacetStats>
  {
    if |fs| == 0 then []
    else Matching(fs[..|fs| - 1], f, idx) + (if fs[|fs| - 1].facet == f then [ShardFacetStats(fs[|fs| - 1], idx)] else [])
  }

  /** The statistics of facet `f` from every shard, in the order the shards were added. */
  function GroupFor(sgs: seq<ShardStatGroup>, f: string): seq<ShardFacetStats>
  {
    if |sgs| == 0 then []
    else GroupFor(sgs[..|sgs| - 1], f) + Matching(sgs[|sgs| - 1].statGroup.facetStats, f, sgs[|sgs| - 1].shardIndex)
  }

  function AddNames(seen: seq<string>, fs: seq<FacetStatsInternal>): seq<string>
  {
    if |fs| == 0 then seen
    else
      var s := AddNames(seen, fs[..|fs| - 1]);
      if fs[|fs| - 1].facet in s then s else s + [fs[|fs| - 1].facet]
  }

  /** The names of all facets any shard returned, in order of first appearance. */
  function StatNames(sgs: seq<ShardStatGroup>): seq<string>
  {
    if |sgs| == 0 then [] else AddNames(StatNames(sgs[..|sgs| - 1]), sgs[|sgs| - 1].statGroup.facetStats)
  }

  predicate Names(fs: seq<FacetStatsInternal>, f: string)
  {
    exists k :: 0 <= k < |fs| && fs[k].facet == f
  }

  lemma {:induction false} MatchingFacts(fs: seq<FacetStatsInternal>, f: string, idx: int)
    ensures |Matching(fs, f, idx)| > 0 <==> Names(fs, f)
    ensures forall j :: 0 <= j < |Matching(fs, f, idx)| ==>
      Matching(fs, f, idx)[j].facetStats.facet == f && Matching(fs, f, idx)[j].shardIndex == idx
  {
    if |fs| > 0 {
      var init := fs[..|fs| - 1];
      MatchingFacts(init, f, idx);
      assert forall k :: 0 <= k < |init| ==> init[k] == fs[k];
      if Names(fs, f) && !Names(init, f) {
        assert fs[|fs| - 1].facet == f;
      }
    }
  }

  lemma {:induction false} AddNamesFacts(seen: seq<string>, fs: seq<FacetStatsInternal>)
    ensures forall f :: f in AddNames(seen, fs) <==> f in seen || Names(fs, f)
    ensures FacetCombining.Distinct(seen) ==> FacetCombining.Distinct(AddNames(seen, fs))
  {
    if |fs| > 0 {
      var init := fs[..|fs| - 1];
      AddNamesFacts(seen, init);
      assert forall k :: 0 <= k < |init| ==> init[k] == fs[k];
      forall f | Names(fs, f) && !Names(init, f)
        ensures f == fs[|fs| - 1].facet
      {
      }
    }
  }

  /** Each facet some shard returned is named once, and exactly those facets are named. */
  lemma {:induction false} StatNamesExact(sgs: seq<ShardStatGroup>)
    ensures FacetCombining.Distinct(StatNames(sgs))
    ensures forall f :: f in StatNames(sgs) <==> |GroupFor(sgs, f)| > 0
  {
    if |sgs| > 0 {
      var init := sgs[..|sgs| - 1];
      var last := sgs[|sgs| - 1];
      StatNamesExact(init);
      AddNamesFacts(StatNames(init), last.statGroup.facetStats);
      forall f
        ensures f in StatNames(sgs) <==> |GroupFor(sgs, f)| > 0
      {
        MatchingFacts(last.statGroup.facetStats, f, last.shardIndex);
      }
    }
  }

  function ShardIndexes(sgs: seq<ShardStatGroup>): set<int>
  {
    set k | 0 <= k < |sgs| :: sgs[k].shardIndex
  }

  /** Every entry of a facet's group is that facet's statistics from one of the shards. */
  lemma {:induction false} GroupForFacts(sgs: seq<ShardStatGroup>, f: string)
    ensures forall j :: 0 <= j < |GroupFor(sgs, f)| ==> GroupFor(sgs, f)[j].facetStats.facet == f
    ensures forall j :: 0 <= j < |GroupFor(sgs, f)| ==> GroupFor(sgs, f)[j].shardIndex in ShardIndexes(sgs)
  {
    if |sgs| > 0 {
      var init := sgs[..|sgs| - 1];
      var last := sgs[|sgs| - 1];
      GroupForFacts(init, f);
      MatchingFacts(last.statGroup.facetStats, f, last.shardIndex);
      var g := GroupFor(sgs, f);
      var p := GroupFor(init, f);
      assert ShardIndexes(sgs) == ShardIndexes(init) + {last.shardIndex} by {
        assert forall k :: 0 <= k < |init| ==> init[k] == sgs[k];
      }
      forall j | 0 <= j < |g|
        ensures g[j].shardIndex in ShardIndexes(sgs)
      {
        if j >= |p| {
          var m := Matching(last.statGroup.facetStats, f, last.shardIndex);
          assert g[j] == m[j - |p|];
        }
      }
    }
  }

  // ---------------------------------------------------------------------------------------
  // When a facet is flagged as possibly incomplete

  /** Each shard answers once. */
  predicate OneGroupPerShard(sgs: seq<ShardStatGroup>)
  {
    forall a, b :: 0 <= a < b < |sgs| ==> sgs[a].shardIndex != sgs[b].shardIndex
  }

  predicate FacetNamesDistinct(fs: seq<FacetStatsInternal>)
  {
    forall a, b :: 0 <= a < b < |fs| ==> fs[a].facet != fs[b].facet
  }

  /** Each shard names each facet at most once. */
  predicate UniqueFacetNames(sgs: seq<ShardStatGroup>)
  {
    forall k :: 0 <= k < |sgs| ==> FacetNamesDistinct(sgs[k].statGroup.facetStats)
  }

  predicate DistinctShards(ss: seq<ShardFacetStats>)
  {
    forall a, b :: 0 <= a < b < |ss| ==> ss[a].shardIndex != ss[b].shardIndex
  }

  lemma {:induction false} MatchingAtMostOne(fs: seq<FacetStatsInternal>, f: string, idx: int)
    requires FacetNamesDistinct(fs)
    ensures |Matching(fs, f, idx)| <= 1
  {
    if |fs| > 0 {
      var init := fs[..|fs| - 1];
      assert FacetNamesDistinct(init);
      MatchingAtMostOne(init, f, idx);
      if fs[|fs| - 1].facet == f {
        MatchingFacts(init, f, idx);
      }
    }
  }

  /** When each shard answers once and names each facet once, a facet's group holds at most
      one entry per shard. */
  lemma {:induction false} GroupShardsDistinct(sgs: seq<ShardStatGroup>, f: string)
    requires OneGroupPerShard(sgs) && UniqueFacetNames(sgs)
    ensures DistinctShards(GroupFor(sgs, f))
  {
    if |sgs| > 0 {
      var init := sgs[..|sgs| - 1];
      var last := sgs[|sgs| - 1];
      assert forall k :: 0 <= k < |init| ==> init[k] == sgs[k];
      GroupShardsDistinct(init, f);
      GroupForFacts(init, f);
      MatchingFacts(last.statGroup.facetStats, f, last.shardIndex);
      MatchingAtMostOne(last.statGroup.facetStats, f, last.shardIndex);
      var p := GroupFor(init, f);
      var g := GroupFor(sgs, f);
      assert last.shardIndex !in ShardIndexes(init);
      forall a, b | 0 <= a < b < |g|
        ensures g[a].shardIndex != g[b].shardIndex
      {
        if b >= |p| {
          assert g[a] == p[a];
        }
      }
    }
  }

  function ReportingSet(ss: seq<ShardFacetStats>): set<int>
  {
    set k | 0 <= k < |ss| :: ss[k].shardIndex
  }

  lemma {:induction false} DistinctCount(ss: seq<ShardFacetStats>)
    requires DistinctShards(ss)
    ensures |ReportingSet(ss)| == |ss|
  {
    if |ss| > 0 {
      var init := ss[..|ss| - 1];
      assert forall k :: 0 <= k < |init| ==> init[k] == ss[k];
      DistinctCount(init);
      assert ReportingSet(ss) == ReportingSet(init) + {ss[|ss| - 1].shardIndex};
    }
  }

  /** A merged facet is flagged as possibly incomplete exactly when not every facet was
      requested from the shards and some shard did not return it. */
  lemma HasErrorIffMissing(req: StatRequest, n: nat, ss: seq<ShardFacetStats>)
    requires |ss| > 0 && !Blank(ss[0].facetStats) && DistinctShards(ss)
    requires forall k :: 0 <= k < |ss| ==> 0 <= ss[k].shardIndex < n
    ensures Combined(req, n, ss).hasError <==> req.shardFacets != -1 && |Missing(ss, n)| > 0
  {
    DistinctCount(ss);
    MissingShards(ss, n);
    var reporting := ReportingSet(ss);
    var all := FacetCombining.Upto(n);
    assert reporting <= all;
    if |Missing(ss, n)| == 0 {
      forall i | 0 <= i < n
        ensures i in reporting
      {
        assert i !in Missing(ss, n);
      }
      FacetCombining.SubsetSize(all, reporting);
    } else {
      var i := Missing(ss, n)[0];
      assert i in Missing(ss, n);
      assert reporting <= all - {i};
      FacetCombining.SubsetSize(reporting, all - {i});
    }
  }

  // ---------------------------------------------------------------------------------------
  // Ordering the merged facets by descending sum (reverseCompareFacetStats)

  /** Compares two sums on the double, int, long, float and date components in turn. */
  function CompareSums(sv1: SortValue, sv2: SortValue): int
  {
    var c1 := CompareReals(sv1.doubleValue, sv2.doubleValue);
    if c1 != 0 then c1
    else
      var c2 := CompareInts(sv1.intValue, sv2.intValue);
      if c2 != 0 then c2
      else
        var c3 := CompareInts(sv1.longValue, sv2.longValue);
        if c3 != 0 then c3
        else
          var c4 := CompareReals(sv1.floatValue, sv2.floatValue);
          if c4 != 0 then c4 else CompareInts(sv1.dateValue, sv2.dateValue)
  }

  /** Larger sums first; two facets of which one has no sum are equal. */
  function ReverseCompareFacetStats(o1: FacetStats, o2: FacetStats): int
  {
    if o1.sum.Some? && o2.sum.Some? then CompareSums(o2.sum.value, o1.sum.value) else 0
  }

  /** The compared components of a sum, in order of precedence. */
  function KeyOf(v: SortValue): seq<real>
  {
    [v.doubleValue, v.intValue as real, v.longValue as real, v.floatValue, v.dateValue as real]
  }

  function LexCompare(a: seq<real>, b: seq<real>): int
    requires |a| == |b|
  {
    if |a| == 0 then 0
    else if CompareReals(a[0], b[0]) != 0 then CompareReals(a[0], b[0])
    else LexCompare(a[1..], b[1..])
  }

  lemma {:induction false} LexAntisymmetric(a: seq<real>, b: seq<real>)
    requires |a| == |b|
    ensures LexCompare(a, b) == -LexCompare(b, a)
  {
    if |a| > 0 && a[0] == b[0] {
      LexAntisymmetric(a[1..], b[1..]);
    }
  }

  lemma {:induction false} LexTransitive(a: seq<real>, b: seq<real>, c: seq<real>)
    requires |a| == |b| == |c|
    requires LexCompare(a, b) <= 0 && LexCompare(b, c) <= 0
    ensures LexCompare(a, c) <= 0
  {
    if |a| > 0 && a[0] == b[0] && b[0] == c[0] {
      LexTransitive(a[1..], b[1..], c[1..]);
    }
  }

  lemma IntsAsReals(a: int, b: int)
    ensures CompareInts(a, b) == CompareReals(a as real, b as real)
  {
  }

  /** The component cascade is the lexicographic order on the keys. */
  lemma CompareSumsIsLex(x: SortValue, y: SortValue)
    ensures CompareSums(x, y) == LexCompare(KeyOf(x), KeyOf(y))
  {
    var a, b := KeyOf(x), KeyOf(y);
    IntsAsReals(x.intValue, y.intValue);
    IntsAsReals(x.longValue, y.longValue);
    IntsAsReals(x.dateValue, y.dateValue);
    var a4, b4 := [x.dateValue as real], [y.dateValue as real];
    var a3, b3 := [x.floatValue] + a4, [y.floatValue] + b4;
    var a2, b2 := [x.longValue as real] + a3, [y.longValue as real] + b3;
    var a1, b1 := [x.intValue as real] + a2, [y.intValue as real] + b2;
    assert a == [x.doubleValue] + a1 && b == [y.doubleValue] + b1;
    assert a1[1..] == a2 && a2[1..] == a3 && a3[1..] == a4 && a4[1..] == [];
    assert b1[1..] == b2 && b2[1..] == b3 && b3[1..] == b4 && b4[1..] == [];
    assert LexCompare(a4, b4) == CompareInts(x.dateValue, y.dateValue);
    var c4 := CompareReals(x.floatValue, y.floatValue);
    assert LexCompare(a3, b3) == if c4 != 0 then c4 else LexCompare(a4, b4);
    var c3 := CompareInts(x.longValue, y.longValue);
    assert LexCompare(a2, b2) == if c3 != 0 then c3 else LexCompare(a3, b3);
    var c2 := CompareInts(x.intValue, y.intValue);
    assert LexCompare(a1, b1) == if c2 != 0 then c2 else LexCompare(a2, b2);
  }

  lemma ReverseCompareAntisymmetric(o1: FacetStats, o2: FacetStats)
    ensures ReverseCompareFacetStats(o1, o2) == -ReverseCompareFacetStats(o2, o1)
  {
    if o1.sum.Some? && o2.sum.Some? {
      CompareSumsIsLex(o2.sum.value, o1.sum.value);
      CompareSumsIsLex(o1.sum.value, o2.sum.value);
      LexAntisymmetric(KeyOf(o2.sum.value), KeyOf(o1.sum.value));
    }
  }

  lemma ReverseCompareTransitive(o1: FacetStats, o2: FacetStats, o3: FacetStats)
    requires o1.sum.Some? && o2.sum.Some? && o3.sum.Some?
    requires ReverseCompareFacetStats(o1, o2) <= 0 && ReverseCompareFacetStats(o2, o3) <= 0
    ensures ReverseCompareFacetStats(o1, o3) <= 0
  {
    var k1, k2, k3 := KeyOf(o1.sum.value), KeyOf(o2.sum.value), KeyOf(o3.sum.value);
    CompareSumsIsLex(o2.sum.value, o1.sum.value);
    CompareSumsIsLex(o3.sum.value, o2.sum.value);
    CompareSumsIsLex(o3.sum.value, o1.sum.value);
    LexTransitive(k3, k2, k1);
  }

  /** Inserts `x` before the first facet it does not follow. */
  function InsertStats(x: FacetStats, s: seq<FacetStats>): (r: seq<FacetStats>)
    ensures multiset(r) == multiset(s) + multiset{x}
  {
    if |s| == 0 then [x]
    else if ReverseCompareFacetStats(x, s[0]) <= 0 then [x] + s
    else
      assert s == [s[0]] + s[1..];
      [s[0]] + InsertStats(x, s[1..])
  }

  /** A stable sort of the merged facets with reverseCompareFacetStats. */
  function SortStats(s: seq<FacetStats>): (r: seq<FacetStats>)
    ensures multiset(r) == multiset(s)
  {
    if |s| == 0 then []
    else
      assert s == [s[0]] + s[1..];
      InsertStats(s[0], SortStats(s[1..]))
  }

  predicate AllHaveSum(s: seq<FacetStats>)
  {
    forall k :: 0 <= k < |s| ==> s[k].sum.Some?
  }

  predicate SortedBySum(s: seq<FacetStats>)
  {
    forall i, j :: 0 <= i < j < |s| ==> ReverseCompareFacetStats(s[i], s[j]) <= 0
  }

  lemma {:induction false} InsertSorted(x: FacetStats, s: seq<FacetStats>)
    requires x.sum.Some? && AllHaveSum(s) && SortedBySum(s)
    ensures SortedBySum(InsertStats(x, s))
  {
    if |s| > 0 {
      if ReverseCompareFacetStats(x, s[0]) <= 0 {
        HeadBeforeAll(x, s);
      } else {
        var t := s[1..];
        InsertSorted(x, t);
        ReverseCompareAntisymmetric(x, s[0]);
        BeforeInserted(s[0], x, t);
      }
    }
  }

  /** A facet ordered before the first of a sorted list is ordered before all of it. */
  lemma HeadBeforeAll(x: FacetStats, s: seq<FacetStats>)
    requires x.sum.Some? && AllHaveSum(s) && SortedBySum(s) && |s| > 0 && ReverseCompareFacetStats(x, s[0]) <= 0
    ensures forall j :: 0 <= j < |s| ==> ReverseCompareFacetStats(x, s[j]) <= 0
  {
    forall j | 0 < j < |s|
      ensures ReverseCompareFacetStats(x, s[j]) <= 0
    {
      ReverseCompareTransitive(x, s[0], s[j]);
    }
  }

  /** A facet ordered before x and before all of t is ordered before all of the insertion. */
  lemma BeforeInserted(y: FacetStats, x: FacetStats, t: seq<FacetStats>)
    requires ReverseCompareFacetStats(y, x) <= 0
    requires forall k :: 0 <= k < |t| ==> ReverseCompareFacetStats(y, t[k]) <= 0
    ensures forall j :: 0 <= j < |InsertStats(x, t)| ==> ReverseCompareFacetStats(y, InsertStats(x, t)[j]) <= 0
  {
    var r := InsertStats(x, t);
    forall j | 0 <= j < |r|
      ensures ReverseCompareFacetStats(y, r[j]) <= 0
    {
      assert r[j] in multiset(r);
      if r[j] != x {
        assert r[j] in multiset(t);
        var k :| 0 <= k < |t| && t[k] == r[j];
      }
    }
  }

  /** The sort returns the same facets and, when every facet has a sum, orders them by
      descending sum: in particular the double component never increases. */
  lemma {:induction false} SortStatsSorted(s: seq<FacetStats>)
    requires AllHaveSum(s)
    ensures AllHaveSum(SortStats(s)) && SortedBySum(SortStats(s))
    ensures forall i, j :: 0 <= i < j < |SortStats(s)| ==>
      SortStats(s)[i].sum.value.doubleValue >= SortStats(s)[j].sum.value.doubleValue
  {
    var r := SortStats(s);
    forall k | 0 <= k < |r|
      ensures r[k].sum.Some?
    {
      assert r[k] in multiset(s);
    }
    if |s| > 0 {
      SortStatsSorted(s[1..]);
      InsertSorted(s[0], SortStats(s[1..]));
    }
    forall i, j | 0 <= i < j < |r|
      ensures r[i].sum.value.doubleValue >= r[j].sum.value.doubleValue
    {
      CompareSumsIsLex(r[j].sum.value, r[i].sum.value);
    }
  }

  // ---------------------------------------------------------------------------------------
  // The combined stat group (getCombinedStatGroupAndConvertToExternalType)

  /** The merged statistics of facet `f`, with the error bound attached when it is flagged. */
  function FacetResult(req: StatRequest, n: nat, sgs: seq<ShardStatGroup>, f: string): FacetStats
    requires |GroupFor(sgs, f)| > 0
  {
    var ss := GroupFor(sgs, f);
    var c := Combined(req, n, ss);
    if c.hasError then c.(maxSumError := Some(ErrorBound(sgs, Missing(ss, n)))) else c
  }

  function FacetResults(req: StatRequest, n: nat, sgs: seq<ShardStatGroup>, names: seq<string>): (r: seq<FacetStats>)
    requires forall f :: f in names ==> |GroupFor(sgs, f)| > 0
    ensures |r| == |names|
  {
    if |names| == 0 then []
    else FacetResults(req, n, sgs, names[..|names| - 1]) + [FacetResult(req, n, sgs, names[|names| - 1])]
  }

  /** The stat group returned to the client. */
  function CombinedStatGroup(req: StatRequest, n: nat, sgs: seq<ShardStatGroup>): StatGroup
    requires |sgs| > 0
  {
    StatNamesExact(sgs);
    StatGroup(req, Combined(req, n, Globals(sgs)), SortStats(FacetResults(req, n, sgs, StatNames(sgs))))
  }

  /** A merged facet is flagged exactly when not every facet was requested from the shards
      and some shard did not return it; then -- and only then -- it carries the corrected
      error bound over the shards that did not return it. */
  lemma FacetResultFlag(req: StatRequest, n: nat, sgs: seq<ShardStatGroup>, f: string)
    requires |GroupFor(sgs, f)| > 0
    requires ShardsInRange(sgs, n) && OneGroupPerShard(sgs) && UniqueFacetNames(sgs)
    ensures var r := FacetResult(req, n, sgs, f); var ss := GroupFor(sgs, f);
      && (r.hasError <==> !Blank(ss[0].facetStats) && req.shardFacets != -1 && exists i :: 0 <= i < n && !ReportedBy(ss, i))
      && (r.maxSumError.Some? <==> r.hasError)
      && (r.hasError ==> r.maxSumError.value == ErrorBound(sgs, Missing(ss, n)))
  {
    var ss := GroupFor(sgs, f);
    GroupForFacts(sgs, f);
    GroupShardsDistinct(sgs, f);
    MissingShards(ss, n);
    if !Blank(ss[0].facetStats) {
      HasErrorIffMissing(req, n, ss);
    }
    if |Missing(ss, n)| > 0 {
      var i := Missing(ss, n)[0];
      assert i in Missing(ss, n);
      assert 0 <= i < n && !ReportedBy(ss, i);
    } else {
      forall i | 0 <= i < n
        ensures ReportedBy(ss, i)
      {
        assert i !in Missing(ss, n);
      }
    }
  }

  /** A merged facet carries its own name and the sums of its shards' counts. */
  lemma FacetResultCounts(req: StatRequest, n: nat, sgs: seq<ShardStatGroup>, f: string)
    requires |GroupFor(sgs, f)| > 0
    ensures var r := FacetResult(req, n, sgs, f); var ss := GroupFor(sgs, f);
      !Blank(ss[0].facetStats) ==>
        r.facet == f && r.docCount == DocCounts(ss) && r.allDocCount == AllDocCounts(ss) && r.valueCount == ValueCounts(ss)
  {
    GroupForFacts(sgs, f);
  }

  /** The facets returned are exactly the facets some shard returned, once each, each merged
      from its own group; when all of them have a sum they come largest sum first. */
  lemma CombinedFacets(req: StatRequest, n: nat, sgs: seq<ShardStatGroup>)
    requires |sgs| > 0
    ensures var out := CombinedStatGroup(req, n, sgs).facetStats;
      && |out| == |StatNames(sgs)|
      && (forall f :: f in StatNames(sgs) ==> |GroupFor(sgs, f)| > 0)
      && multiset(out) == multiset(FacetResults(req, n, sgs, StatNames(sgs)))
      && (AllHaveSum(out) ==> SortedBySum(out))
  {
    StatNamesExact(sgs);
    var unsorted := FacetResults(req, n, sgs, StatNames(sgs));
    var out := SortStats(unsorted);
    assert |out| == |unsorted| by {
      assert |multiset(out)| == |multiset(unsorted)|;
    }
    if AllHaveSum(out) {
      forall k | 0 <= k < |unsorted|
        ensures unsorted[k].sum.Some?
      {
        assert unsorted[k] in multiset(out);
      }
      SortStatsSorted(unsorted);
    }
  }

  /** Merges the stat groups the shards return for one stat request. */
  class StatCombiner {
    const statRequest: StatRequest
    const shardResponses: nat
    var statGroups: seq<ShardStatGroup>

    constructor(statRequest: StatRequest, shardResponses: nat)
      ensures this.statRequest == statRequest && this.shardResponses == shardResponses
      ensures statGroups == []
    {
      this.statRequest := statRequest;
      this.shardResponses := shardResponses;
      statGroups := [];
    }

    method HandleStatGroupForShard(statGroup: StatGroupInternal, shardIndex: int)
      modifies this
      ensures statGroups == old(statGroups) + [ShardStatGroup(statGroup, shardIndex)]
    {
      statGroups := statGroups + [ShardStatGroup(statGroup, shardIndex)];
    }

    method GetCombinedStatGroup() returns (r: StatGroup)
      requires |statGroups| > 0 && ShardsInRange(statGroups, shardResponses)
      ensures r == CombinedStatGroup(statRequest, shardResponses, statGroups)
    {
      var sgs := statGroups;
      var globalList: seq<ShardFacetStats> := [];
      var i := 0;
      while i < |sgs|
        invariant 0 <= i <= |sgs|
        invariant globalList == Globals(sgs[..i])
      {
        assert sgs[..i + 1][..i] == sgs[..i];
        globalList := globalList + [ShardFacetStats(sgs[i].statGroup.globalStats, sgs[i].shardIndex)];
        i := i + 1;
      }
      assert sgs[..|sgs|] == sgs;
      var names, groups := GroupByFacet(sgs);
      StatNamesExact(sgs);
      var globalStats := ConvertAndCombine(statRequest, shardResponses, globalList);
      var facetStats := CombineFacets(statRequest, shardResponses, sgs, names, groups);
      r := StatGroup(statRequest, globalStats, SortStats(facetStats));
    }
  }

  function GetSeq(m: map<string, seq<ShardFacetStats>>, f: string): seq<ShardFacetStats>
  {
    if f in m then m[f] else []
  }

  /** The groups after the first facet statistics of a shard are added, one at a time. */
  ghost function Grouped(groups: map<string, seq<ShardFacetStats>>, fs: seq<FacetStatsInternal>, idx: int): map<string, seq<ShardFacetStats>>
  {
    if |fs| == 0 then groups
    else
      var g := Grouped(groups, fs[..|fs| - 1], idx);
      var last := fs[|fs| - 1];
      g[last.facet := GetSeq(g, last.facet) + [ShardFacetStats(last, idx)]]
  }

  /** Adding a shard's statistics appends to each facet's group exactly that shard's
      statistics of the facet. */
  lemma {:induction false} GroupedAt(groups: map<string, seq<ShardFacetStats>>, fs: seq<FacetStatsInternal>, idx: int, f: string)
    ensures GetSeq(Grouped(groups, fs, idx), f) == GetSeq(groups, f) + Matching(fs, f, idx)
  {
    if |fs| > 0 {
      var init := fs[..|fs| - 1];
      GroupedAt(groups, init, idx, f);
      var m := Matching(init, f, idx);
      var g := Grouped(groups, init, idx);
      var x := ShardFacetStats(fs[|fs| - 1], idx);
      if fs[|fs| - 1].facet == f {
        assert GetSeq(Grouped(groups, fs, idx), f) == GetSeq(g, f) + [x];
        assert Matching(fs, f, idx) == m + [x];
        assert GetSeq(groups, f) + m + [x] == GetSeq(groups, f) + (m + [x]);
      } else {
        assert GetSeq(Grouped(groups, fs, idx), f) == GetSeq(g, f);
        assert Matching(fs, f, idx) == m + [];
        assert m + [] == m;
      }
    }
  }

  /** The facet statistics of one shard added to the groups (the inner forEach). */
  method AddShardFacets(names: seq<string>, groups: map<string, seq<ShardFacetStats>>,
                        fs: seq<FacetStatsInternal>, idx: int)
    returns (names': seq<string>, groups': map<string, seq<ShardFacetStats>>)
    ensures names' == AddNames(names, fs)
    ensures groups' == Grouped(groups, fs, idx)
  {
    names', groups' := names, groups;
    var j := 0;
    while j < |fs|
      invariant 0 <= j <= |fs|
      invariant names' == AddNames(names, fs[..j])
      invariant groups' == Grouped(groups, fs[..j], idx)
    {
      var name := fs[j].facet;
      var temp := GetSeq(groups', name);
      assert fs[..j + 1][..j] == fs[..j];
      groups' := groups'[name := temp + [ShardFacetStats(fs[j], idx)]];
      if name !in names' {
        names' := names' + [name];
      }
      j := j + 1;
    }
    assert fs[..|fs|] == fs;
  }

  /** Groups the facet statistics of all shards by facet name, keeping the names in order of
      first appearance. */
  method GroupByFacet(sgs: seq<ShardStatGroup>) returns (names: seq<string>, groups: map<string, seq<ShardFacetStats>>)
    ensures names == StatNames(sgs)
    ensures forall f :: GetSeq(groups, f) == GroupFor(sgs, f)
  {
    names, groups := [], map[];
    var i := 0;
    while i < |sgs|
      invariant 0 <= i <= |sgs|
      invariant names == StatNames(sgs[..i])
      invariant forall f :: GetSeq(groups, f) == GroupFor(sgs[..i], f)
    {
      assert sgs[..i + 1][..i] == sgs[..i];
      ghost var before := groups;
      names, groups := AddShardFacets(names, groups, sgs[i].statGroup.facetStats, sgs[i].shardIndex);
      forall f
        ensures GetSeq(groups, f) == GroupFor(sgs[..i + 1], f)
      {
        GroupedAt(before, sgs[i].statGroup.facetStats, sgs[i].shardIndex, f);
      }
      i := i + 1;
    }
    assert sgs[..|sgs|] == sgs;
  }

  /** Merges each facet's group and attaches the error bound to the flagged ones. */
  method CombineFacets(req: StatRequest, n: nat, sgs: seq<ShardStatGroup>, names: seq<string>,
                       groups: map<string, seq<ShardFacetStats>>) returns (out: seq<FacetStats>)
    requires ShardsInRange(sgs, n)
    requires forall f :: f in names ==> |GroupFor(sgs, f)| > 0
    requires forall f :: GetSeq(groups, f) == GroupFor(sgs, f)
    ensures out == FacetResults(req, n, sgs, names)
  {
    out := [];
    var k := 0;
    while k < |names|
      invariant 0 <= k <= |names|
      invariant out == FacetResults(req, n, sgs, names[..k])
    {
      assert names[..k + 1][..k] == names[..k];
      var fs := CombineFacet(req, n, sgs, names[k], GetSeq(groups, names[k]));
      out := out + [fs];
      k := k + 1;
    }
    assert names[..|names|] == names;
  }

  /** One facet's group merged, with the error bound attached when it is flagged. */
  method CombineFacet(req: StatRequest, n: nat, sgs: seq<ShardStatGroup>, f: string,
                      ss: seq<ShardFacetStats>) returns (fs: FacetStats)
    requires ShardsInRange(sgs, n)
    requires ss == GroupFor(sgs, f) && |ss| > 0
    ensures fs == FacetResult(req, n, sgs, f)
  {
    GroupForFacts(sgs, f);
    fs := ConvertAndCombine(req, n, ss);
    if fs.hasError {
      var missing := NonReportingShards(ss, n);
      var bound := GetErrorBound(sgs, missing);
      fs := fs.(maxSumError := Some(bound));
    }
  }

  // ---------------------------------------------------------------------------------------
  // Examples

  function LongValue(v: int): SortValue
  {
    PostSorting.SortValue(true, 0, v, 0, 0.0, 0.0, "")
  }

  function StatsWithSum(facet: string, sum: int): FacetStatsInternal
  {
    FacetStatsInternal(facet, Some(LongValue(sum)), Some(LongValue(sum)), Some(LongValue(sum)), 1, 1, 1)
  }

  /** Three shards that each returned their two largest facets: a facet missing from shards
      1 and 2 is bounded by the smallest sums of those shards, 30 + 40. */
  lemma ExampleErrorBoundOverTwoShards()
    ensures var sgs := [
        ShardStatGroup(StatGroupInternal(StatsWithSum("", 150), [StatsWithSum("facetA", 100), StatsWithSum("facetB", 50)]), 0),
        ShardStatGroup(StatGroupInternal(StatsWithSum("", 110), [StatsWithSum("facetB", 80), StatsWithSum("facetC", 30)]), 1),
        ShardStatGroup(StatGroupInternal(StatsWithSum("", 100), [StatsWithSum("facetB", 60), StatsWithSum("facetC", 40)]), 2)];
      ErrorBound(sgs, [1, 2]).longValue == 70
  {
    var sgs := [
        ShardStatGroup(StatGroupInternal(StatsWithSum("", 150), [StatsWithSum("facetA", 100), StatsWithSum("facetB", 50)]), 0),
        ShardStatGroup(StatGroupInternal(StatsWithSum("", 110), [StatsWithSum("facetB", 80), StatsWithSum("facetC", 30)]), 1),
        ShardStatGroup(StatGroupInternal(StatsWithSum("", 100), [StatsWithSum("facetB", 60), StatsWithSum("facetC", 40)]), 2)];
    var fs1 := sgs[1].statGroup.facetStats;
    var fs2 := sgs[2].statGroup.facetStats;
    assert GroupSums(fs1) == [LongValue(80), LongValue(30)] by {
      assert fs1[..1] == [StatsWithSum("facetB", 80)];
    }
    assert GroupSums(fs2) == [LongValue(60), LongValue(40)] by {
      assert fs2[..1] == [StatsWithSum("facetB", 60)];
    }
    assert ShardMinimum(fs1).longValue == 30 by {
      assert GroupSums(fs1)[..1] == [LongValue(80)];
    }
    assert ShardMinimum(fs2).longValue == 40 by {
      assert GroupSums(fs2)[..1] == [LongValue(60)];
    }
    assert sgs[..2][..1] == sgs[..1];
    assert sgs[..1] == [sgs[0]];
    assert sgs[..2] == [sgs[0], sgs[1]];
    assert ErrorValues(sgs[..1], [1, 2]) == [] by {
      assert sgs[..1][..0] == [];
    }
    assert ErrorValues(sgs[..2], [1, 2]) == [ShardMinimum(fs1)];
    var vs := ErrorValues(sgs, [1, 2]);
    assert vs == [ShardMinimum(fs1), ShardMinimum(fs2)];
    ErrorBoundSums(sgs, [1, 2]);
    assert vs[..1] == [ShardMinimum(fs1)];
  }

  /** As written, a shard that returned no facet statistics at all (it matched no document)
      makes the error bound of a facet it is missing throw; the corrected bound treats the
      shard as holding nothing. */
  lemma ExampleEmptyShardThrows()
    ensures var sgs := [
        ShardStatGroup(StatGroupInternal(StatsWithSum("", 100), [StatsWithSum("facetA", 100)]), 0),
        ShardStatGroup(StatGroupInternal(FacetStatsInternal("", None, None, None, 0, 0, 0), []), 1)];
      var req := StatRequest("amount", 10, 2, 0.0, []);
      var ss := GroupFor(sgs, "facetA");
      && |ss| == 1 && Combined(req, 2, ss).hasError && Missing(ss, 2) == [1]
      && ErrorBoundAsWritten(sgs, Missing(ss, 2)).None?
      && ErrorBound(sgs, Missing(ss, 2)) == EMPTY_VALUE
  {
    var sgs := [
        ShardStatGroup(StatGroupInternal(StatsWithSum("", 100), [StatsWithSum("facetA", 100)]), 0),
        ShardStatGroup(StatGroupInternal(FacetStatsInternal("", None, None, None, 0, 0, 0), []), 1)];
    var fs0 := sgs[0].statGroup.facetStats;
    assert Matching(fs0, "facetA", 0) == [ShardFacetStats(StatsWithSum("facetA", 100), 0)] by {
      assert fs0[..0] == [];
    }
    assert sgs[..1] == [sgs[0]];
    assert sgs[..1][..0] == [];
    assert GroupFor(sgs[..1], "facetA") == [ShardFacetStats(StatsWithSum("facetA", 100), 0)];
    assert Matching([], "facetA", 1) == [];
    var ss := GroupFor(sgs, "facetA");
    assert ss == [ShardFacetStats(StatsWithSum("facetA", 100), 0)];
    assert ReportedBy(ss, 0) by {
      assert ss[0].shardIndex == 0;
    }
    assert !ReportedBy(ss, 1);
    assert Missing(ss, 1) == [];
    assert Missing(ss, 2) == [1];
    ErrorBoundAsWrittenThrows(sgs, [1]);
    assert EmptyMissingShard(sgs, [1]) by {
      assert sgs[1].shardIndex in [1] && |sgs[1].statGroup.facetStats| == 0;
    }
    assert ErrorValues(sgs, [1]) == [];
  }
}
