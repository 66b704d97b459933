/** The defaults and checks a query request goes through before it is run
    (QueryRequestValidator): facet-count and stat requests get their facet amounts, count
    requests for the same facet are merged, highlight and analysis requests get their
    defaults, and both of these need the full document to be fetched. */
module QueryRequestValidation {
  import opened Wrappers
  import opened JavaInt

  /** FULL and ALL fetch the document; the other fetch types do not. */
  datatype FetchType = FULL | ALL | OtherFetchType

  datatype Facet = Facet(facetLabel: string, path: seq<string>)

  datatype CountRequest = CountRequest(facetField: Facet, maxFacets: int, shardFacets: int)

  datatype StatRequest = StatRequest(numericField: string, maxFacets: int, shardFacets: int, precision: real, percentiles: seq<real>)

  datatype HighlightRequest = HighlightRequest(field: string, preTag: string, postTag: string, numberOfFragments: int, fragmentLength: int)

  datatype AnalysisRequest = AnalysisRequest(field: string, topN: int)

  datatype QueryRequest = QueryRequest(
    resultFetchType: FetchType,
    statRequests: seq<StatRequest>,
    countRequests: seq<CountRequest>,
    highlightRequests: seq<HighlightRequest>,
    analysisRequests: seq<AnalysisRequest>)

  const DEFAULT_MAX_FACETS: int := 10
  const DEFAULT_PRECISION: real := 0.001
  const DEFAULT_PRE_TAG: string := "<em>"
  const DEFAULT_POST_TAG: string := "</em>"
  const DEFAULT_NUMBER_OF_FRAGMENTS: int := 1
  const DEFAULT_FRAGMENT_LENGTH: int := 100
  const DEFAULT_TOP_N: int := 10

  /** maxFacets 0 becomes 10; shardFacets 0 becomes ten times maxFacets, an `int` product. */
  function FacetAmounts(maxFacets: int, shardFacets: int): (int, int)
  {
    var m := if maxFacets == 0 then DEFAULT_MAX_FACETS else maxFacets;
    (m, if shardFacets == 0 then Wrap32(m * 10) else shardFacets)
  }

  /** A facet amount that is set is kept, one that is 0 is defaulted, and defaulting twice is
      defaulting once. */
  lemma FacetAmountsFacts(maxFacets: int, shardFacets: int)
    ensures var (m, s) := FacetAmounts(maxFacets, shardFacets);
      m != 0 && (maxFacets != 0 ==> m == maxFacets) && (shardFacets != 0 ==> s == shardFacets) &&
      (shardFacets == 0 && 0 < m <= 214748364 ==> s == 10 * m) &&
      FacetAmounts(m, s) == (m, s)
  {
    var (m, s) := FacetAmounts(maxFacets, shardFacets);
    if shardFacets == 0 && 0 < m <= 214748364 {
      assert IsInt(m * 10);
    }
  }

  const PRECISION_NEGATIVE: string := "IllegalArgumentException: Percentile precision must be a number > 0.0"
  const PERCENTILE_OUT_OF_RANGE: string := "IllegalArgumentException: Percentiles must be in the range [0.0, 1.0]"

  predicate PercentileInRange(p: real)
  {
    0.0 <= p <= 1.0
  }

  /** One stat request: its facet amounts, a precision of 0.001 when percentiles are asked
      for without one, then a negative precision or a percentile outside [0, 1] throws. */
  function StatDefaults(s: StatRequest): Result<StatRequest>
  {
    var (m, sf) := FacetAmounts(s.maxFacets, s.shardFacets);
    var precision := if |s.percentiles| > 0 && s.precision == 0.0 then DEFAULT_PRECISION else s.precision;
    if precision < 0.0 then Err(PRECISION_NEGATIVE)
    else if exists i :: 0 <= i < |s.percentiles| && !PercentileInRange(s.percentiles[i]) then
      Err(PERCENTILE_OUT_OF_RANGE)
    else Ok(s.(maxFacets := m, shardFacets := sf, precision := precision))
  }

  /** A stat request is refused exactly for a negative precision or a percentile outside
      [0, 1]; an accepted one that asks for percentiles has a positive precision, and
      validating it again changes nothing. */
  lemma StatDefaultsFacts(s: StatRequest)
    ensures var r := StatDefaults(s);
      (r.Err? <==> s.precision < 0.0 || exists i :: 0 <= i < |s.percentiles| && !PercentileInRange(s.percentiles[i])) &&
      (r.Ok? ==> (r.value.percentiles == s.percentiles && r.value.numericField == s.numericField &&
        (|s.percentiles| > 0 ==> r.value.precision > 0.0) &&
        (r.value.maxFacets, r.value.shardFacets) == FacetAmounts(s.maxFacets, s.shardFacets) &&
        StatDefaults(r.value) == r))
  {
    StatDefaultsRefused(s);
    if StatDefaults(s).Ok? {
      StatDefaultsAccepted(s);
    }
  }

  lemma StatDefaultsRefused(s: StatRequest)
    ensures StatDefaults(s).Err? <==>
      s.precision < 0.0 || exists i :: 0 <= i < |s.percentiles| && !PercentileInRange(s.percentiles[i])
  {
  }

  lemma StatDefaultsAccepted(s: StatRequest)
    requires StatDefaults(s).Ok?
    ensures var v := StatDefaults(s).value;
      v.percentiles == s.percentiles && v.numericField == s.numericField &&
      (|s.percentiles| > 0 ==> v.precision > 0.0) &&
      (v.maxFacets, v.shardFacets) == FacetAmounts(s.maxFacets, s.shardFacets) &&
      StatDefaults(v) == Ok(v)
  {
    FacetAmountsFacts(s.maxFacets, s.shardFacets);
    var v := StatDefaults(s).value;
    assert FacetAmounts(v.maxFacets, v.shardFacets) == (v.maxFacets, v.shardFacets);
    assert v == s.(maxFacets := v.maxFacets, shardFacets := v.shardFacets, precision := v.precision);
  }

  /** The stat requests in order; the first refused one stops the validation. */
  function StatsDefaults(stats: seq<StatRequest>): (r: Result<seq<StatRequest>>)
  {
    if |stats| == 0 then Ok([])
    else
      match StatsDefaults(stats[..|stats| - 1])
      case Err(e) => Err(e)
      case Ok(done) =>
        match StatDefaults(stats[|stats| - 1])
        case Err(e) => Err(e)
        case Ok(s) => Ok(done + [s])
  }

  /** The list is accepted exactly when every stat request is, and then holds each one's
      validated form in place. */
  lemma StatsDefaultsFacts(stats: seq<StatRequest>)
    ensures var r := StatsDefaults(stats);
      (r.Ok? <==> forall i :: 0 <= i < |stats| ==> StatDefaults(stats[i]).Ok?) &&
      (r.Ok? ==> |r.value| == |stats| && forall i :: 0 <= i < |stats| ==> r.value[i] == StatDefaults(stats[i]).value)
  {
    StatsDefaultsOk(stats);
    if StatsDefaults(stats).Ok? {
      StatsDefaultsLength(stats);
      forall i | 0 <= i < |stats|
        ensures StatsDefaults(stats).value[i] == StatDefaults(stats[i]).value
      {
        StatsDefaultsAt(stats, i);
      }
    }
  }

  lemma {:induction false} StatsDefaultsOk(stats: seq<StatRequest>)
    ensures StatsDefaults(stats).Ok? <==> forall i :: 0 <= i < |stats| ==> StatDefaults(stats[i]).Ok?
  {
    if |stats| > 0 {
      var init := stats[..|stats| - 1];
      StatsDefaultsOk(init);
      if StatsDefaults(init).Err? {
        var i :| 0 <= i < |init| && StatDefaults(init[i]).Err?;
        assert stats[i] == init[i];
      } else if StatsDefaults(stats).Ok? {
        forall i | 0 <= i < |stats|
          ensures StatDefaults(stats[i]).Ok?
        {
          if i < |init| {
            assert stats[i] == init[i];
          }
        }
      } else {
        forall i | 0 <= i < |init|
          ensures StatDefaults(init[i]).Ok?
        {
          assert stats[i] == init[i];
        }
      }
    }
  }

  lemma {:induction false} StatsDefaultsLength(stats: seq<StatRequest>)
    requires StatsDefaults(stats).Ok?
    ensures |StatsDefaults(stats).value| == |stats|
  {
    if |stats| > 0 {
      StatsDefaultsLength(stats[..|stats| - 1]);
    }
  }

  lemma {:induction false} StatsDefaultsAt(stats: seq<StatRequest>, i: nat)
    requires StatsDefaults(stats).Ok? && i < |stats|
    ensures StatDefaults(stats[i]).Ok? && i < |StatsDefaults(stats).value|
    ensures StatsDefaults(stats).value[i] == StatDefaults(stats[i]).value
  {
    var init := stats[..|stats| - 1];
    StatsDefaultsLength(init);
    if i < |init| {
      StatsDefaultsAt(init, i);
      assert stats[i] == init[i];
    }
  }

  function CountDefaults(c: CountRequest): (r: CountRequest)
  {
    var (m, sf) := FacetAmounts(c.maxFacets, c.shardFacets);
    c.(maxFacets := m, shardFacets := sf)
  }

  /** The key two count requests are merged on: the label followed by each path piece, every
      piece after the facet path delimiter. */
  function FacetKey(f: Facet, delimiter: string): string
  {
    f.facetLabel + JoinedPath(f.path, delimiter)
  }

  function JoinedPath(path: seq<string>, delimiter: string): string
  {
    if |path| == 0 then [] else JoinedPath(path[..|path| - 1], delimiter) + delimiter + path[|path| - 1]
  }

  /** An entry of the uniqueRequests map: a facet key and the request stored under it. */
  datatype Keyed = Keyed(key: string, request: CountRequest)

  function KeyAll(cs: seq<CountRequest>, delimiter: string): (es: seq<Keyed>)
    ensures |es| == |cs|
    ensures forall i :: 0 <= i < |cs| ==> es[i] == Keyed(FacetKey(cs[i].facetField, delimiter), cs[i])
  {
    if |cs| == 0 then [] else KeyAll(cs[..|cs| - 1], delimiter) + [Keyed(FacetKey(cs[|cs| - 1].facetField, delimiter), cs[|cs| - 1])]
  }

  function Requests(es: seq<Keyed>): (cs: seq<CountRequest>)
    ensures |cs| == |es| && forall i :: 0 <= i < |es| ==> cs[i] == es[i].request
  {
    if |es| == 0 then [] else Requests(es[..|es| - 1]) + [es[|es| - 1].request]
  }

  /** The position of the entry for key k, or |u| when there is none. */
  function PositionOf(u: seq<Keyed>, k: string): (p: nat)
    ensures p <= |u|
    ensures p < |u| ==> u[p].key == k
    ensures forall i :: 0 <= i < p ==> u[i].key != k
  {
    if |u| == 0 then 0
    else if u[0].key == k then 0
    else 1 + PositionOf(u[1..], k)
  }

  function Max(a: int, b: int): int
  {
    if a >= b then a else b
  }

  /** The entry after another request for its key: the larger shardFacets and maxFacets. */
  function Raised(e: Keyed, c: CountRequest): Keyed
  {
    e.(request := e.request.(shardFacets := Max(c.shardFacets, e.request.shardFacets), maxFacets := Max(c.maxFacets, e.request.maxFacets)))
  }

  /** One request put into the uniqueRequests map: a key already there has its entry raised,
      a new key is added at the end. */
  function Insert(u: seq<Keyed>, e: Keyed): seq<Keyed>
  {
    var p := PositionOf(u, e.key);
    if p < |u| then u[p := Raised(u[p], e.request)] else u + [e]
  }

  /** The uniqueRequests map: the first request for a key is kept and later ones for the same
      key only raise its shardFacets and maxFacets. Its entries are listed in the order their
      keys were first met. */
  function UniqueCounts(es: seq<Keyed>): (u: seq<Keyed>)
  {
    if |es| == 0 then [] else Insert(UniqueCounts(es[..|es| - 1]), es[|es| - 1])
  }

  predicate DistinctKeys(u: seq<Keyed>)
  {
    forall i, j :: 0 <= i < j < |u| ==> u[i].key != u[j].key
  }

  /** Raising amounts leaves every position as it was. */
  lemma {:induction false} PositionOfSameKeys(u: seq<Keyed>, u0: seq<Keyed>, k: string)
    requires |u| == |u0| && forall i :: 0 <= i < |u| ==> u[i].key == u0[i].key
    ensures PositionOf(u, k) == PositionOf(u0, k)
  {
    if |u| > 0 {
      PositionOfSameKeys(u[1..], u0[1..], k);
    }
  }

  /** Appending an entry adds its key at the end and moves no other key. */
  lemma {:induction false} PositionOfAppend(u: seq<Keyed>, e: Keyed, k: string)
    ensures PositionOf(u, k) < |u| ==> PositionOf(u + [e], k) == PositionOf(u, k)
    ensures PositionOf(u, k) == |u| && e.key == k ==> PositionOf(u + [e], k) == |u|
    ensures PositionOf(u, k) == |u| && e.key != k ==> PositionOf(u + [e], k) == |u| + 1
  {
    if |u| > 0 {
      assert (u + [e])[1..] == u[1..] + [e];
      PositionOfAppend(u[1..], e, k);
    }
  }

  /** What Insert does to the entries: those already there keep their key and facet, and a
      new key comes last. */
  lemma InsertShape(u: seq<Keyed>, e: Keyed)
    ensures var v := Insert(u, e);
      (PositionOf(u, e.key) < |u| ==> |v| == |u|) &&
      (PositionOf(u, e.key) == |u| ==> v == u + [e]) &&
      (forall i :: 0 <= i < |u| ==> v[i].key == u[i].key && v[i].request.facetField == u[i].request.facetField) &&
      (forall i :: 0 <= i < |u| && i != PositionOf(u, e.key) ==> v[i] == u[i]) &&
      (PositionOf(u, e.key) < |u| ==> v[PositionOf(u, e.key)] == Raised(u[PositionOf(u, e.key)], e.request))
  {
  }

  /** Insert moves no key and leaves e's key present. */
  lemma InsertPosition(u: seq<Keyed>, e: Keyed, k: string)
    ensures PositionOf(u, k) < |u| ==> PositionOf(Insert(u, e), k) == PositionOf(u, k)
    ensures PositionOf(Insert(u, e), e.key) < |Insert(u, e)|
    ensures PositionOf(u, e.key) == |u| ==> PositionOf(Insert(u, e), e.key) == |u|
  {
    InsertShape(u, e);
    if PositionOf(u, e.key) < |u| {
      PositionOfSameKeys(Insert(u, e), u, k);
      PositionOfSameKeys(Insert(u, e), u, e.key);
    } else {
      PositionOfAppend(u, e, k);
      PositionOfAppend(u, e, e.key);
    }
  }

  lemma InsertDistinct(u: seq<Keyed>, e: Keyed)
    requires DistinctKeys(u)
    ensures DistinctKeys(Insert(u, e))
  {
    InsertShape(u, e);
  }

  /** One entry per key. */
  lemma {:induction false} UniqueDistinct(es: seq<Keyed>)
    ensures DistinctKeys(UniqueCounts(es))
  {
    if |es| > 0 {
      UniqueDistinct(es[..|es| - 1]);
      InsertDistinct(UniqueCounts(es[..|es| - 1]), es[|es| - 1]);
    }
  }

  /** Every key of the requests has its entry. */
  lemma {:induction false} UniqueCovers(es: seq<Keyed>)
    ensures forall j :: 0 <= j < |es| ==> PositionOf(UniqueCounts(es), es[j].key) < |UniqueCounts(es)|
  {
    if |es| > 0 {
      var init := es[..|es| - 1];
      UniqueCovers(init);
      var u0 := UniqueCounts(init);
      forall j | 0 <= j < |es|
        ensures PositionOf(UniqueCounts(es), es[j].key) < |UniqueCounts(es)|
      {
        InsertPosition(u0, es[|es| - 1], es[j].key);
        if j < |init| {
          assert es[j] == init[j];
        }
      }
    }
  }

  /** Each entry holds the facet of the first request for its key. */
  lemma {:induction false} UniqueFirst(es: seq<Keyed>)
    ensures forall i :: 0 <= i < |UniqueCounts(es)| ==> (PositionOf(es, UniqueCounts(es)[i].key) < |es| &&
      UniqueCounts(es)[i].request.facetField == es[PositionOf(es, UniqueCounts(es)[i].key)].request.facetField)
  {
    if |es| > 0 {
      var init := es[..|es| - 1];
      var e := es[|es| - 1];
      UniqueFirst(init);
      UniqueCovers(init);
      assert es == init + [e];
      forall i | 0 <= i < |UniqueCounts(es)|
        ensures PositionOf(es, UniqueCounts(es)[i].key) < |es| &&
          UniqueCounts(es)[i].request.facetField == es[PositionOf(es, UniqueCounts(es)[i].key)].request.facetField
      {
        UniqueFirstAt(init, e, i);
      }
    }
  }

  /** The step of UniqueFirst for one entry after one more request. */
  lemma UniqueFirstAt(init: seq<Keyed>, e: Keyed, i: int)
    requires forall i :: 0 <= i < |UniqueCounts(init)| ==> (PositionOf(init, UniqueCounts(init)[i].key) < |init| &&
      UniqueCounts(init)[i].request.facetField == init[PositionOf(init, UniqueCounts(init)[i].key)].request.facetField)
    requires forall j :: 0 <= j < |init| ==> PositionOf(UniqueCounts(init), init[j].key) < |UniqueCounts(init)|
    requires 0 <= i < |Insert(UniqueCounts(init), e)|
    ensures var es := init + [e]; var u := Insert(UniqueCounts(init), e);
      PositionOf(es, u[i].key) < |es| && u[i].request.facetField == es[PositionOf(es, u[i].key)].request.facetField
  {
    var es := init + [e];
    var u0 := UniqueCounts(init);
    var u := Insert(u0, e);
    InsertShape(u0, e);
    if i < |u0| {
      var q := PositionOf(init, u0[i].key);
      assert q < |init| && u0[i].request.facetField == init[q].request.facetField;
      PositionOfAppend(init, e, u0[i].key);
      assert es[q] == init[q];
    } else {
      assert PositionOf(u0, e.key) == |u0| && u[i] == e;
      NewKeyAbsent(init, e.key);
      PositionOfAppend(init, e, e.key);
    }
  }

  /** A key without an entry was not requested before. */
  lemma NewKeyAbsent(es: seq<Keyed>, k: string)
    requires forall j :: 0 <= j < |es| ==> PositionOf(UniqueCounts(es), es[j].key) < |UniqueCounts(es)|
    requires PositionOf(UniqueCounts(es), k) == |UniqueCounts(es)|
    ensures PositionOf(es, k) == |es|
  {
    assert forall j :: 0 <= j < |es| ==> es[j].key != k;
  }

  /** Insert keeps an entry at least as high as it was, and the entry for e's key at least
      as high as e. */
  lemma InsertBounds(u: seq<Keyed>, e: Keyed, k: string, m: int, sf: int)
    requires (PositionOf(u, k) < |u| && u[PositionOf(u, k)].request.maxFacets >= m && u[PositionOf(u, k)].request.shardFacets >= sf) ||
      (k == e.key && e.request.maxFacets >= m && e.request.shardFacets >= sf)
    ensures var v := Insert(u, e); var p := PositionOf(v, k);
      p < |v| && v[p].request.maxFacets >= m && v[p].request.shardFacets >= sf
  {
    InsertShape(u, e);
    InsertPosition(u, e, k);
  }

  /** Each entry's amounts are at least those of every request for its key. */
  lemma {:induction false} UniqueBounds(es: seq<Keyed>)
    ensures var u := UniqueCounts(es);
      forall j :: 0 <= j < |es| ==> var p := PositionOf(u, es[j].key);
        p < |u| && u[p].request.maxFacets >= es[j].request.maxFacets && u[p].request.shardFacets >= es[j].request.shardFacets
  {
    UniqueCovers(es);
    if |es| > 0 {
      var init := es[..|es| - 1];
      var e := es[|es| - 1];
      UniqueBounds(init);
      var u0 := UniqueCounts(init);
      var u := UniqueCounts(es);
      forall j | 0 <= j < |es|
        ensures var p := PositionOf(u, es[j].key);
          p < |u| && u[p].request.maxFacets >= es[j].request.maxFacets && u[p].request.shardFacets >= es[j].request.shardFacets
      {
        var x := es[j];
        if j < |init| {
          assert x == init[j];
          var p0 := PositionOf(u0, x.key);
          assert p0 < |u0| && u0[p0].request.maxFacets >= x.request.maxFacets && u0[p0].request.shardFacets >= x.request.shardFacets;
        } else {
          assert x == e;
        }
        InsertBounds(u0, e, x.key, x.request.maxFacets, x.request.shardFacets);
      }
    }
  }

  /** Some request for the entry's key gave its maxFacets. */
  ghost predicate MaxGiven(es: seq<Keyed>, x: Keyed)
  {
    exists j :: 0 <= j < |es| && es[j].key == x.key && es[j].request.maxFacets == x.request.maxFacets
  }

  /** Some request for the entry's key gave its shardFacets. */
  ghost predicate ShardGiven(es: seq<Keyed>, x: Keyed)
  {
    exists j :: 0 <= j < |es| && es[j].key == x.key && es[j].request.shardFacets == x.request.shardFacets
  }

  lemma GivenExtends(es: seq<Keyed>, e: Keyed, x: Keyed)
    ensures MaxGiven(es, x) ==> MaxGiven(es + [e], x)
    ensures ShardGiven(es, x) ==> ShardGiven(es + [e], x)
    ensures e.key == x.key && e.request.maxFacets == x.request.maxFacets ==> MaxGiven(es + [e], x)
    ensures e.key == x.key && e.request.shardFacets == x.request.shardFacets ==> ShardGiven(es + [e], x)
  {
    if MaxGiven(es, x) {
      var j :| 0 <= j < |es| && es[j].key == x.key && es[j].request.maxFacets == x.request.maxFacets;
      assert (es + [e])[j] == es[j];
    }
    if ShardGiven(es, x) {
      var j :| 0 <= j < |es| && es[j].key == x.key && es[j].request.shardFacets == x.request.shardFacets;
      assert (es + [e])[j] == es[j];
    }
    assert (es + [e])[|es|] == e;
  }

  /** Each entry's amounts were given by some request for its key. */
  lemma {:induction false} UniqueAttained(es: seq<Keyed>)
    ensures forall i :: 0 <= i < |UniqueCounts(es)| ==> MaxGiven(es, UniqueCounts(es)[i]) && ShardGiven(es, UniqueCounts(es)[i])
  {
    if |es| > 0 {
      var init := es[..|es| - 1];
      var e := es[|es| - 1];
      UniqueAttained(init);
      var u0 := UniqueCounts(init);
      var u := UniqueCounts(es);
      var p := PositionOf(u0, e.key);
      InsertShape(u0, e);
      assert es == init + [e];
      forall i | 0 <= i < |u|
        ensures MaxGiven(es, u[i]) && ShardGiven(es, u[i])
      {
        GivenExtends(init, e, u[i]);
        if i < |u0| && i == p {
          assert MaxGiven(init, u0[i]) && ShardGiven(init, u0[i]);
          var j1 :| 0 <= j1 < |init| && init[j1].key == u0[i].key && init[j1].request.maxFacets == u0[i].request.maxFacets;
          var j2 :| 0 <= j2 < |init| && init[j2].key == u0[i].key && init[j2].request.shardFacets == u0[i].request.shardFacets;
          assert es[j1] == init[j1] && es[j2] == init[j2];
        } else if i < |u0| {
          assert u[i] == u0[i];
          assert MaxGiven(init, u0[i]) && ShardGiven(init, u0[i]);
        }
      }
    }
  }

  predicate KeyedBy(es: seq<Keyed>, delimiter: string)
  {
    forall i :: 0 <= i < |es| ==> es[i].key == FacetKey(es[i].request.facetField, delimiter)
  }

  lemma {:induction false} UniqueKeyedBy(es: seq<Keyed>, delimiter: string)
    requires KeyedBy(es, delimiter)
    ensures KeyedBy(UniqueCounts(es), delimiter)
  {
    if |es| > 0 {
      UniqueKeyedBy(es[..|es| - 1], delimiter);
      InsertShape(UniqueCounts(es[..|es| - 1]), es[|es| - 1]);
    }
  }

  /** The count requests after validation: defaulted, then merged by facet key. */
  function CountsValidated(cs: seq<CountRequest>, delimiter: string): seq<CountRequest>
  {
    Requests(UniqueCounts(KeyAll(Map(cs, CountDefaults), delimiter)))
  }

  predicate DistinctFacets(cs: seq<CountRequest>, delimiter: string)
  {
    forall i, j :: 0 <= i < j < |cs| ==> FacetKey(cs[i].facetField, delimiter) != FacetKey(cs[j].facetField, delimiter)
  }

  /** After validation no two count requests are for the same facet, every requested facet is
      still asked for, and each count request has a non-zero maxFacets. */
  lemma CountsValidatedFacts(cs: seq<CountRequest>, delimiter: string)
    ensures var v := CountsValidated(cs, delimiter);
      DistinctFacets(v, delimiter) &&
      (forall j :: 0 <= j < |cs| ==> exists i :: (0 <= i < |v| &&
        FacetKey(v[i].facetField, delimiter) == FacetKey(cs[j].facetField, delimiter) &&
        v[i].maxFacets >= CountDefaults(cs[j]).maxFacets && v[i].shardFacets >= CountDefaults(cs[j]).shardFacets)) &&
      (forall i :: 0 <= i < |v| ==> v[i].maxFacets != 0)
  {
    var es := KeyAll(Map(cs, CountDefaults), delimiter);
    var u := UniqueCounts(es);
    UniqueDistinct(es);
    UniqueKeyedBy(es, delimiter);
    RequestsDistinct(u, delimiter);
    CountsCover(cs, delimiter);
    CountsNonZero(cs, delimiter);
  }

  lemma RequestsDistinct(u: seq<Keyed>, delimiter: string)
    requires DistinctKeys(u) && KeyedBy(u, delimiter)
    ensures DistinctFacets(Requests(u), delimiter)
  {
  }

  lemma CountsCover(cs: seq<CountRequest>, delimiter: string)
    ensures var v := CountsValidated(cs, delimiter);
      forall j :: 0 <= j < |cs| ==> exists i :: (0 <= i < |v| &&
        FacetKey(v[i].facetField, delimiter) == FacetKey(cs[j].facetField, delimiter) &&
        v[i].maxFacets >= CountDefaults(cs[j]).maxFacets && v[i].shardFacets >= CountDefaults(cs[j]).shardFacets)
  {
    var v := CountsValidated(cs, delimiter);
    forall j | 0 <= j < |cs|
      ensures exists i :: (0 <= i < |v| &&
        FacetKey(v[i].facetField, delimiter) == FacetKey(cs[j].facetField, delimiter) &&
        v[i].maxFacets >= CountDefaults(cs[j]).maxFacets && v[i].shardFacets >= CountDefaults(cs[j]).shardFacets)
    {
      var i := CountCovered(cs, delimiter, j);
      assert 0 <= i < |v|;
    }
  }

  /** The validated request that covers request j. */
  lemma CountCovered(cs: seq<CountRequest>, delimiter: string, j: nat) returns (i: nat)
    requires j < |cs|
    ensures var v := CountsValidated(cs, delimiter);
      i < |v| && FacetKey(v[i].facetField, delimiter) == FacetKey(cs[j].facetField, delimiter) &&
      v[i].maxFacets >= CountDefaults(cs[j]).maxFacets && v[i].shardFacets >= CountDefaults(cs[j]).shardFacets
  {
    var es := KeyAll(Map(cs, CountDefaults), delimiter);
    var u := UniqueCounts(es);
    var v := Requests(u);
    assert v == CountsValidated(cs, delimiter);
    assert es[j] == Keyed(FacetKey(cs[j].facetField, delimiter), CountDefaults(cs[j]));
    i := PositionOf(u, es[j].key);
    assert i < |u| && u[i].request.maxFacets >= es[j].request.maxFacets && u[i].request.shardFacets >= es[j].request.shardFacets by {
      UniqueBounds(es);
    }
    assert u[i].key == FacetKey(u[i].request.facetField, delimiter) by {
      UniqueKeyedBy(es, delimiter);
    }
    assert v[i] == u[i].request;
  }

  lemma CountsNonZero(cs: seq<CountRequest>, delimiter: string)
    ensures var v := CountsValidated(cs, delimiter);
      forall i :: 0 <= i < |v| ==> v[i].maxFacets != 0
  {
    var es := KeyAll(Map(cs, CountDefaults), delimiter);
    UniqueAttained(es);
    var u := UniqueCounts(es);
    var v := Requests(u);
    forall i | 0 <= i < |v|
      ensures v[i].maxFacets != 0
    {
      assert MaxGiven(es, u[i]);
      var j :| 0 <= j < |es| && es[j].key == u[i].key && es[j].request.maxFacets == u[i].request.maxFacets;
      FacetAmountsFacts(cs[j].maxFacets, cs[j].shardFacets);
    }
  }

  function HighlightDefaults(h: HighlightRequest): HighlightRequest
  {
    h.(preTag := if |h.preTag| == 0 then DEFAULT_PRE_TAG else h.preTag,
       postTag := if |h.postTag| == 0 then DEFAULT_POST_TAG else h.postTag,
       numberOfFragments := if h.numberOfFragments == 0 then DEFAULT_NUMBER_OF_FRAGMENTS else h.numberOfFragments,
       fragmentLength := if h.fragmentLength == 0 then DEFAULT_FRAGMENT_LENGTH else h.fragmentLength)
  }

  /** A highlight request has tags and non-zero amounts after its defaults, keeps whatever it
      set, and defaulting twice is defaulting once. */
  lemma HighlightDefaultsFacts(h: HighlightRequest)
    ensures var d := HighlightDefaults(h);
      |d.preTag| > 0 && |d.postTag| > 0 && d.numberOfFragments != 0 && d.fragmentLength != 0 &&
      d.field == h.field &&
      (|h.preTag| > 0 ==> d.preTag == h.preTag) && (|h.postTag| > 0 ==> d.postTag == h.postTag) &&
      (h.numberOfFragments != 0 ==> d.numberOfFragments == h.numberOfFragments) &&
      (h.fragmentLength != 0 ==> d.fragmentLength == h.fragmentLength) &&
      HighlightDefaults(d) == d
  {
  }

  function AnalysisDefaults(a: AnalysisRequest): AnalysisRequest
  {
    if a.topN == 0 then a.(topN := DEFAULT_TOP_N) else a
  }

  function Map<A, B>(xs: seq<A>, f: A -> B): (r: seq<B>)
    ensures |r| == |xs| && forall i :: 0 <= i < |xs| ==> r[i] == f(xs[i])
  {
    if |xs| == 0 then [] else Map(xs[..|xs| - 1], f) + [f(xs[|xs| - 1])]
  }

  predicate FetchesDocument(t: FetchType)
  {
    t == FULL || t == ALL
  }

  /** validateAndSetDefault. */
  function Validate(request: QueryRequest, delimiter: string): Result<QueryRequest>
  {
    match StatsDefaults(request.statRequests)
    case Err(e) => Err(e)
    case Ok(stats) =>
      if |request.highlightRequests| > 0 && !FetchesDocument(request.resultFetchType) then
        Err("IllegalArgumentException: Highlighting requires a full fetch of the document")
      else if |request.analysisRequests| > 0 && !FetchesDocument(request.resultFetchType) then
        Err("IllegalArgumentException: Analysis requires a full fetch of the document")
      else
        Ok(request.(
          statRequests := stats,
          countRequests := CountsValidated(request.countRequests, delimiter),
          highlightRequests := Map(request.highlightRequests, HighlightDefaults),
          analysisRequests := Map(request.analysisRequests, AnalysisDefaults)))
  }

  /** A request is refused exactly when a stat request is, or when it highlights or analyses
      without fetching the document; an accepted one has one count request per facet, every
      count and stat request with a non-zero maxFacets, and analysis requests with a non-zero
      topN. */
  lemma ValidateFacts(request: QueryRequest, delimiter: string)
    ensures var r := Validate(request, delimiter);
      (r.Err? <==>
        (exists i :: 0 <= i < |request.statRequests| && StatDefaults(request.statRequests[i]).Err?) ||
        ((|request.highlightRequests| > 0 || |request.analysisRequests| > 0) && !FetchesDocument(request.resultFetchType))) &&
      (r.Ok? ==>
        r.value.resultFetchType == request.resultFetchType &&
        DistinctFacets(r.value.countRequests, delimiter) &&
        (forall i :: 0 <= i < |r.value.countRequests| ==> r.value.countRequests[i].maxFacets != 0) &&
        (forall i :: 0 <= i < |r.value.statRequests| ==> r.value.statRequests[i].maxFacets != 0) &&
        |r.value.highlightRequests| == |request.highlightRequests| &&
        (forall i :: 0 <= i < |r.value.analysisRequests| ==> r.value.analysisRequests[i].topN != 0))
  {
    ValidateRefused(request, delimiter);
    if Validate(request, delimiter).Ok? {
      ValidateAccepted(request, delimiter);
    }
  }

  lemma ValidateRefused(request: QueryRequest, delimiter: string)
    ensures Validate(request, delimiter).Err? <==>
      (exists i :: 0 <= i < |request.statRequests| && StatDefaults(request.statRequests[i]).Err?) ||
      ((|request.highlightRequests| > 0 || |request.analysisRequests| > 0) && !FetchesDocument(request.resultFetchType))
  {
    StatsDefaultsFacts(request.statRequests);
  }

  lemma ValidateAccepted(request: QueryRequest, delimiter: string)
    requires Validate(request, delimiter).Ok?
    ensures var v := Validate(request, delimiter).value;
      v.resultFetchType == request.resultFetchType &&
      DistinctFacets(v.countRequests, delimiter) &&
      (forall i :: 0 <= i < |v.countRequests| ==> v.countRequests[i].maxFacets != 0) &&
      (forall i :: 0 <= i < |v.statRequests| ==> v.statRequests[i].maxFacets != 0) &&
      |v.highlightRequests| == |request.highlightRequests| &&
      (forall i :: 0 <= i < |v.analysisRequests| ==> v.analysisRequests[i].topN != 0)
  {
    CountsValidatedFacts(request.countRequests, delimiter);
    StatsDefaultsFacts(request.statRequests);
    forall i | 0 <= i < |request.statRequests|
      ensures StatDefaults(request.statRequests[i]).value.maxFacets != 0
    {
      StatDefaultsFacts(request.statRequests[i]);
    }
  }

  // ---------------------------------------------------------------------------------------
  // The validator's loops over the request builder

  /** The checks on one stat request builder. */
  method SetStatDefault(s0: StatRequest) returns (r: Result<StatRequest>)
    ensures r == StatDefaults(s0)
  {
    var s := s0;
    var (m, sf) := FacetAmounts(s.maxFacets, s.shardFacets);
    s := s.(maxFacets := m, shardFacets := sf);
    if |s.percentiles| > 0 && s.precision == 0.0 {
      s := s.(precision := DEFAULT_PRECISION);
    }
    if s.precision < 0.0 {
      return Err(PRECISION_NEGATIVE);
    }
    var j := 0;
    while j < |s.percentiles|
      invariant 0 <= j <= |s.percentiles|
      invariant forall k :: 0 <= k < j ==> PercentileInRange(s.percentiles[k])
    {
      if !PercentileInRange(s.percentiles[j]) {
        return Err(PERCENTILE_OUT_OF_RANGE);
      }
      j := j + 1;
    }
    return Ok(s);
  }

  method SetStatDefaults(stats: seq<StatRequest>) returns (r: Result<seq<StatRequest>>)
    ensures r == StatsDefaults(stats)
  {
    var done: seq<StatRequest> := [];
    for i := 0 to |stats|
      invariant StatsDefaults(stats[..i]) == Ok(done)
    {
      assert stats[..i + 1][..i] == stats[..i];
      var s := SetStatDefault(stats[i]);
      if s.Err? {
        StatsFailure(stats, i + 1);
        return Err(s.error);
      }
      done := done + [s.value];
    }
    assert stats[..|stats|] == stats;
    r := Ok(done);
  }

  /** A stat request that is refused refuses the whole list with its error. */
  lemma StatsFailure(stats: seq<StatRequest>, n: nat)
    requires 0 < n <= |stats| && StatsDefaults(stats[..n - 1]).Ok? && StatDefaults(stats[n - 1]).Err?
    ensures StatsDefaults(stats) == Err(StatDefaults(stats[n - 1]).error)
  {
    var pre := stats[..n];
    assert pre[..|pre| - 1] == stats[..n - 1] && pre[|pre| - 1] == stats[n - 1];
    StatsLastRefused(pre);
    StatsFailureExtends(stats, n);
  }

  lemma StatsLastRefused(pre: seq<StatRequest>)
    requires |pre| > 0 && StatsDefaults(pre[..|pre| - 1]).Ok? && StatDefaults(pre[|pre| - 1]).Err?
    ensures StatsDefaults(pre) == Err(StatDefaults(pre[|pre| - 1]).error)
  {
  }

  lemma {:induction false} StatsFailureExtends(stats: seq<StatRequest>, n: nat)
    requires 0 < n <= |stats| && StatsDefaults(stats[..n]).Err?
    ensures StatsDefaults(stats) == StatsDefaults(stats[..n])
    decreases |stats| - n
  {
    if n < |stats| {
      assert stats[..n + 1][..n] == stats[..n];
      StatsFailureExtends(stats, n + 1);
    } else {
      assert stats[..n] == stats;
    }
  }

  /** The map from facet key to position agrees with the entries. */
  ghost predicate Indexed(entries: seq<Keyed>, uniqueRequests: map<string, nat>)
  {
    (forall k :: k in uniqueRequests <==> PositionOf(entries, k) < |entries|) &&
    (forall k :: k in uniqueRequests ==> uniqueRequests[k] == PositionOf(entries, k))
  }

  /** One pass of the uniqueRequests loop: look the key up, raise the entry found or add one. */
  method Put(entries: seq<Keyed>, uniqueRequests: map<string, nat>, e: Keyed) returns (entries': seq<Keyed>, uniqueRequests': map<string, nat>)
    requires Indexed(entries, uniqueRequests)
    ensures entries' == Insert(entries, e)
    ensures Indexed(entries', uniqueRequests')
  {
    if e.key in uniqueRequests {
      var p := uniqueRequests[e.key];
      entries' := entries[p := Raised(entries[p], e.request)];
      uniqueRequests' := uniqueRequests;
      forall k
        ensures PositionOf(entries', k) == PositionOf(entries, k)
      {
        PositionOfSameKeys(entries', entries, k);
      }
    } else {
      forall k
        ensures PositionOf(entries + [e], k) < |entries| + 1 <==> k in uniqueRequests || k == e.key
        ensures k in uniqueRequests ==> PositionOf(entries + [e], k) == uniqueRequests[k]
        ensures k == e.key ==> PositionOf(entries + [e], k) == |entries|
      {
        PositionOfAppend(entries, e, k);
      }
      uniqueRequests' := uniqueRequests[e.key := |entries|];
      entries' := entries + [e];
    }
  }

  /** The uniqueRequests loop, then its values in insertion order. */
  method MergeCountRequests(cs: seq<CountRequest>, delimiter: string) returns (u: seq<CountRequest>)
    ensures u == Requests(UniqueCounts(KeyAll(cs, delimiter)))
  {
    var entries: seq<Keyed> := [];
    var uniqueRequests: map<string, nat> := map[];
    var es := KeyAll(cs, delimiter);
    for i := 0 to |cs|
      invariant entries == UniqueCounts(es[..i])
      invariant Indexed(entries, uniqueRequests)
    {
      var builder := cs[i];
      var facetString := FacetKey(builder.facetField, delimiter);
      assert es[..i + 1][..i] == es[..i] && es[i] == Keyed(facetString, builder);
      entries, uniqueRequests := Put(entries, uniqueRequests, Keyed(facetString, builder));
    }
    assert es[..|cs|] == es;
    u := RequestsOf(entries);
  }

  /** The requests of the kept entries, in order (the map's values). */
  method RequestsOf(entries: seq<Keyed>) returns (u: seq<CountRequest>)
    ensures u == Requests(entries)
  {
    u := [];
    for i := 0 to |entries|
      invariant u == Requests(entries[..i])
    {
      assert entries[..i + 1][..i] == entries[..i];
      u := u + [entries[i].request];
    }
    assert entries[..|entries|] == entries;
  }

  method DefaultEach<A>(xs: seq<A>, f: A -> A) returns (r: seq<A>)
    ensures r == Map(xs, f)
  {
    r := [];
    for i := 0 to |xs|
      invariant r == Map(xs[..i], f)
    {
      assert xs[..i + 1][..i] == xs[..i];
      r := r + [f(xs[i])];
    }
    assert xs[..|xs|] == xs;
  }

  /** validateAndSetDefault on the request builder. */
  method ValidateAndSetDefault(request: QueryRequest, delimiter: string) returns (r: Result<QueryRequest>)
    ensures r == Validate(request, delimiter)
  {
    var fetchDocument := request.resultFetchType == FULL || request.resultFetchType == ALL;
    var stats := SetStatDefaults(request.statRequests);
    if stats.Err? {
      return Err(stats.error);
    }
    var counts := DefaultEach(request.countRequests, CountDefaults);
    counts := MergeCountRequests(counts, delimiter);
    assert counts == CountsValidated(request.countRequests, delimiter);
    var highlights := DefaultEach(request.highlightRequests, HighlightDefaults);
    assert |highlights| == |request.highlightRequests| && fetchDocument == FetchesDocument(request.resultFetchType);
    if |highlights| > 0 && !fetchDocument {
      return Err("IllegalArgumentException: Highlighting requires a full fetch of the document");
    }
    var analyses := DefaultEach(request.analysisRequests, AnalysisDefaults);
    assert |analyses| == |request.analysisRequests|;
    if |analyses| > 0 && !fetchDocument {
      return Err("IllegalArgumentException: Analysis requires a full fetch of the document");
    }
    r := Ok(request.(statRequests := stats.value, countRequests := counts, highlightRequests := highlights, analysisRequests := analyses));
  }
}
