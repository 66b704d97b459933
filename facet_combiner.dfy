/** Merging the facet counts that several shards return for one count request into a single
    facet group (FacetCombiner, and the same merge written inline in QueryCombiner): counts are
    summed per facet, each emitted facet carries an upper bound on the count the shards may have
    hidden from it, at most maxFacets facets are emitted by descending count, and the group says
    whether a facet that was not emitted could have beaten the last emitted one. */
module FacetCombining {
  import opened JavaInt

  /** The request a facet group answers; facetLabel (the label) and path identify it, maxFacets is how many
      facets to return and shardFacets how many each shard was asked for (-1 for all). */
  datatype CountRequest = CountRequest(facetLabel: string, path: seq<string>, maxFacets: int, shardFacets: int)

  datatype FacetCount = FacetCount(facet: string, count: int, maxError: int)

  datatype FacetGroup = FacetGroup(
    countRequest: CountRequest, facetCounts: seq<FacetCount>,
    possibleMissing: bool, maxValuePossibleMissing: int)

  /** A shard's facet group together with the position of that shard among the responses. */
  datatype ShardGroup = ShardGroup(group: FacetGroup, shardIndex: int)

  predicate InRange(gs: seq<ShardGroup>, n: int)
  {
    forall k :: 0 <= k < |gs| ==> 0 <= gs[k].shardIndex < n
  }

  function Get(m: map<string, int>, f: string): int
  {
    if f in m then m[f] else 0
  }

  function GetSet(m: map<string, set<int>>, f: string): set<int>
  {
    if f in m then m[f] else {}
  }

  function Max(a: int, b: int): int
  {
    if a >= b then a else b
  }

  function Min(a: int, b: int): int
  {
    if a <= b then a else b
  }

  // ---------------------------------------------------------------------------------------
  // What the shards reported

  /** The sum of the counts a list gives for facet `f`. */
  function CountSum(cs: seq<FacetCount>, f: string): int
  {
    if |cs| == 0 then 0
    else CountSum(cs[..|cs| - 1], f) + (if cs[|cs| - 1].facet == f then cs[|cs| - 1].count else 0)
  }

  predicate Lists(cs: seq<FacetCount>, f: string)
  {
    exists j :: 0 <= j < |cs| && cs[j].facet == f
  }

  /** Some shard's group lists facet `f`. */
  predicate Appears(gs: seq<ShardGroup>, f: string)
  {
    exists k :: 0 <= k < |gs| && Lists(gs[k].group.facetCounts, f)
  }

  /** The combined count of facet `f`: the sum of every shard group's counts for it. */
  function Total(gs: seq<ShardGroup>, f: string): int
  {
    if |gs| == 0 then 0
    else Total(gs[..|gs| - 1], f) + CountSum(gs[|gs| - 1].group.facetCounts, f)
  }

  /** Shard `i` returned facet `f`. */
  predicate Reported(gs: seq<ShardGroup>, f: string, i: int)
  {
    exists k :: 0 <= k < |gs| && gs[k].shardIndex == i && Lists(gs[k].group.facetCounts, f)
  }

  /** A group is complete when it holds fewer facets than the shard was asked for, or when
      the shard was asked for all of them. */
  predicate FullGroup(g: FacetGroup, shardFacets: int)
  {
    |g.facetCounts| < shardFacets || shardFacets == -1
  }

  /** Shard `i` returned a complete group. */
  predicate IsFull(gs: seq<ShardGroup>, i: int, shardFacets: int)
  {
    exists k :: 0 <= k < |gs| && gs[k].shardIndex == i && FullGroup(gs[k].group, shardFacets)
  }

  function ReportingShards(gs: seq<ShardGroup>, f: string, n: nat): set<int>
  {
    set i | 0 <= i < n && Reported(gs, f, i)
  }

  function FullShards(gs: seq<ShardGroup>, n: nat, shardFacets: int): set<int>
  {
    set i | 0 <= i < n && IsFull(gs, i, shardFacets)
  }

  /** The shards whose count for `f` is known: those that returned it and those that returned
      everything they had. */
  function Covered(gs: seq<ShardGroup>, f: string, n: nat, shardFacets: int): set<int>
  {
    ReportingShards(gs, f, n) + FullShards(gs, n, shardFacets)
  }

  /** The most a facet that shard `i` did not return can have there: the count of the last
      facet its group listed, 0 once it returned a complete group, and 0 when it sent nothing.
      When a shard sends several groups, the last one decides. */
  function MinForShard(gs: seq<ShardGroup>, i: int, shardFacets: int): int
  {
    if |gs| == 0 then 0
    else
      var prev := MinForShard(gs[..|gs| - 1], i, shardFacets);
      var g := gs[|gs| - 1];
      if g.shardIndex != i then prev
      else if FullGroup(g.group, shardFacets) then 0
      else if |g.group.facetCounts| > 0 then g.group.facetCounts[|g.group.facetCounts| - 1].count
      else prev
  }

  function Mins(gs: seq<ShardGroup>, n: nat, shardFacets: int): seq<int>
  {
    seq(n, i => MinForShard(gs, i, shardFacets))
  }

  function SumSeq(s: seq<int>): int
  {
    if |s| == 0 then 0 else SumSeq(s[..|s| - 1]) + s[|s| - 1]
  }

  /** The sum of `mins[i]` over the shards `i` not in `covered`. */
  function MissingSum(covered: set<int>, mins: seq<int>): int
  {
    if |mins| == 0 then 0
    else MissingSum(covered, mins[..|mins| - 1]) + (if |mins| - 1 in covered then 0 else mins[|mins| - 1])
  }

  /** The error bound of facet `f`: the most the shards that did not return it can hold. */
  function ErrorFor(gs: seq<ShardGroup>, f: string, n: nat, shardFacets: int): int
  {
    MissingSum(Covered(gs, f, n, shardFacets), Mins(gs, n, shardFacets))
  }

  // ---------------------------------------------------------------------------------------
  // The distinct facets and their ranking

  /** `seen` followed by the facets of `cs` not already present, in first-occurrence order. */
  function AddNew(seen: seq<string>, cs: seq<FacetCount>): seq<string>
  {
    if |cs| == 0 then seen
    else
      var s := AddNew(seen, cs[..|cs| - 1]);
      if cs[|cs| - 1].facet in s then s else s + [cs[|cs| - 1].facet]
  }

  /** The distinct facets of all groups, in the order they first arrive. */
  function Facets(gs: seq<ShardGroup>): seq<string>
  {
    if |gs| == 0 then [] else AddNew(Facets(gs[..|gs| - 1]), gs[|gs| - 1].group.facetCounts)
  }

  predicate Distinct(s: seq<string>)
  {
    forall i, j :: 0 <= i < j < |s| ==> s[i] != s[j]
  }

  /** Each distinct facet with its combined count. */
  function Entries(gs: seq<ShardGroup>): seq<FacetCount>
  {
    var fs := Facets(gs);
    seq(|fs|, i requires 0 <= i < |fs| => FacetCount(fs[i], Total(gs, fs[i]), 0))
  }

  /** The ranking order of the merged facets: higher count first, then facet name. */
  predicate Before(a: FacetCount, b: FacetCount)
  {
    a.count > b.count || (a.count == b.count && CompareStrings(a.facet, b.facet) < 0)
  }

  predicate Descending(s: seq<FacetCount>)
  {
    forall i :: 0 < i < |s| ==> s[i - 1].count >= s[i].count
  }

  function Insert(x: FacetCount, s: seq<FacetCount>): (r: seq<FacetCount>)
    ensures |r| == |s| + 1
    ensures multiset(r) == multiset(s) + multiset{x}
    ensures |s| > 0 ==> r[0] == x || r[0] == s[0]
    ensures Descending(s) ==> Descending(r)
  {
    if |s| == 0 then [x]
    else if Before(x, s[0]) then [x] + s
    else
      assert s == [s[0]] + s[1..];
      [s[0]] + Insert(x, s[1..])
  }

  function SortByCount(s: seq<FacetCount>): (r: seq<FacetCount>)
    ensures Descending(r)
    ensures multiset(r) == multiset(s)
  {
    if |s| == 0 then []
    else
      assert s == [s[0]] + s[1..];
      Insert(s[0], SortByCount(s[1..]))
  }

  /** The merged facets in ranking order. */
  function Ranked(gs: seq<ShardGroup>): seq<FacetCount>
  {
    SortByCount(Entries(gs))
  }

  // ---------------------------------------------------------------------------------------
  // The combined group

  /** How many ranked facets are emitted: at most maxFacets when it is positive, else all. */
  function EmitCount(maxFacets: int, available: nat): nat
  {
    if maxFacets > 0 then Min(maxFacets, available) else available
  }

  predicate ComputeError(req: CountRequest, n: nat)
  {
    req.maxFacets > 0 && req.shardFacets > 0 && n > 1
  }

  /** A ranked facet as emitted, with its error bound when errors are computed. */
  function Annotated(gs: seq<ShardGroup>, req: CountRequest, n: nat, x: FacetCount): FacetCount
  {
    FacetCount(x.facet, x.count, if ComputeError(req, n) then ErrorFor(gs, x.facet, n, req.shardFacets) else 0)
  }

  function AnnotateAll(gs: seq<ShardGroup>, req: CountRequest, n: nat, rs: seq<FacetCount>): seq<FacetCount>
  {
    if |rs| == 0 then []
    else AnnotateAll(gs, req, n, rs[..|rs| - 1]) + [Annotated(gs, req, n, rs[|rs| - 1])]
  }

  /** The largest of `init` and of count plus error bound over `rs`. */
  function MaxWithError(gs: seq<ShardGroup>, req: CountRequest, n: nat, init: int, rs: seq<FacetCount>): int
  {
    if |rs| == 0 then init
    else
      Max(MaxWithError(gs, req, n, init, rs[..|rs| - 1]),
          ErrorFor(gs, rs[|rs| - 1].facet, n, req.shardFacets) + rs[|rs| - 1].count)
  }

  /** The largest count a facet that was not emitted may have: at least the sum of the shard
      minimums, raised by count plus error of each ranked facet past the cut when errors are
      computed and that sum is non-zero. */
  function PossibleMissingValue(req: CountRequest, n: nat, gs: seq<ShardGroup>): int
  {
    var initial := SumSeq(Mins(gs, n, req.shardFacets));
    var ranked := Ranked(gs);
    var e := EmitCount(req.maxFacets, |ranked|);
    if ComputeError(req, n) && initial != 0 then MaxWithError(gs, req, n, initial, ranked[e..]) else initial
  }

  /** The merge of several groups for `n` shard responses. */
  function CombineGroups(req: CountRequest, n: nat, gs: seq<ShardGroup>): FacetGroup
  {
    var ranked := Ranked(gs);
    var e := EmitCount(req.maxFacets, |ranked|);
    var emitted := AnnotateAll(gs, req, n, ranked[..e]);
    var minCountReturned := if e > 0 then ranked[e - 1].count else 0;
    var mvpm := PossibleMissingValue(req, n, gs);
    var pm := |ranked| > 0 && mvpm > minCountReturned;
    FacetGroup(req, emitted, pm, if pm then mvpm else 0)
  }

  /** What FacetCombiner returns: a single group unchanged, else the merge. */
  function Combine(req: CountRequest, n: nat, gs: seq<ShardGroup>): FacetGroup
  {
    if |gs| == 1 then gs[0].group else CombineGroups(req, n, gs)
  }

  // ---------------------------------------------------------------------------------------
  // The combiner

  class FacetCombiner {
    const countRequest: CountRequest
    const shardResponses: nat
    var facetGroups: seq<ShardGroup>

    constructor(countRequest: CountRequest, shardResponses: nat)
      ensures this.countRequest == countRequest && this.shardResponses == shardResponses
      ensures facetGroups == []
    {
      this.countRequest := countRequest;
      this.shardResponses := shardResponses;
      facetGroups := [];
    }

    method HandleFacetGroupForShard(facetGroup: FacetGroup, shardIndex: int)
      modifies this
      ensures facetGroups == old(facetGroups) + [ShardGroup(facetGroup, shardIndex)]
    {
      facetGroups := facetGroups + [ShardGroup(facetGroup, shardIndex)];
    }

    /** Every shard index must lie below the number of responses once there is more than
        one group, or the shard arrays are indexed out of bounds. */
    method GetCombinedFacetGroup() returns (r: FacetGroup)
      requires |facetGroups| == 1 || InRange(facetGroups, shardResponses)
      ensures |facetGroups| == 1 ==> r == facetGroups[0].group
      ensures r == Combine(countRequest, shardResponses, facetGroups)
    {
      if |facetGroups| == 1 {
        return facetGroups[0].group;
      }
      r := MergeGroups(countRequest, shardResponses, facetGroups);
    }
  }


  /** The merge proper, over `n` shard responses. */
  method MergeGroups(req: CountRequest, n: nat, gs: seq<ShardGroup>) returns (r: FacetGroup)
    requires InRange(gs, n)
    ensures r == CombineGroups(req, n, gs)
  {
    var totals, keys, shardsReturned, fullResults, mins := Accumulate(gs, n, req.shardFacets);

    var maxValuePossibleMissing := SumOfMins(mins);

    var entries := seq(|keys|, k requires 0 <= k < |keys| => FacetCount(keys[k], totals[keys[k]], 0));
    assert entries == Entries(gs) by {
      forall k | 0 <= k < |keys|
        ensures entries[k] == Entries(gs)[k]
      {
        assert totals[keys[k]] == Get(totals, keys[k]);
      }
    }
    var ranked := SortByCount(entries);
    assert ranked == Ranked(gs);

    var out, minCountReturned;
    out, minCountReturned, maxValuePossibleMissing :=
      Emit(req, n, gs, ranked, shardsReturned, fullResults, mins, maxValuePossibleMissing);
    assert maxValuePossibleMissing == PossibleMissingValue(req, n, gs);

    var possibleMissing := false;
    var reported := 0;
    if |ranked| > 0 && maxValuePossibleMissing > minCountReturned {
      possibleMissing := true;
      reported := maxValuePossibleMissing;
    }
    r := FacetGroup(req, out, possibleMissing, reported);
  }

  /** The sum of the shard minimums: the largest count a facet no shard returned may have. */
  method SumOfMins(mins: seq<int>) returns (maxValuePossibleMissing: int)
    ensures maxValuePossibleMissing == SumSeq(mins)
  {
    maxValuePossibleMissing := 0;
    var i := 0;
    while i < |mins|
      invariant 0 <= i <= |mins|
      invariant maxValuePossibleMissing == SumSeq(mins[..i])
    {
      assert mins[..i + 1][..i] == mins[..i];
      maxValuePossibleMissing := maxValuePossibleMissing + mins[i];
      i := i + 1;
    }
    assert mins[..|mins|] == mins;
  }

  /** The pass over the ranked facets: each is annotated with its error bound and emitted
      until maxFacets is reached; past that, its count plus error raises the possible-missing
      value when that is being computed, and otherwise the pass stops. */
  method Emit(req: CountRequest, n: nat, gs: seq<ShardGroup>, ranked: seq<FacetCount>,
              shardsReturned: map<string, set<int>>, fullResults: set<int>, mins: seq<int>, initial: int)
    returns (out: seq<FacetCount>, minCountReturned: int, maxValuePossibleMissing: int)
    requires forall f :: GetSet(shardsReturned, f) == ReportingShards(gs, f, n)
    requires fullResults == FullShards(gs, n, req.shardFacets)
    requires mins == Mins(gs, n, req.shardFacets)
    ensures var e := EmitCount(req.maxFacets, |ranked|);
      && out == AnnotateAll(gs, req, n, ranked[..e])
      && minCountReturned == (if e > 0 then ranked[e - 1].count else 0)
      && maxValuePossibleMissing ==
         if ComputeError(req, n) && initial != 0 then MaxWithError(gs, req, n, initial, ranked[e..]) else initial
  {
    var computeError := req.maxFacets > 0 && req.shardFacets > 0 && n > 1;
    var computePossibleMissing := computeError && initial != 0;
    ghost var e := EmitCount(req.maxFacets, |ranked|);
    out, minCountReturned, maxValuePossibleMissing := [], 0, initial;
    var count := 0;
    var k := 0;
    while k < |ranked|
      invariant 0 <= k <= |ranked| && count == k
      invariant (out, minCountReturned, maxValuePossibleMissing) == EmitAfter(gs, req, n, ranked, initial, k)
    {
      var fc := ranked[k];
      var maxError := ErrorIfComputed(req, n, gs, fc.facet, shardsReturned, fullResults, mins);
      EmitAfterStep(gs, req, n, ranked, initial, k);
      count := count + 1;
      if req.maxFacets > 0 && count > req.maxFacets {
        if computePossibleMissing {
          maxValuePossibleMissing := Max(maxValuePossibleMissing, maxError + fc.count);
        } else {
          EmitAfterDone(gs, req, n, ranked, initial, k);
          return;
        }
      } else {
        out := out + [FacetCount(fc.facet, fc.count, maxError)];
        minCountReturned := fc.count;
      }
      k := k + 1;
    }
    EmitAfterDone(gs, req, n, ranked, initial, k);
  }

  /** What the pass has produced after the first k ranked facets. */
  ghost function EmitAfter(gs: seq<ShardGroup>, req: CountRequest, n: nat, ranked: seq<FacetCount>, initial: int, k: nat):
    (seq<FacetCount>, int, int)
    requires k <= |ranked|
  {
    var e := Min(k, EmitCount(req.maxFacets, |ranked|));
    (AnnotateAll(gs, req, n, ranked[..e]), if e > 0 then ranked[e - 1].count else 0,
     if ComputeError(req, n) && initial != 0 && k > e then MaxWithError(gs, req, n, initial, ranked[e..k]) else initial)
  }

  /** One more ranked facet is emitted while fewer than maxFacets are out, and otherwise only
      raises the possible-missing value. */
  lemma EmitAfterStep(gs: seq<ShardGroup>, req: CountRequest, n: nat, ranked: seq<FacetCount>, initial: int, k: nat)
    requires k < |ranked|
    ensures var (out, least, missing) := EmitAfter(gs, req, n, ranked, initial, k);
      EmitAfter(gs, req, n, ranked, initial, k + 1) ==
        if req.maxFacets > 0 && k + 1 > req.maxFacets then
          (out, least, if ComputeError(req, n) && initial != 0
                       then Max(missing, ErrorFor(gs, ranked[k].facet, n, req.shardFacets) + ranked[k].count) else initial)
        else (out + [Annotated(gs, req, n, ranked[k])], ranked[k].count, missing)
  {
    var e := EmitCount(req.maxFacets, |ranked|);
    if req.maxFacets > 0 && k + 1 > req.maxFacets {
      assert Min(k, e) == e && Min(k + 1, e) == e;
      if ComputeError(req, n) && initial != 0 {
        MaxWithErrorStep(gs, req, n, initial, ranked, e, k);
      }
    } else {
      assert Min(k, e) == k && Min(k + 1, e) == k + 1;
      AnnotateAllStep(gs, req, n, ranked, k);
    }
  }

  /** The pass can stop once maxFacets facets are out and no possible-missing value is being
      computed, or at the end of the ranked facets. */
  lemma EmitAfterDone(gs: seq<ShardGroup>, req: CountRequest, n: nat, ranked: seq<FacetCount>, initial: int, k: nat)
    requires k <= |ranked|
    requires k == |ranked| || (req.maxFacets > 0 && k + 1 > req.maxFacets && !(ComputeError(req, n) && initial != 0))
    ensures var e := EmitCount(req.maxFacets, |ranked|);
      EmitAfter(gs, req, n, ranked, initial, k) ==
        (AnnotateAll(gs, req, n, ranked[..e]), (if e > 0 then ranked[e - 1].count else 0),
         if ComputeError(req, n) && initial != 0 then MaxWithError(gs, req, n, initial, ranked[e..]) else initial)
  {
    var e := EmitCount(req.maxFacets, |ranked|);
    assert ranked[e..] == ranked[e..|ranked|];
    if k < |ranked| {
      assert Min(k, e) == e;
    }
  }

  lemma AnnotateAllStep(gs: seq<ShardGroup>, req: CountRequest, n: nat, ranked: seq<FacetCount>, k: nat)
    requires k < |ranked|
    ensures AnnotateAll(gs, req, n, ranked[..k + 1]) == AnnotateAll(gs, req, n, ranked[..k]) + [Annotated(gs, req, n, ranked[k])]
  {
    assert ranked[..k + 1][..k] == ranked[..k];
  }

  lemma MaxWithErrorStep(gs: seq<ShardGroup>, req: CountRequest, n: nat, init: int, ranked: seq<FacetCount>, e: nat, k: nat)
    requires e <= k < |ranked|
    ensures MaxWithError(gs, req, n, init, ranked[e..k + 1]) ==
      Max(MaxWithError(gs, req, n, init, ranked[e..k]), ErrorFor(gs, ranked[k].facet, n, req.shardFacets) + ranked[k].count)
  {
    assert ranked[e..k + 1][..k - e] == ranked[e..k];
  }

  /** The error bound of a facet when errors are computed, 0 otherwise. */
  method ErrorIfComputed(req: CountRequest, n: nat, gs: seq<ShardGroup>, facet: string,
                         shardsReturned: map<string, set<int>>, fullResults: set<int>, mins: seq<int>)
    returns (maxError: int)
    requires GetSet(shardsReturned, facet) == ReportingShards(gs, facet, n)
    requires fullResults == FullShards(gs, n, req.shardFacets)
    requires mins == Mins(gs, n, req.shardFacets)
    ensures maxError == if ComputeError(req, n) then ErrorFor(gs, facet, n, req.shardFacets) else 0
  {
    maxError := 0;
    if req.maxFacets > 0 && req.shardFacets > 0 && n > 1 {
      maxError := FacetErrorOf(req, n, gs, facet, shardsReturned, fullResults, mins);
    }
  }

  method FacetErrorOf(req: CountRequest, n: nat, gs: seq<ShardGroup>, facet: string,
                      shardsReturned: map<string, set<int>>, fullResults: set<int>, mins: seq<int>)
    returns (maxError: int)
    requires GetSet(shardsReturned, facet) == ReportingShards(gs, facet, n)
    requires fullResults == FullShards(gs, n, req.shardFacets)
    requires mins == Mins(gs, n, req.shardFacets)
    ensures maxError == ErrorFor(gs, facet, n, req.shardFacets)
  {
    maxError := FacetError(GetSet(shardsReturned, facet) + fullResults, mins, n);
  }

  /** The error bound of one facet from the shards that cover it; the sum is skipped when
      every shard covers the facet. */
  method FacetError(covered: set<int>, mins: seq<int>, n: nat) returns (maxError: int)
    requires |mins| == n
    requires forall i :: i in covered ==> 0 <= i < n
    ensures maxError == MissingSum(covered, mins)
  {
    maxError := 0;
    if |covered| < n {
      var i := 0;
      while i < n
        invariant 0 <= i <= n
        invariant maxError == MissingSum(covered, mins[..i])
      {
        assert mins[..i + 1][..i] == mins[..i];
        if i !in covered {
          maxError := maxError + mins[i];
        }
        i := i + 1;
      }
      assert mins[..n] == mins;
    } else {
      AllCoveredNoMissing(covered, mins);
    }
  }

  /** The first pass over the groups: combined counts, the shards returning each facet, the
      complete shards and each shard's minimum. */
  method Accumulate(gs: seq<ShardGroup>, n: nat, shardFacets: int)
    returns (totals: map<string, int>, keys: seq<string>, shardsReturned: map<string, set<int>>,
             fullResults: set<int>, mins: seq<int>)
    requires InRange(gs, n)
    ensures keys == Facets(gs)
    ensures forall f :: f in totals <==> f in keys
    ensures forall f :: Get(totals, f) == Total(gs, f)
    ensures forall f :: GetSet(shardsReturned, f) == ReportingShards(gs, f, n)
    ensures fullResults == FullShards(gs, n, shardFacets)
    ensures mins == Mins(gs, n, shardFacets)
  {
    var minForShard := new int[n](_ => 0);
    totals, keys, shardsReturned, fullResults := map[], [], map[], {};
    var k := 0;
    while k < |gs|
      invariant 0 <= k <= |gs|
      invariant (totals, keys, shardsReturned, fullResults) == Accumulated(gs[..k], shardFacets)
      invariant forall i :: 0 <= i < n ==> minForShard[i] == MinForShard(gs[..k], i, shardFacets)
    {
      var g := gs[k].group;
      var idx := gs[k].shardIndex;
      assert gs[..k + 1][..k] == gs[..k];
      totals, keys, shardsReturned := AddCounts(totals, keys, shardsReturned, minForShard, g.facetCounts, idx);
      if FullGroup(g, shardFacets) {
        fullResults := fullResults + {idx};
        minForShard[idx] := 0;
      }
      k := k + 1;
    }
    assert gs[..|gs|] == gs;
    mins := minForShard[..];
    AccumulatedFacts(gs, n, shardFacets);
  }

  /** The maps, key list and complete shards after the first pass has gone over the groups gs. */
  ghost function Accumulated(gs: seq<ShardGroup>, shardFacets: int): (map<string, int>, seq<string>, map<string, set<int>>, set<int>)
  {
    if |gs| == 0 then (map[], [], map[], {})
    else
      var a := Accumulated(gs[..|gs| - 1], shardFacets);
      var g := gs[|gs| - 1];
      var b := AddedSoFar(a.0, a.1, a.2, g.group.facetCounts, g.shardIndex);
      (b.0, b.1, b.2, if FullGroup(g.group, shardFacets) then a.3 + {g.shardIndex} else a.3)
  }

  /** After the first pass the keys are the facets in first-seen order and match the totals'
      entries, each total is the facet's combined count, and the shard sets are the shards
      that returned each facet and those that returned a complete group. */
  lemma {:induction false} AccumulatedFacts(gs: seq<ShardGroup>, n: nat, shardFacets: int)
    requires InRange(gs, n)
    ensures var a := Accumulated(gs, shardFacets);
      && a.1 == Facets(gs)
      && (forall f :: f in a.0 <==> f in a.1)
      && (forall f :: Get(a.0, f) == Total(gs, f))
      && (forall f :: GetSet(a.2, f) == ReportingShards(gs, f, n))
      && a.3 == FullShards(gs, n, shardFacets)
  {
    if |gs| > 0 {
      var k := |gs| - 1;
      assert InRange(gs[..k], n);
      AccumulatedFacts(gs[..k], n, shardFacets);
      GroupStep(gs, k, n, shardFacets);
      var a := Accumulated(gs[..k], shardFacets);
      AddedFacts(a.0, a.1, a.2, gs[k].group.facetCounts, gs[k].shardIndex);
      assert gs[..k + 1] == gs;
    }
  }

  /** The pass over one group's counts (the source's inner loop): each count is added to its
      facet's total, the shard is recorded against the facet, and the shard's minimum becomes
      that count. */
  method AddCounts(totals: map<string, int>, keys: seq<string>, shardsReturned: map<string, set<int>>,
                   minForShard: array<int>, cs: seq<FacetCount>, idx: int)
    returns (totals': map<string, int>, keys': seq<string>, shardsReturned': map<string, set<int>>)
    requires 0 <= idx < minForShard.Length
    modifies minForShard
    ensures (totals', keys', shardsReturned') == AddedSoFar(totals, keys, shardsReturned, cs, idx)
    ensures forall i :: 0 <= i < minForShard.Length && i != idx ==> minForShard[i] == old(minForShard[i])
    ensures minForShard[idx] == if |cs| > 0 then cs[|cs| - 1].count else old(minForShard[idx])
  {
    totals', keys', shardsReturned' := totals, keys, shardsReturned;
    var j := 0;
    ghost var before := minForShard[..];
    while j < |cs|
      invariant 0 <= j <= |cs|
      invariant (totals', keys', shardsReturned') == AddedSoFar(totals, keys, shardsReturned, cs[..j], idx)
      invariant forall i :: 0 <= i < minForShard.Length && i != idx ==> minForShard[i] == before[i]
      invariant minForShard[idx] == if j > 0 then cs[j - 1].count else before[idx]
    {
      var facet := cs[j].facet;
      assert cs[..j + 1][..j] == cs[..j];
      if facet !in totals' {
        keys' := keys' + [facet];
      }
      totals' := totals'[facet := Get(totals', facet) + cs[j].count];
      shardsReturned' := shardsReturned'[facet := GetSet(shardsReturned', facet) + {idx}];
      minForShard[idx] := cs[j].count;
      j := j + 1;
    }
    assert cs[..|cs|] == cs;
  }

  /** After the inner loop the keys are the facets appended in first-seen order and match
      the totals' entries, every total is raised by the facet's counts, and the shard is
      recorded against exactly the facets listed. */
  lemma AddedFacts(totals: map<string, int>, keys: seq<string>, shardsReturned: map<string, set<int>>,
                   cs: seq<FacetCount>, idx: int)
    requires forall f :: f in totals <==> f in keys
    ensures var (totals', keys', shardsReturned') := AddedSoFar(totals, keys, shardsReturned, cs, idx);
      && keys' == AddNew(keys, cs)
      && (forall f :: f in totals' <==> f in keys')
      && (forall f :: Get(totals', f) == Get(totals, f) + CountSum(cs, f))
      && (forall f :: GetSet(shardsReturned', f) == GetSet(shardsReturned, f) + (if Lists(cs, f) then {idx} else {}))
  {
    AddedKeys(totals, keys, shardsReturned, cs, idx);
    forall f
      ensures Get(AddedSoFar(totals, keys, shardsReturned, cs, idx).0, f) == Get(totals, f) + CountSum(cs, f)
      ensures GetSet(AddedSoFar(totals, keys, shardsReturned, cs, idx).2, f) ==
        GetSet(shardsReturned, f) + (if Lists(cs, f) then {idx} else {})
    {
      AddedTotal(totals, keys, shardsReturned, cs, idx, f);
      AddedShards(totals, keys, shardsReturned, cs, idx, f);
    }
  }

  /** The maps and key list after the inner loop has added the counts cs. */
  ghost function AddedSoFar(totals: map<string, int>, keys: seq<string>, shardsReturned: map<string, set<int>>,
                            cs: seq<FacetCount>, idx: int): (map<string, int>, seq<string>, map<string, set<int>>)
  {
    if |cs| == 0 then (totals, keys, shardsReturned)
    else AddOne(AddedSoFar(totals, keys, shardsReturned, cs[..|cs| - 1], idx), cs[|cs| - 1], idx)
  }

  /** One round of the inner loop: count c is added to its facet's total, the facet is
      appended to the keys when it is new, and the shard is recorded against it. */
  ghost function AddOne(state: (map<string, int>, seq<string>, map<string, set<int>>), c: FacetCount, idx: int):
    (map<string, int>, seq<string>, map<string, set<int>>)
  {
    var (t, k, r) := state;
    (t[c.facet := Get(t, c.facet) + c.count], if c.facet in t then k else k + [c.facet],
     r[c.facet := GetSet(r, c.facet) + {idx}])
  }

  /** The keys are the facets of cs appended in first-seen order, and the totals have an
      entry for exactly the keys. */
  lemma {:induction false} AddedKeys(totals: map<string, int>, keys: seq<string>, shardsReturned: map<string, set<int>>,
                                     cs: seq<FacetCount>, idx: int)
    requires forall f :: f in totals <==> f in keys
    ensures var a := AddedSoFar(totals, keys, shardsReturned, cs, idx);
      a.1 == AddNew(keys, cs) && forall f :: f in a.0 <==> f in a.1
  {
    if |cs| > 0 {
      var init := cs[..|cs| - 1];
      AddedKeys(totals, keys, shardsReturned, init, idx);
    }
  }

  /** Each facet's total is raised by its counts in cs. */
  lemma {:induction false} AddedTotal(totals: map<string, int>, keys: seq<string>, shardsReturned: map<string, set<int>>,
                                      cs: seq<FacetCount>, idx: int, f: string)
    ensures Get(AddedSoFar(totals, keys, shardsReturned, cs, idx).0, f) == Get(totals, f) + CountSum(cs, f)
  {
    if |cs| > 0 {
      AddedTotal(totals, keys, shardsReturned, cs[..|cs| - 1], idx, f);
    }
  }

  /** The shard is recorded against exactly the facets cs lists. */
  lemma {:induction false} AddedShards(totals: map<string, int>, keys: seq<string>, shardsReturned: map<string, set<int>>,
                                       cs: seq<FacetCount>, idx: int, f: string)
    ensures GetSet(AddedSoFar(totals, keys, shardsReturned, cs, idx).2, f) ==
      GetSet(shardsReturned, f) + (if Lists(cs, f) then {idx} else {})
  {
    if |cs| > 0 {
      var j := |cs| - 1;
      AddedShards(totals, keys, shardsReturned, cs[..j], idx, f);
      ListsStep(cs, j);
      assert cs[..j + 1] == cs;
    }
  }

  // ---------------------------------------------------------------------------------------
  // Proof steps used by the combiner

  lemma ListsStep(cs: seq<FacetCount>, j: int)
    requires 0 <= j < |cs|
    ensures forall f :: Lists(cs[..j + 1], f) <==> Lists(cs[..j], f) || cs[j].facet == f
  {
    forall f
      ensures Lists(cs[..j + 1], f) <==> Lists(cs[..j], f) || cs[j].facet == f
    {
      if Lists(cs[..j + 1], f) && cs[j].facet != f {
        var m :| 0 <= m < j + 1 && cs[..j + 1][m].facet == f;
        assert cs[..j][m].facet == f;
      }
      if Lists(cs[..j], f) {
        var m :| 0 <= m < j && cs[..j][m].facet == f;
        assert cs[..j + 1][m].facet == f;
      }
      if cs[j].facet == f {
        assert cs[..j + 1][j].facet == f;
      }
    }
  }

  /** Adding group `k` adds its shard to the shards returning its facets and, when it is
      complete, to the complete shards. */
  lemma GroupStep(gs: seq<ShardGroup>, k: int, n: nat, shardFacets: int)
    requires 0 <= k < |gs| && InRange(gs, n)
    ensures forall f :: (ReportingShards(gs[..k + 1], f, n) ==
      ReportingShards(gs[..k], f, n) + (if Lists(gs[k].group.facetCounts, f) then {gs[k].shardIndex} else {}))
    ensures FullShards(gs[..k + 1], n, shardFacets) ==
      FullShards(gs[..k], n, shardFacets) + (if FullGroup(gs[k].group, shardFacets) then {gs[k].shardIndex} else {})
  {
    var a, b := gs[..k], gs[..k + 1];
    assert forall m :: 0 <= m < k ==> b[m] == a[m];
    assert b[k] == gs[k];
    forall f, i
      ensures Reported(b, f, i) <==> Reported(a, f, i) || (i == gs[k].shardIndex && Lists(gs[k].group.facetCounts, f))
    {
      if Reported(b, f, i) && !Reported(a, f, i) {
        var m :| 0 <= m < k + 1 && b[m].shardIndex == i && Lists(b[m].group.facetCounts, f);
        assert m == k;
      }
    }
    forall i
      ensures IsFull(b, i, shardFacets) <==> IsFull(a, i, shardFacets) || (i == gs[k].shardIndex && FullGroup(gs[k].group, shardFacets))
    {
      if IsFull(b, i, shardFacets) && !IsFull(a, i, shardFacets) {
        var m :| 0 <= m < k + 1 && b[m].shardIndex == i && FullGroup(b[m].group, shardFacets);
        assert m == k;
      }
    }
  }

  /** The shard positions below `n`. */
  function Upto(n: nat): (r: set<int>)
    ensures forall i :: i in r <==> 0 <= i < n
    ensures |r| == n
  {
    if n == 0 then {} else Upto(n - 1) + {n - 1}
  }

  lemma SubsetSize(a: set<int>, b: set<int>)
    requires a <= b
    ensures |a| <= |b|
  {
    calc {
      |b|;
    == { assert b == (b - a) + a; }
      |(b - a) + a|;
    == { assert (b - a) * a == {}; }
      |b - a| + |a|;
    }
  }

  /** A set inside [0, n) with at least n members holds all of [0, n), so nothing is missing. */
  lemma AllCoveredNoMissing(covered: set<int>, mins: seq<int>)
    requires forall i :: i in covered ==> 0 <= i < |mins|
    requires |covered| >= |mins|
    ensures MissingSum(covered, mins) == 0
  {
    var n := |mins|;
    forall i | 0 <= i < n
      ensures i in covered
    {
      if i !in covered {
        SubsetSize(covered, Upto(n) - {i});
        assert false;
      }
    }
    NoneMissing(covered, mins);
  }

  lemma {:induction false} NoneMissing(covered: set<int>, mins: seq<int>)
    requires forall i :: 0 <= i < |mins| ==> i in covered
    ensures MissingSum(covered, mins) == 0
  {
    if |mins| > 0 {
      NoneMissing(covered, mins[..|mins| - 1]);
    }
  }

  // ---------------------------------------------------------------------------------------
  // What the merge promises

  /** Combined counts do not depend on how the shard groups are split or ordered into
      batches: the total over two batches is the sum of the totals. */
  lemma {:induction false} TotalAppend(a: seq<ShardGroup>, b: seq<ShardGroup>, f: string)
    ensures Total(a + b, f) == Total(a, f) + Total(b, f)
    decreases |b|
  {
    if |b| > 0 {
      assert (a + b)[..|a + b| - 1] == a + b[..|b| - 1];
      TotalAppend(a, b[..|b| - 1], f);
    } else {
      assert a + b == a;
    }
  }

  lemma {:induction false} CountSumUnlisted(cs: seq<FacetCount>, f: string)
    requires !Lists(cs, f)
    ensures CountSum(cs, f) == 0
  {
    if |cs| > 0 {
      CountSumUnlisted(cs[..|cs| - 1], f);
    }
  }

  /** A facet no shard listed has combined count 0. */
  lemma {:induction false} TotalUnlisted(gs: seq<ShardGroup>, f: string)
    requires !Appears(gs, f)
    ensures Total(gs, f) == 0
  {
    if |gs| > 0 {
      var last := gs[|gs| - 1];
      assert !Lists(last.group.facetCounts, f);
      CountSumUnlisted(last.group.facetCounts, f);
      TotalUnlisted(gs[..|gs| - 1], f);
    }
  }

  lemma {:induction false} AddNewMembers(seen: seq<string>, cs: seq<FacetCount>)
    ensures forall f :: f in AddNew(seen, cs) <==> f in seen || Lists(cs, f)
  {
    if |cs| > 0 {
      var j := |cs| - 1;
      AddNewMembers(seen, cs[..j]);
      assert cs[..j + 1] == cs;
      ListsStep(cs, j);
    }
  }

  lemma {:induction false} AddNewDistinct(seen: seq<string>, cs: seq<FacetCount>)
    requires Distinct(seen)
    ensures Distinct(AddNew(seen, cs))
  {
    if |cs| > 0 {
      var j := |cs| - 1;
      AddNewDistinct(seen, cs[..j]);
      var s := AddNew(seen, cs[..j]);
      if cs[j].facet !in s {
        var t := s + [cs[j].facet];
        forall a, b | 0 <= a < b < |t|
          ensures t[a] != t[b]
        {
          if b < |s| {
            assert t[a] == s[a] && t[b] == s[b];
          } else {
            assert t[a] == s[a];
          }
        }
      }
    }
  }

  /** The merged facets are exactly the facets some shard listed, each once. */
  lemma {:induction false} FacetsAreListed(gs: seq<ShardGroup>)
    ensures Distinct(Facets(gs))
    ensures forall f :: f in Facets(gs) <==> Appears(gs, f)
  {
    if |gs| > 0 {
      var k := |gs| - 1;
      FacetsAreListed(gs[..k]);
      AddNewMembers(Facets(gs[..k]), gs[k].group.facetCounts);
      AddNewDistinct(Facets(gs[..k]), gs[k].group.facetCounts);
      forall f
        ensures Appears(gs, f) <==> Appears(gs[..k], f) || Lists(gs[k].group.facetCounts, f)
      {
        if Appears(gs, f) && !Lists(gs[k].group.facetCounts, f) {
          var m :| 0 <= m < |gs| && Lists(gs[m].group.facetCounts, f);
          assert gs[..k][m] == gs[m];
        }
        if Appears(gs[..k], f) {
          var m :| 0 <= m < k && Lists(gs[..k][m].group.facetCounts, f);
          assert gs[..k][m] == gs[m];
        }
      }
    }
  }

  /** When shard `i` sent exactly one group, its minimum is 0 if that group was complete,
      else the count of the last facet it listed (0 for an empty group). */
  lemma {:induction false} ShardMinimum(gs: seq<ShardGroup>, k: int, shardFacets: int)
    requires 0 <= k < |gs|
    requires forall m :: 0 <= m < |gs| && gs[m].shardIndex == gs[k].shardIndex ==> m == k
    ensures var cs := gs[k].group.facetCounts;
      MinForShard(gs, gs[k].shardIndex, shardFacets) ==
        if FullGroup(gs[k].group, shardFacets) then 0
        else if |cs| > 0 then cs[|cs| - 1].count
        else 0
  {
    var i := gs[k].shardIndex;
    if k < |gs| - 1 {
      var init := gs[..|gs| - 1];
      assert init[k] == gs[k];
      ShardMinimum(init, k, shardFacets);
    } else {
      OtherShardsOnly(gs[..k], i, shardFacets);
    }
  }

  lemma {:induction false} OtherShardsOnly(gs: seq<ShardGroup>, i: int, shardFacets: int)
    requires forall m :: 0 <= m < |gs| ==> gs[m].shardIndex != i
    ensures MinForShard(gs, i, shardFacets) == 0
  {
    if |gs| > 0 {
      OtherShardsOnly(gs[..|gs| - 1], i, shardFacets);
    }
  }

  /** A facet every shard either returned or had no more facets than it sent carries no error. */
  lemma CoveredEverywhereNoError(gs: seq<ShardGroup>, f: string, n: nat, shardFacets: int)
    requires forall i :: 0 <= i < n ==> Reported(gs, f, i) || IsFull(gs, i, shardFacets)
    ensures ErrorFor(gs, f, n, shardFacets) == 0
  {
    NoneMissing(Covered(gs, f, n, shardFacets), Mins(gs, n, shardFacets));
  }

  /** The error bound of a facet is the sum of the minimums of the shards that neither
      returned it nor were complete; with non-negative minimums it lies between 0 and the sum
      of all minimums. */
  lemma {:induction false} MissingSumBounds(covered: set<int>, mins: seq<int>)
    requires forall i :: 0 <= i < |mins| ==> mins[i] >= 0
    ensures 0 <= MissingSum(covered, mins) <= SumSeq(mins)
  {
    if |mins| > 0 {
      MissingSumBounds(covered, mins[..|mins| - 1]);
    }
  }

  lemma {:induction false} AnnotateAllShape(gs: seq<ShardGroup>, req: CountRequest, n: nat, rs: seq<FacetCount>)
    ensures |AnnotateAll(gs, req, n, rs)| == |rs|
    ensures forall i :: 0 <= i < |rs| ==> AnnotateAll(gs, req, n, rs)[i] == Annotated(gs, req, n, rs[i])
  {
    if |rs| > 0 {
      AnnotateAllShape(gs, req, n, rs[..|rs| - 1]);
    }
  }

  lemma {:induction false} DescendingPairwise(s: seq<FacetCount>)
    requires Descending(s)
    ensures forall i, j :: 0 <= i <= j < |s| ==> s[i].count >= s[j].count
  {
    if |s| > 1 {
      var init := s[..|s| - 1];
      DescendingPairwise(init);
      forall i, j | 0 <= i <= j < |s|
        ensures s[i].count >= s[j].count
      {
        if j < |s| - 1 {
          assert init[i] == s[i] && init[j] == s[j];
        } else if i < j {
          assert init[i] == s[i] && init[j - 1] == s[j - 1];
        }
      }
    }
  }

  /** The ranking holds each listed facet once, with its combined count, by descending count. */
  lemma RankedFacts(gs: seq<ShardGroup>)
    ensures Descending(Ranked(gs))
    ensures forall x :: x in Ranked(gs) ==> Appears(gs, x.facet) && x.count == Total(gs, x.facet)
    ensures forall f :: Appears(gs, f) ==> exists j :: 0 <= j < |Ranked(gs)| && Ranked(gs)[j].facet == f
  {
    var es := Entries(gs);
    FacetsAreListed(gs);
    assert forall x :: x in Ranked(gs) <==> x in es by {
      forall x
        ensures x in Ranked(gs) <==> x in es
      {
        assert x in Ranked(gs) <==> x in multiset(Ranked(gs));
        assert x in es <==> x in multiset(es);
      }
    }
    forall f | Appears(gs, f)
      ensures exists j :: 0 <= j < |Ranked(gs)| && Ranked(gs)[j].facet == f
    {
      var i :| 0 <= i < |Facets(gs)| && Facets(gs)[i] == f;
      assert es[i] in Ranked(gs);
      var j :| 0 <= j < |Ranked(gs)| && Ranked(gs)[j] == es[i];
    }
  }

  /** At most maxFacets facets are emitted (all of them when maxFacets is not positive), by
      descending combined count. */
  lemma EmittedBound(req: CountRequest, n: nat, gs: seq<ShardGroup>)
    ensures var out := CombineGroups(req, n, gs).facetCounts;
      && (req.maxFacets > 0 ==> |out| <= req.maxFacets)
      && (req.maxFacets <= 0 ==> |out| == |Facets(gs)|)
      && Descending(out)
  {
    var ranked := Ranked(gs);
    var e := EmitCount(req.maxFacets, |ranked|);
    AnnotateAllShape(gs, req, n, ranked[..e]);
    assert |ranked| == |Facets(gs)| by {
      assert |multiset(ranked)| == |multiset(Entries(gs))|;
    }
  }

  /** Every emitted facet was listed by some shard and carries its combined count. */
  lemma EmittedCounts(req: CountRequest, n: nat, gs: seq<ShardGroup>)
    ensures var out := CombineGroups(req, n, gs).facetCounts;
      forall x :: x in out ==> Appears(gs, x.facet) && x.count == Total(gs, x.facet)
  {
    var ranked := Ranked(gs);
    var e := EmitCount(req.maxFacets, |ranked|);
    var out := CombineGroups(req, n, gs).facetCounts;
    RankedFacts(gs);
    AnnotateAllShape(gs, req, n, ranked[..e]);
    forall x | x in out
      ensures Appears(gs, x.facet) && x.count == Total(gs, x.facet)
    {
      var m :| 0 <= m < |out| && out[m] == x;
      assert ranked[m] in ranked;
    }
  }

  /** The emitted facets are the first EmitCount ranked facets, with their counts. */
  lemma EmittedPrefix(req: CountRequest, n: nat, gs: seq<ShardGroup>)
    ensures var ranked := Ranked(gs);
      var out := CombineGroups(req, n, gs).facetCounts;
      && |out| == EmitCount(req.maxFacets, |ranked|)
      && forall m :: 0 <= m < |out| ==> out[m].facet == ranked[m].facet && out[m].count == ranked[m].count
  {
    var ranked := Ranked(gs);
    AnnotateAllShape(gs, req, n, ranked[..EmitCount(req.maxFacets, |ranked|)]);
  }

  /** In a descending ranking, an entry missing from an emitted prefix lies past it and counts
      no more than any emitted entry. */
  lemma PastThePrefix(ranked: seq<FacetCount>, out: seq<FacetCount>, j: int)
    requires Descending(ranked) && |out| <= |ranked| && 0 <= j < |ranked|
    requires forall m :: 0 <= m < |out| ==> out[m].facet == ranked[m].facet && out[m].count == ranked[m].count
    requires forall x :: x in out ==> x.facet != ranked[j].facet
    ensures j >= |out|
    ensures forall x :: x in out ==> ranked[j].count <= x.count
  {
    forall m | 0 <= m < |out|
      ensures out[m].facet != ranked[j].facet
    {
      assert out[m] in out;
    }
    DescendingPairwise(ranked);
    forall x | x in out
      ensures ranked[j].count <= x.count
    {
      var m :| 0 <= m < |out| && out[m] == x;
      assert m < j && ranked[m].count >= ranked[j].count;
    }
  }

  /** Every listed facet that was left out has a combined count no larger than any emitted one. */
  lemma DroppedNoLarger(req: CountRequest, n: nat, gs: seq<ShardGroup>, f: string)
    requires Appears(gs, f)
    requires forall x :: x in CombineGroups(req, n, gs).facetCounts ==> x.facet != f
    ensures forall x :: x in CombineGroups(req, n, gs).facetCounts ==> Total(gs, f) <= x.count
  {
    var ranked := Ranked(gs);
    RankedFacts(gs);
    EmittedPrefix(req, n, gs);
    var j :| 0 <= j < |ranked| && ranked[j].facet == f;
    assert ranked[j] in ranked;
    PastThePrefix(ranked, CombineGroups(req, n, gs).facetCounts, j);
  }

  lemma {:induction false} MaxWithErrorBounds(gs: seq<ShardGroup>, req: CountRequest, n: nat, init: int, rs: seq<FacetCount>)
    ensures init <= MaxWithError(gs, req, n, init, rs)
    ensures forall x :: x in rs ==> x.count + ErrorFor(gs, x.facet, n, req.shardFacets) <= MaxWithError(gs, req, n, init, rs)
  {
    if |rs| > 0 {
      MaxWithErrorBounds(gs, req, n, init, rs[..|rs| - 1]);
      assert forall x :: x in rs ==> x in rs[..|rs| - 1] || x == rs[|rs| - 1];
    }
  }

  /** The possible-missing flag is set exactly when some facet was emitted and the
      possible-missing value exceeds the smallest emitted count, which is the last one; the
      value is reported only then. */
  lemma PossibleMissingFlag(req: CountRequest, n: nat, gs: seq<ShardGroup>)
    ensures var r := CombineGroups(req, n, gs);
      && (r.possibleMissing <==>
           |r.facetCounts| > 0 && PossibleMissingValue(req, n, gs) > r.facetCounts[|r.facetCounts| - 1].count)
      && (forall x :: x in r.facetCounts ==> r.facetCounts[|r.facetCounts| - 1].count <= x.count)
      && r.maxValuePossibleMissing == (if r.possibleMissing then PossibleMissingValue(req, n, gs) else 0)
  {
    var ranked := Ranked(gs);
    var e := EmitCount(req.maxFacets, |ranked|);
    var out := CombineGroups(req, n, gs).facetCounts;
    RankedFacts(gs);
    AnnotateAllShape(gs, req, n, ranked[..e]);
    DescendingPairwise(ranked);
    forall x | x in out
      ensures out[|out| - 1].count <= x.count
    {
      var m :| 0 <= m < |out| && out[m] == x;
    }
  }

  /** When errors and the possible-missing value are computed and the flag stays clear, no
      facet that was left out could have beaten the last emitted facet: its combined count
      plus its error bound is at most that facet's count. */
  lemma NothingBetterMissing(req: CountRequest, n: nat, gs: seq<ShardGroup>, f: string)
    requires ComputeError(req, n) && SumSeq(Mins(gs, n, req.shardFacets)) != 0
    requires Appears(gs, f)
    requires var out := CombineGroups(req, n, gs).facetCounts;
      forall x :: x in out ==> x.facet != f
    ensures var r := CombineGroups(req, n, gs);
      !r.possibleMissing && |r.facetCounts| > 0 ==>
        Total(gs, f) + ErrorFor(gs, f, n, req.shardFacets) <= r.facetCounts[|r.facetCounts| - 1].count
  {
    var ranked := Ranked(gs);
    var e := EmitCount(req.maxFacets, |ranked|);
    RankedFacts(gs);
    EmittedPrefix(req, n, gs);
    var j :| 0 <= j < |ranked| && ranked[j].facet == f;
    assert ranked[j] in ranked;
    PastThePrefix(ranked, CombineGroups(req, n, gs).facetCounts, j);
    assert ranked[j] in ranked[e..];
    MaxWithErrorBounds(gs, req, n, SumSeq(Mins(gs, n, req.shardFacets)), ranked[e..]);
  }
}
