/** Merging the validated responses of every shard into one query response (QueryCombiner's
    getQueryResponse): hit totals are added up, the facet groups are merged per count
    request, the hits are sorted and cut to the requested page, the last hit kept from each
    shard is recorded for the next page, and the merge is flagged as short when some shard
    may still hold a hit that belongs before the last one kept. */
module QueryCombining {
  import opened Wrappers
  import opened JavaInt
  import opened FieldTypes
  import PostSorting
  import FacetCombining
  import QueryParser
  import opened QueryValidation

  // ---------------------------------------------------------------------------------------
  // Totals and the page size

  function TotalHits(srs: seq<ShardQueryResponse>): int
  {
    if |srs| == 0 then 0 else TotalHits(srs[..|srs| - 1]) + srs[|srs| - 1].totalHits
  }

  /** All hits of all shards, shard after shard. */
  function Merged(srs: seq<ShardQueryResponse>): seq<ScoredResult>
  {
    if |srs| == 0 then [] else Merged(srs[..|srs| - 1]) + srs[|srs| - 1].scoredResults
  }

  function ReturnedHits(srs: seq<ShardQueryResponse>): nat
  {
    if |srs| == 0 then 0 else ReturnedHits(srs[..|srs| - 1]) + |srs[|srs| - 1].scoredResults|
  }

  /** The merged list holds as many hits as the shards returned. */
  lemma {:induction false} MergedLength(srs: seq<ShardQueryResponse>)
    ensures |Merged(srs)| == ReturnedHits(srs)
  {
    if |srs| > 0 {
      MergedLength(srs[..|srs| - 1]);
    }
  }

  /** The merged list holds as many hits as the shards returned, and each hit of each shard. */
  lemma {:induction false} MergedFacts(srs: seq<ShardQueryResponse>)
    ensures |Merged(srs)| == ReturnedHits(srs)
    ensures forall k, j :: 0 <= k < |srs| && 0 <= j < |srs[k].scoredResults| ==> srs[k].scoredResults[j] in Merged(srs)
    ensures forall x :: x in Merged(srs) ==> exists k :: 0 <= k < |srs| && x in srs[k].scoredResults
  {
    if |srs| > 0 {
      var init := srs[..|srs| - 1];
      var last := srs[|srs| - 1].scoredResults;
      MergedFacts(init);
      assert Merged(srs) == Merged(init) + last;
      forall k, j | 0 <= k < |srs| && 0 <= j < |srs[k].scoredResults|
        ensures srs[k].scoredResults[j] in Merged(srs)
      {
        if k < |init| {
          assert init[k] == srs[k];
          assert srs[k].scoredResults[j] in Merged(init);
        } else {
          assert srs[k].scoredResults[j] in last;
        }
      }
      forall x | x in Merged(srs)
        ensures exists k :: 0 <= k < |srs| && x in srs[k].scoredResults
      {
        if x in Merged(init) {
          var k :| 0 <= k < |init| && x in init[k].scoredResults;
          assert init[k] == srs[k];
        } else {
          assert x in srs[|srs| - 1].scoredResults;
        }
      }
    }
  }

  /** The hit totals of all shards (the first loop after validate). */
  method SumHits(srs: seq<ShardQueryResponse>) returns (totalHits: int, returnedHits: int)
    ensures totalHits == TotalHits(srs) && returnedHits == ReturnedHits(srs)
  {
    totalHits, returnedHits := 0, 0;
    var i := 0;
    while i < |srs|
      invariant 0 <= i <= |srs|
      invariant totalHits == TotalHits(srs[..i]) && returnedHits == ReturnedHits(srs[..i])
    {
      assert srs[..i + 1][..i] == srs[..i];
      totalHits := totalHits + srs[i].totalHits;
      returnedHits := returnedHits + |srs[i].scoredResults|;
      i := i + 1;
    }
    assert srs[..i] == srs;
  }

  /** All hits concatenated, shard after shard. */
  method MergeResults(srs: seq<ShardQueryResponse>) returns (merged: seq<ScoredResult>)
    ensures merged == Merged(srs)
  {
    merged := [];
    var i := 0;
    while i < |srs|
      invariant 0 <= i <= |srs|
      invariant merged == Merged(srs[..i])
    {
      assert srs[..i + 1][..i] == srs[..i];
      merged := merged + srs[i].scoredResults;
      i := i + 1;
    }
    assert srs[..i] == srs;
  }

  /** How many hits are kept: amount + start, and the number of hits returned, each as a
      32-bit int, whichever is smaller. */
  function ResultsSize(amount: int, start: int, returnedHits: nat): int
  {
    FacetCombining.Min(Wrap32(amount + start), Wrap32(returnedHits))
  }

  lemma WrapBelow(x: int)
    requires x >= 0
    ensures Wrap32(x) <= x
  {
  }

  /** Never more hits are kept than were returned; without overflow, exactly amount + start
      of them, or all when fewer came back. */
  lemma ResultsSizeBounds(amount: int, start: int, returnedHits: nat)
    ensures ResultsSize(amount, start, returnedHits) <= returnedHits
    ensures IsInt(amount + start) && returnedHits <= INT_MAX ==>
      ResultsSize(amount, start, returnedHits) == FacetCombining.Min(amount + start, returnedHits)
  {
    WrapBelow(returnedHits);
  }

  // ---------------------------------------------------------------------------------------
  // The last hit kept from each shard

  /** For each index, one slot per shard holding the last hit taken from it (null when none). */
  type Slots = map<string, seq<Option<ScoredResult>>>

  /** indexToShardCount: the number of shards of each searched index, by name (a later index
      of the same name overwrites an earlier one). */
  function ShardCounts(indexes: seq<IndexInfo>): map<string, nat>
  {
    if |indexes| == 0 then map[]
    else ShardCounts(indexes[..|indexes| - 1])[indexes[|indexes| - 1].indexName := indexes[|indexes| - 1].numberOfShards]
  }

  /** Every searched index has a count: the one of the last index of its name. */
  lemma {:induction false} ShardCountFound(indexes: seq<IndexInfo>, k: nat)
    requires k < |indexes|
    ensures indexes[k].indexName in ShardCounts(indexes)
    ensures exists j :: (k <= j < |indexes| && indexes[j].indexName == indexes[k].indexName &&
      ShardCounts(indexes)[indexes[k].indexName] == indexes[j].numberOfShards)
  {
    if indexes[|indexes| - 1].indexName != indexes[k].indexName {
      ShardCountFound(indexes[..|indexes| - 1], k);
    }
  }

  /** One empty slot array for each index that answered; an index that was not searched
      has no count, and unboxing its missing count throws. */
  /** A fresh slot array: `n` nulls. */
  function NoHits(n: nat): (r: seq<Option<ScoredResult>>)
    ensures |r| == n && forall s :: 0 <= s < n ==> r[s].None?
  {
    if n == 0 then [] else NoHits(n - 1) + [None]
  }

  function EmptySlots(names: seq<string>, counts: map<string, nat>): Outcome<Slots>
  {
    if |names| == 0 then Success(map[])
    else
      match EmptySlots(names[..|names| - 1], counts)
      case Failure(e) => Failure(e)
      case Success(m) =>
        var name := names[|names| - 1];
        if name !in counts then Failure(UnknownIndex(name))
        else Success(m[name := NoHits(counts[name])])
  }

  lemma {:induction false} EmptySlotsFacts(names: seq<string>, counts: map<string, nat>)
    ensures EmptySlots(names, counts).Success? <==> forall k :: 0 <= k < |names| ==> names[k] in counts
    ensures EmptySlots(names, counts).Success? ==>
      var m := EmptySlots(names, counts).value;
      forall name :: (name in m <==> name in names) &&
        (name in m ==> |m[name]| == counts[name] && forall s :: 0 <= s < |m[name]| ==> m[name][s] == None)
  {
    if |names| > 0 {
      var init := names[..|names| - 1];
      EmptySlotsFacts(init, counts);
      assert forall k :: 0 <= k < |init| ==> init[k] == names[k];
      assert forall name :: name in names <==> name in init || name == names[|names| - 1];
    }
  }

  /** The loop creating the slot arrays. */
  method MakeSlots(names: seq<string>, counts: map<string, nat>) returns (r: Outcome<Slots>)
    ensures r == EmptySlots(names, counts)
  {
    var m: Slots := map[];
    var i := 0;
    while i < |names|
      invariant 0 <= i <= |names|
      invariant EmptySlots(names[..i], counts) == Success(m)
    {
      assert names[..i + 1][..i] == names[..i];
      var name := names[i];
      if name !in counts {
        r := Failure(UnknownIndex(name));
        EmptySlotsRest(names, counts, i + 1, r.error);
        return;
      }
      m := m[name := NoHits(counts[name])];
      i := i + 1;
    }
    assert names[..i] == names;
    r := Success(m);
  }

  lemma {:induction false} EmptySlotsRest(names: seq<string>, counts: map<string, nat>, k: nat, e: QueryError)
    requires k <= |names| && EmptySlots(names[..k], counts) == Failure(e)
    ensures EmptySlots(names, counts) == Failure(e)
    decreases |names| - k
  {
    if k < |names| {
      assert names[..k + 1][..k] == names[..k];
      EmptySlotsRest(names, counts, k + 1, e);
    } else {
      assert names[..k] == names;
    }
  }

  /** A hit to be stored in the slots of the named index. */
  datatype Placed = Placed(indexName: string, result: ScoredResult)

  /** lastForShardArr[sr.shard] = sr, for each placed hit in turn; an unknown index is a null
      array and a shard outside the array is an out-of-bounds index. */
  function Store(slots: Outcome<Slots>, ps: seq<Placed>): Outcome<Slots>
  {
    if |ps| == 0 then slots
    else
      match Store(slots, ps[..|ps| - 1])
      case Failure(e) => Failure(e)
      case Success(m) =>
        var p := ps[|ps| - 1];
        if p.indexName !in m then Failure(UnknownIndex(p.indexName))
        else if !(0 <= p.result.shard < |m[p.indexName]|) then Failure(ShardOutOfRange(p.indexName, p.result.shard))
        else Success(m[p.indexName := m[p.indexName][p.result.shard := Some(p.result)]])
  }

  /** The last placed hit for a slot, or `d` when none was placed there. */
  function LastPlaced(ps: seq<Placed>, name: string, shard: int, d: Option<ScoredResult>): Option<ScoredResult>
  {
    if |ps| == 0 then d
    else
      var p := ps[|ps| - 1];
      if p.indexName == name && p.result.shard == shard then Some(p.result)
      else LastPlaced(ps[..|ps| - 1], name, shard, d)
  }

  predicate Fits(m: Slots, p: Placed)
  {
    p.indexName in m && 0 <= p.result.shard < |m[p.indexName]|
  }

  /** Storing fails exactly when some hit names an index without slots or a shard outside
      its slots; otherwise each slot holds the last hit placed in it, and no slot array
      grows or shrinks. */
  lemma {:induction false} StoreFacts(m: Slots, ps: seq<Placed>)
    ensures Store(Success(m), ps).Success? <==> forall k :: 0 <= k < |ps| ==> Fits(m, ps[k])
    ensures Store(Success(m), ps).Success? ==>
      var r := Store(Success(m), ps).value;
      r.Keys == m.Keys && forall name :: name in m ==> (|r[name]| == |m[name]| &&
        forall s :: 0 <= s < |m[name]| ==> r[name][s] == LastPlaced(ps, name, s, m[name][s]))
  {
    if |ps| > 0 {
      var init := ps[..|ps| - 1];
      StoreFacts(m, init);
      assert forall k :: 0 <= k < |init| ==> init[k] == ps[k];
    }
  }

  function Placements(name: string, srs: seq<ScoredResult>): (r: seq<Placed>)
    ensures |r| == |srs| && forall k :: 0 <= k < |srs| ==> r[k] == Placed(name, srs[k])
  {
    seq(|srs|, k requires 0 <= k < |srs| => Placed(name, srs[k]))
  }

  /** The hits of the previous page's last result, index by index. */
  function LastPlacements(lirs: seq<LastIndexResult>): seq<Placed>
  {
    if |lirs| == 0 then []
    else LastPlacements(lirs[..|lirs| - 1]) + Placements(lirs[|lirs| - 1].indexName, lirs[|lirs| - 1].lastForShard)
  }

  /** The kept hits, each under its own index name. */
  function ResultPlacements(results: seq<ScoredResult>): (r: seq<Placed>)
    ensures |r| == |results| && forall k :: 0 <= k < |results| ==> r[k] == Placed(results[k].indexName, results[k])
  {
    seq(|results|, k requires 0 <= k < |results| => Placed(results[k].indexName, results[k]))
  }

  lemma {:induction false} StoreAppend(r: Outcome<Slots>, a: seq<Placed>, b: seq<Placed>)
    ensures Store(r, a + b) == Store(Store(r, a), b)
  {
    if |b| == 0 {
      assert a + b == a;
    } else {
      assert (a + b)[..|a + b| - 1] == a + b[..|b| - 1];
      StoreAppend(r, a, b[..|b| - 1]);
    }
  }

  lemma StoreSnoc(r: Outcome<Slots>, ps: seq<Placed>, k: nat)
    requires k < |ps|
    ensures Store(r, ps[..k + 1]) == Store(Store(r, ps[..k]), [ps[k]])
  {
    assert ps[..k + 1] == ps[..k] + [ps[k]];
    StoreAppend(r, ps[..k], [ps[k]]);
  }

  lemma {:induction false} StoreFailure(e: QueryError, ps: seq<Placed>)
    ensures Store(Failure(e), ps) == Failure(e)
  {
    if |ps| > 0 {
      StoreFailure(e, ps[..|ps| - 1]);
    }
  }

  /** The inner loop storing hits one by one; it stops at the first that does not fit. */
  method StoreAll(slots: Slots, ps: seq<Placed>) returns (r: Outcome<Slots>)
    ensures r == Store(Success(slots), ps)
  {
    var m := slots;
    var k := 0;
    while k < |ps|
      invariant 0 <= k <= |ps|
      invariant Store(Success(slots), ps[..k]) == Success(m)
    {
      var p := ps[k];
      StoreSnoc(Success(slots), ps, k);
      if p.indexName !in m {
        r := Failure(UnknownIndex(p.indexName));
        StoreRest(slots, ps, k + 1, r.error);
        return;
      }
      var arr := m[p.indexName];
      if !(0 <= p.result.shard < |arr|) {
        r := Failure(ShardOutOfRange(p.indexName, p.result.shard));
        StoreRest(slots, ps, k + 1, r.error);
        return;
      }
      m := m[p.indexName := arr[p.result.shard := Some(p.result)]];
      k := k + 1;
    }
    assert ps[..k] == ps;
    r := Success(m);
  }

  lemma StoreRest(slots: Slots, ps: seq<Placed>, k: nat, e: QueryError)
    requires k <= |ps| && Store(Success(slots), ps[..k]) == Failure(e)
    ensures Store(Success(slots), ps) == Failure(e)
  {
    assert ps[..k] + ps[k..] == ps;
    StoreAppend(Success(slots), ps[..k], ps[k..]);
    StoreFailure(e, ps[k..]);
  }

  // ---------------------------------------------------------------------------------------
  // Facet groups

  /** The facet groups of one shard response, tagged with the response's position. */
  function Tagged(fgs: seq<FacetCombining.FacetGroup>, p: int): (r: seq<FacetCombining.ShardGroup>)
    ensures |r| == |fgs| && forall k :: 0 <= k < |fgs| ==> r[k] == FacetCombining.ShardGroup(fgs[k], p)
  {
    seq(|fgs|, k requires 0 <= k < |fgs| => FacetCombining.ShardGroup(fgs[k], p))
  }

  /** Every facet group of every shard response, in order, with its response's position. */
  function FacetGroupsOf(srs: seq<ShardQueryResponse>): seq<FacetCombining.ShardGroup>
  {
    if |srs| == 0 then [] else FacetGroupsOf(srs[..|srs| - 1]) + Tagged(srs[|srs| - 1].facetGroups, |srs| - 1)
  }

  lemma {:induction false} FacetGroupsInRange(srs: seq<ShardQueryResponse>)
    ensures FacetCombining.InRange(FacetGroupsOf(srs), |srs|)
  {
    if |srs| > 0 {
      FacetGroupsInRange(srs[..|srs| - 1]);
    }
  }

  /** The count requests of the groups, each once, in order of first appearance. */
  function Requests(gs: seq<FacetCombining.ShardGroup>): seq<FacetCombining.CountRequest>
  {
    if |gs| == 0 then []
    else
      var r := Requests(gs[..|gs| - 1]);
      var req := gs[|gs| - 1].group.countRequest;
      if req in r then r else r + [req]
  }

  /** The groups answering one count request, in order. */
  function GroupsWith(gs: seq<FacetCombining.ShardGroup>, req: FacetCombining.CountRequest): seq<FacetCombining.ShardGroup>
  {
    if |gs| == 0 then []
    else GroupsWith(gs[..|gs| - 1], req) + (if gs[|gs| - 1].group.countRequest == req then [gs[|gs| - 1]] else [])
  }

  predicate NoRepeats<T(==)>(s: seq<T>)
  {
    forall i, j :: 0 <= i < j < |s| ==> s[i] != s[j]
  }

  /** Each count request some shard answered is listed once, and only those; the groups
      answering one request are drawn from the positions of the responses. */
  lemma {:induction false} RequestsExact(gs: seq<FacetCombining.ShardGroup>, n: nat)
    ensures NoRepeats(Requests(gs))
    ensures forall req :: req in Requests(gs) <==> |GroupsWith(gs, req)| > 0
    ensures FacetCombining.InRange(gs, n) ==> forall req :: FacetCombining.InRange(GroupsWith(gs, req), n)
  {
    RequestsNoRepeats(gs);
    forall req
      ensures req in Requests(gs) <==> |GroupsWith(gs, req)| > 0
    {
      RequestListed(gs, req);
    }
    if FacetCombining.InRange(gs, n) {
      forall req
        ensures FacetCombining.InRange(GroupsWith(gs, req), n)
      {
        GroupsWithInRange(gs, n, req);
      }
    }
  }

  lemma {:induction false} RequestsNoRepeats(gs: seq<FacetCombining.ShardGroup>)
    ensures NoRepeats(Requests(gs))
  {
    if |gs| > 0 {
      RequestsNoRepeats(gs[..|gs| - 1]);
    }
  }

  lemma {:induction false} RequestListed(gs: seq<FacetCombining.ShardGroup>, req: FacetCombining.CountRequest)
    ensures req in Requests(gs) <==> |GroupsWith(gs, req)| > 0
  {
    if |gs| > 0 {
      RequestListed(gs[..|gs| - 1], req);
    }
  }

  lemma {:induction false} GroupsWithInRange(gs: seq<FacetCombining.ShardGroup>, n: nat, req: FacetCombining.CountRequest)
    requires FacetCombining.InRange(gs, n)
    ensures FacetCombining.InRange(GroupsWith(gs, req), n)
  {
    if |gs| > 0 {
      var init := gs[..|gs| - 1];
      assert FacetCombining.InRange(init, n) by {
        assert forall k :: 0 <= k < |init| ==> init[k] == gs[k];
      }
      GroupsWithInRange(init, n, req);
    }
  }

  /** The merged facet groups: one per count request, each the facet combiner's merge of
      the groups answering it over all shard responses. */
  function MergedFacets(srs: seq<ShardQueryResponse>): seq<FacetCombining.FacetGroup>
  {
    var gs := FacetGroupsOf(srs);
    var reqs := Requests(gs);
    seq(|reqs|, k requires 0 <= k < |reqs| => FacetCombining.CombineGroups(reqs[k], |srs|, GroupsWith(gs, reqs[k])))
  }

  /** Some merged group answers `req`. */
  predicate MergedFor(fgs: seq<FacetCombining.FacetGroup>, req: FacetCombining.CountRequest)
  {
    exists k :: 0 <= k < |fgs| && fgs[k].countRequest == req
  }

  /** Some shard's group answers `req`. */
  predicate Answered(gs: seq<FacetCombining.ShardGroup>, req: FacetCombining.CountRequest)
  {
    exists g :: g in gs && g.group.countRequest == req
  }

  /** The merged groups answer distinct count requests, exactly those some shard answered. */
  lemma MergedFacetsFacts(srs: seq<ShardQueryResponse>)
    ensures var fgs := MergedFacets(srs);
      (forall i, j :: 0 <= i < j < |fgs| ==> fgs[i].countRequest != fgs[j].countRequest) &&
      forall req :: MergedFor(fgs, req) <==> Answered(FacetGroupsOf(srs), req)
  {
    var gs := FacetGroupsOf(srs);
    var reqs := Requests(gs);
    RequestsExact(gs, |srs|);
    var fgs := MergedFacets(srs);
    assert forall k :: 0 <= k < |fgs| ==> fgs[k].countRequest == reqs[k];
    forall req
      ensures MergedFor(fgs, req) <==> Answered(gs, req)
    {
      GroupsWithMembers(gs, req);
      if req in reqs {
        var k :| 0 <= k < |reqs| && reqs[k] == req;
        assert fgs[k].countRequest == req;
      }
    }
  }

  lemma {:induction false} GroupsWithMembers(gs: seq<FacetCombining.ShardGroup>, req: FacetCombining.CountRequest)
    ensures |GroupsWith(gs, req)| > 0 <==> Answered(gs, req)
  {
    if |gs| > 0 {
      var init := gs[..|gs| - 1];
      GroupsWithMembers(init, req);
      if g :| g in gs && g.group.countRequest == req {
        if g != gs[|gs| - 1] {
          assert g in init;
        }
      }
    }
  }

  function GetGroups(m: map<FacetCombining.CountRequest, seq<FacetCombining.ShardGroup>>, req: FacetCombining.CountRequest): seq<FacetCombining.ShardGroup>
  {
    if req in m then m[req] else []
  }

  lemma GroupStep(gs: seq<FacetCombining.ShardGroup>, g: FacetCombining.ShardGroup)
    ensures Requests(gs + [g]) == (if g.group.countRequest in Requests(gs) then Requests(gs) else Requests(gs) + [g.group.countRequest])
    ensures forall req :: GroupsWith(gs + [g], req) == GroupsWith(gs, req) + (if g.group.countRequest == req then [g] else [])
  {
    assert (gs + [g])[..|gs|] == gs;
  }

  lemma GroupMapStep(groups: map<FacetCombining.CountRequest, seq<FacetCombining.ShardGroup>>,
                     gs: seq<FacetCombining.ShardGroup>, g: FacetCombining.ShardGroup)
    requires forall req :: GetGroups(groups, req) == GroupsWith(gs, req)
    ensures var r := g.group.countRequest;
      forall req :: GetGroups(groups[r := GetGroups(groups, r) + [g]], req) == GroupsWith(gs + [g], req)
  {
    GroupStep(gs, g);
  }

  lemma TaggedSnoc(fgs: seq<FacetCombining.FacetGroup>, j: nat, p: int)
    requires j < |fgs|
    ensures Tagged(fgs[..j + 1], p) == Tagged(fgs[..j], p) + [FacetCombining.ShardGroup(fgs[j], p)]
  {
  }

  /** One response's facet groups added to the groups gathered so far. */
  method AddShardGroups(ghost before: seq<FacetCombining.ShardGroup>, reqs: seq<FacetCombining.CountRequest>,
                        groups: map<FacetCombining.CountRequest, seq<FacetCombining.ShardGroup>>,
                        fgs: seq<FacetCombining.FacetGroup>, shardIndex: int)
    returns (reqs': seq<FacetCombining.CountRequest>, groups': map<FacetCombining.CountRequest, seq<FacetCombining.ShardGroup>>)
    requires reqs == Requests(before)
    requires forall req :: GetGroups(groups, req) == GroupsWith(before, req)
    ensures reqs' == Requests(before + Tagged(fgs, shardIndex))
    ensures forall req :: GetGroups(groups', req) == GroupsWith(before + Tagged(fgs, shardIndex), req)
  {
    reqs', groups' := reqs, groups;
    assert before + Tagged(fgs[..0], shardIndex) == before;
    var j := 0;
    while j < |fgs|
      invariant 0 <= j <= |fgs|
      invariant reqs' == Requests(before + Tagged(fgs[..j], shardIndex))
      invariant forall req :: GetGroups(groups', req) == GroupsWith(before + Tagged(fgs[..j], shardIndex), req)
    {
      var g := FacetCombining.ShardGroup(fgs[j], shardIndex);
      ghost var sofar := before + Tagged(fgs[..j], shardIndex);
      assert before + Tagged(fgs[..j + 1], shardIndex) == sofar + [g] by {
        TaggedSnoc(fgs, j, shardIndex);
      }
      GroupStep(sofar, g);
      GroupMapStep(groups', sofar, g);
      var req := fgs[j].countRequest;
      if req !in reqs' {
        reqs' := reqs' + [req];
      }
      groups' := groups'[req := GetGroups(groups', req) + [g]];
      j := j + 1;
    }
    assert fgs[..j] == fgs;
  }

  /** The facet groups of all responses, gathered per count request (the accumulation of the
      response loop, one count request at a time). */
  method GroupByRequest(srs: seq<ShardQueryResponse>)
    returns (reqs: seq<FacetCombining.CountRequest>, groups: map<FacetCombining.CountRequest, seq<FacetCombining.ShardGroup>>)
    ensures reqs == Requests(FacetGroupsOf(srs))
    ensures forall req :: GetGroups(groups, req) == GroupsWith(FacetGroupsOf(srs), req)
  {
    reqs, groups := [], map[];
    var shardIndex := 0;
    while shardIndex < |srs|
      invariant 0 <= shardIndex <= |srs|
      invariant reqs == Requests(FacetGroupsOf(srs[..shardIndex]))
      invariant forall req :: GetGroups(groups, req) == GroupsWith(FacetGroupsOf(srs[..shardIndex]), req)
    {
      assert srs[..shardIndex + 1][..shardIndex] == srs[..shardIndex];
      reqs, groups := AddShardGroups(FacetGroupsOf(srs[..shardIndex]), reqs, groups, srs[shardIndex].facetGroups, shardIndex);
      shardIndex := shardIndex + 1;
    }
    assert srs[..shardIndex] == srs;
  }

  /** Each count request's groups merged as the facet combiner merges them. */
  method MergeFacets(srs: seq<ShardQueryResponse>) returns (out: seq<FacetCombining.FacetGroup>)
    ensures out == MergedFacets(srs)
  {
    var reqs, groups := GroupByRequest(srs);
    ghost var gs := FacetGroupsOf(srs);
    FacetGroupsInRange(srs);
    out := CombineEach(reqs, |srs|, gs, groups);
    CombinedEachMerges(srs);
  }

  /** Combining each request in turn gives the merged facet groups. */
  lemma CombinedEachMerges(srs: seq<ShardQueryResponse>)
    ensures FacetCombining.InRange(FacetGroupsOf(srs), |srs|)
    ensures CombinedEach(Requests(FacetGroupsOf(srs)), |srs|, FacetGroupsOf(srs)) == MergedFacets(srs)
  {
    var gs := FacetGroupsOf(srs);
    var reqs := Requests(gs);
    FacetGroupsInRange(srs);
    var c := CombinedEach(reqs, |srs|, gs);
    var m := MergedFacets(srs);
    CombinedEachLength(reqs, |srs|, gs);
    forall i | 0 <= i < |reqs|
      ensures c[i] == m[i]
    {
      CombinedEachAt(reqs, |srs|, gs, i);
    }
  }

  /** The merged group of each count request, in order. */
  ghost function CombinedEach(reqs: seq<FacetCombining.CountRequest>, n: nat, gs: seq<FacetCombining.ShardGroup>): seq<FacetCombining.FacetGroup>
    requires FacetCombining.InRange(gs, n)
  {
    if |reqs| == 0 then []
    else
      var req := reqs[|reqs| - 1];
      GroupsWithInRange(gs, n, req);
      CombinedEach(reqs[..|reqs| - 1], n, gs) + [FacetCombining.CombineGroups(req, n, GroupsWith(gs, req))]
  }

  lemma {:induction false} CombinedEachAt(reqs: seq<FacetCombining.CountRequest>, n: nat, gs: seq<FacetCombining.ShardGroup>, i: int)
    requires FacetCombining.InRange(gs, n) && 0 <= i < |reqs|
    ensures |CombinedEach(reqs, n, gs)| == |reqs|
    ensures CombinedEach(reqs, n, gs)[i] == FacetCombining.CombineGroups(reqs[i], n, GroupsWith(gs, reqs[i]))
  {
    GroupsWithInRange(gs, n, reqs[i]);
    if i < |reqs| - 1 {
      CombinedEachAt(reqs[..|reqs| - 1], n, gs, i);
    } else {
      CombinedEachLength(reqs[..|reqs| - 1], n, gs);
    }
  }

  lemma {:induction false} CombinedEachLength(reqs: seq<FacetCombining.CountRequest>, n: nat, gs: seq<FacetCombining.ShardGroup>)
    requires FacetCombining.InRange(gs, n)
    ensures |CombinedEach(reqs, n, gs)| == |reqs|
  {
    if |reqs| > 0 {
      CombinedEachLength(reqs[..|reqs| - 1], n, gs);
    }
  }

  method CombineEach(reqs: seq<FacetCombining.CountRequest>, n: nat, ghost gs: seq<FacetCombining.ShardGroup>,
                     groups: map<FacetCombining.CountRequest, seq<FacetCombining.ShardGroup>>)
    returns (out: seq<FacetCombining.FacetGroup>)
    requires FacetCombining.InRange(gs, n)
    requires forall req :: GetGroups(groups, req) == GroupsWith(gs, req)
    ensures out == CombinedEach(reqs, n, gs)
  {
    out := [];
    var k := 0;
    while k < |reqs|
      invariant 0 <= k <= |reqs|
      invariant out == CombinedEach(reqs[..k], n, gs)
    {
      GroupsWithInRange(gs, n, reqs[k]);
      assert GetGroups(groups, reqs[k]) == GroupsWith(gs, reqs[k]);
      assert reqs[..k + 1][..k] == reqs[..k];
      var fg := FacetCombining.MergeGroups(reqs[k], n, GetGroups(groups, reqs[k]));
      out := out + [fg];
      k := k + 1;
    }
    assert reqs[..k] == reqs;
  }

  // ---------------------------------------------------------------------------------------
  // The sort type of each sort field

  /** The sort type an index defines for a field (null when it defines none). */
  function IndexSortType(idx: IndexInfo, field: string): Option<FieldType>
  {
    if field in idx.sortFieldTypes then Some(idx.sortFieldTypes[field]) else None
  }

  function TypesFor(field: string, indexes: seq<IndexInfo>): (r: seq<Option<FieldType>>)
    ensures |r| == |indexes| && forall k :: 0 <= k < |indexes| ==> r[k] == IndexSortType(indexes[k], field)
  {
    seq(|indexes|, k requires 0 <= k < |indexes| => IndexSortType(indexes[k], field))
  }

  /** The inner loop over the searched indexes: the type recorded so far is taken from the
      next index while it is null, and must equal every later index's type afterwards (a
      null there included). */
  function Settle(field: string, cur: Option<FieldType>, ts: seq<Option<FieldType>>): Outcome<Option<FieldType>>
  {
    if |ts| == 0 then Success(cur)
    else
      match Settle(field, cur, ts[..|ts| - 1])
      case Failure(e) => Failure(e)
      case Success(c) =>
        var t := ts[|ts| - 1];
        if c.None? then Success(t)
        else if c != t then Failure(SortTypeConflict(field))
        else Success(c)
  }

  /** The first defined type of the list, if any. */
  function FirstSome(ts: seq<Option<FieldType>>): Option<FieldType>
  {
    if |ts| == 0 then None else if ts[0].Some? then ts[0] else FirstSome(ts[1..])
  }

  /** Once some type is defined, every later one is defined and the same. */
  predicate Agree(ts: seq<Option<FieldType>>)
  {
    forall i, j :: 0 <= i < j < |ts| && ts[i].Some? ==> ts[j] == ts[i]
  }

  lemma {:induction false} FirstSomeAppend(ts: seq<Option<FieldType>>, t: Option<FieldType>)
    ensures FirstSome(ts + [t]) == if FirstSome(ts).Some? then FirstSome(ts) else t
  {
    if |ts| > 0 {
      assert (ts + [t])[1..] == ts[1..] + [t];
      FirstSomeAppend(ts[1..], t);
    }
  }

  lemma {:induction false} FirstSomeFacts(ts: seq<Option<FieldType>>)
    ensures FirstSome(ts).None? <==> forall k :: 0 <= k < |ts| ==> ts[k].None?
    ensures FirstSome(ts).Some? ==> exists k :: 0 <= k < |ts| && ts[k] == FirstSome(ts)
    ensures Agree(ts) ==> forall k :: 0 <= k < |ts| && ts[k].Some? ==> ts[k] == FirstSome(ts)
  {
    if |ts| > 0 {
      FirstSomeFacts(ts[1..]);
      assert forall k :: 1 <= k < |ts| ==> ts[k] == ts[1..][k - 1];
      if FirstSome(ts).Some? && ts[0].None? {
        var k :| 0 <= k < |ts[1..]| && ts[1..][k] == FirstSome(ts);
        assert ts[k + 1] == FirstSome(ts);
      }
    }
  }

  lemma AgreeStep(ts: seq<Option<FieldType>>, t: Option<FieldType>)
    ensures Agree(ts + [t]) <==> Agree(ts) && (FirstSome(ts).Some? ==> t == FirstSome(ts))
  {
    FirstSomeFacts(ts);
    var s := ts + [t];
    assert forall k :: 0 <= k < |ts| ==> s[k] == ts[k];
    if Agree(s) && FirstSome(ts).Some? {
      var k :| 0 <= k < |ts| && ts[k] == FirstSome(ts);
      assert s[k] == ts[k] && s[|ts|] == t;
    }
  }

  /** The loop over the indexes succeeds exactly when the types, after the one recorded so
      far, agree; it then records the first defined one. */
  lemma {:induction false} SettleFacts(field: string, cur: Option<FieldType>, ts: seq<Option<FieldType>>)
    ensures Settle(field, cur, ts).Success? <==> Agree([cur] + ts)
    ensures Settle(field, cur, ts).Success? ==> Settle(field, cur, ts).value == FirstSome([cur] + ts)
  {
    if |ts| > 0 {
      var init := ts[..|ts| - 1];
      var t := ts[|ts| - 1];
      SettleFacts(field, cur, init);
      assert [cur] + ts == ([cur] + init) + [t];
      AgreeStep([cur] + init, t);
      FirstSomeAppend([cur] + init, t);
    } else {
      assert [cur] + ts == [cur];
    }
  }

  /** The type recorded for a field so far (null when none). */
  function Lookup(m: map<string, FieldType>, field: string): Option<FieldType>
  {
    if field in m then Some(m[field]) else None
  }

  /** The loop over the sort fields, skipping the length fields; a null type leaves no entry,
      which reads the same as a null one. */
  function SortTypes(naming: Naming, sorts: seq<FieldSort>, indexes: seq<IndexInfo>): Outcome<map<string, FieldType>>
  {
    if |sorts| == 0 then Success(map[])
    else
      match SortTypes(naming, sorts[..|sorts| - 1], indexes)
      case Failure(e) => Failure(e)
      case Success(m) =>
        var field := sorts[|sorts| - 1].sortField;
        match QueryParser.RewriteLengthFields(naming, field)
        case Err(_) => Failure(BadLengthField(field))
        case Ok(rewritten) =>
          if rewritten != field then Success(m)
          else
            match Settle(field, Lookup(m, field), TypesFor(field, indexes))
            case Failure(e) => Failure(e)
            case Success(t) => Success(if t.Some? then m[field := t.value] else m - {field})
  }

  /** A plain (not length) sort field. */
  predicate Plain(naming: Naming, field: string)
  {
    QueryParser.RewriteLengthFields(naming, field) == Ok(field)
  }

  predicate SortsField(sorts: seq<FieldSort>, field: string)
  {
    exists k :: 0 <= k < |sorts| && sorts[k].sortField == field
  }

  predicate Rewritable(naming: Naming, sorts: seq<FieldSort>)
  {
    forall k :: 0 <= k < |sorts| ==> QueryParser.RewriteLengthFields(naming, sorts[k].sortField).Ok?
  }

  /** The indexes agree on the type of each plain sort field and the type recorded for it is
      the first one an index defines. */
  predicate Recorded(naming: Naming, sorts: seq<FieldSort>, indexes: seq<IndexInfo>, m: map<string, FieldType>)
  {
    forall k :: 0 <= k < |sorts| && Plain(naming, sorts[k].sortField) ==>
      Agree(TypesFor(sorts[k].sortField, indexes)) && Lookup(m, sorts[k].sortField) == FirstSome(TypesFor(sorts[k].sortField, indexes))
  }

  /** Only plain sort fields have a recorded type. */
  predicate OnlyPlain(naming: Naming, sorts: seq<FieldSort>, m: map<string, FieldType>)
  {
    forall field :: field in m ==> SortsField(sorts, field) && Plain(naming, field)
  }

  /** What the recorded sort types say about the sort fields: each survives the length-field
      rewrite, each plain one has the type the indexes agree on, and nothing else is recorded. */
  predicate Settled(naming: Naming, sorts: seq<FieldSort>, indexes: seq<IndexInfo>, m: map<string, FieldType>)
  {
    Rewritable(naming, sorts) && Recorded(naming, sorts, indexes, m) && OnlyPlain(naming, sorts, m)
  }

  lemma NoneFirst(ts: seq<Option<FieldType>>)
    ensures Agree([None] + ts) <==> Agree(ts)
    ensures FirstSome([None] + ts) == FirstSome(ts)
  {
    var s := [None] + ts;
    assert forall k :: 1 <= k < |s| ==> s[k] == ts[k - 1];
    assert s[1..] == ts;
  }

  lemma PrependAgree(c: Option<FieldType>, ts: seq<Option<FieldType>>)
    requires Agree([c] + ts)
    ensures Agree(ts)
  {
    var s := [c] + ts;
    forall i, j | 0 <= i < j < |ts| && ts[i].Some?
      ensures ts[j] == ts[i]
    {
      assert s[i + 1] == ts[i] && s[j + 1] == ts[j];
    }
  }

  /** The type the last field's step records for it. */
  lemma SettledField(naming: Naming, sorts: seq<FieldSort>, indexes: seq<IndexInfo>)
    requires |sorts| > 0
    requires SortTypes(naming, sorts[..|sorts| - 1], indexes).Success?
    requires Settled(naming, sorts[..|sorts| - 1], indexes, SortTypes(naming, sorts[..|sorts| - 1], indexes).value)
    requires SortTypes(naming, sorts, indexes).Success?
    requires Plain(naming, sorts[|sorts| - 1].sortField)
    ensures var field := sorts[|sorts| - 1].sortField;
      Agree(TypesFor(field, indexes)) && Lookup(SortTypes(naming, sorts, indexes).value, field) == FirstSome(TypesFor(field, indexes))
  {
    var init := sorts[..|sorts| - 1];
    var field := sorts[|sorts| - 1].sortField;
    var m := SortTypes(naming, init, indexes).value;
    var ts := TypesFor(field, indexes);
    SettleFacts(field, Lookup(m, field), ts);
    if field !in m {
      NoneFirst(ts);
    } else {
      var k :| 0 <= k < |init| && init[k].sortField == field;
      PrependAgree(Lookup(m, field), ts);
    }
  }

  /** The last sort field's step: it survives the rewrite, touches only its own entry, and
      leaves the map alone when it is a length field. */
  lemma LastFieldStep(naming: Naming, sorts: seq<FieldSort>, indexes: seq<IndexInfo>)
    requires |sorts| > 0
    requires SortTypes(naming, sorts, indexes).Success?
    ensures SortTypes(naming, sorts[..|sorts| - 1], indexes).Success?
    ensures var field := sorts[|sorts| - 1].sortField;
      var m := SortTypes(naming, sorts[..|sorts| - 1], indexes).value;
      var m' := SortTypes(naming, sorts, indexes).value;
      QueryParser.RewriteLengthFields(naming, field).Ok? &&
      (forall f :: f != field ==> Lookup(m', f) == Lookup(m, f)) &&
      (forall f :: f in m' ==> f in m || f == field) &&
      (!Plain(naming, field) ==> m' == m)
  {
  }

  lemma RecordedStep(naming: Naming, sorts: seq<FieldSort>, indexes: seq<IndexInfo>,
                     m: map<string, FieldType>, m': map<string, FieldType>)
    requires |sorts| > 0
    requires Recorded(naming, sorts[..|sorts| - 1], indexes, m)
    requires forall f :: f != sorts[|sorts| - 1].sortField ==> Lookup(m', f) == Lookup(m, f)
    requires var field := sorts[|sorts| - 1].sortField;
      Plain(naming, field) ==> Agree(TypesFor(field, indexes)) && Lookup(m', field) == FirstSome(TypesFor(field, indexes))
    ensures Recorded(naming, sorts, indexes, m')
  {
    var init := sorts[..|sorts| - 1];
    forall k | 0 <= k < |sorts| && Plain(naming, sorts[k].sortField)
      ensures Agree(TypesFor(sorts[k].sortField, indexes)) && Lookup(m', sorts[k].sortField) == FirstSome(TypesFor(sorts[k].sortField, indexes))
    {
      if k < |init| {
        assert init[k] == sorts[k];
      }
    }
  }

  lemma OnlyPlainStep(naming: Naming, sorts: seq<FieldSort>, m: map<string, FieldType>, m': map<string, FieldType>)
    requires |sorts| > 0
    requires OnlyPlain(naming, sorts[..|sorts| - 1], m)
    requires forall f :: f in m' ==> f in m || f == sorts[|sorts| - 1].sortField
    requires !Plain(naming, sorts[|sorts| - 1].sortField) ==> m' == m
    ensures OnlyPlain(naming, sorts, m')
  {
    var init := sorts[..|sorts| - 1];
    var field := sorts[|sorts| - 1].sortField;
    forall field2 | field2 in m'
      ensures SortsField(sorts, field2) && Plain(naming, field2)
    {
      if field2 != field || field2 in m {
        var k :| 0 <= k < |init| && init[k].sortField == field2;
        assert sorts[k].sortField == field2;
      } else {
        assert sorts[|sorts| - 1].sortField == field2;
      }
    }
  }

  lemma SettledStep(naming: Naming, sorts: seq<FieldSort>, indexes: seq<IndexInfo>)
    requires |sorts| > 0
    requires SortTypes(naming, sorts[..|sorts| - 1], indexes).Success?
    requires Settled(naming, sorts[..|sorts| - 1], indexes, SortTypes(naming, sorts[..|sorts| - 1], indexes).value)
    requires SortTypes(naming, sorts, indexes).Success?
    ensures Settled(naming, sorts, indexes, SortTypes(naming, sorts, indexes).value)
  {
    var init := sorts[..|sorts| - 1];
    var m := SortTypes(naming, init, indexes).value;
    var m' := SortTypes(naming, sorts, indexes).value;
    LastFieldStep(naming, sorts, indexes);
    if Plain(naming, sorts[|sorts| - 1].sortField) {
      SettledField(naming, sorts, indexes);
    }
    RecordedStep(naming, sorts, indexes, m, m');
    OnlyPlainStep(naming, sorts, m, m');
    RewritableStep(naming, sorts);
  }

  lemma RewritableStep(naming: Naming, sorts: seq<FieldSort>)
    requires |sorts| > 0
    requires Rewritable(naming, sorts[..|sorts| - 1])
    requires QueryParser.RewriteLengthFields(naming, sorts[|sorts| - 1].sortField).Ok?
    ensures Rewritable(naming, sorts)
  {
    var init := sorts[..|sorts| - 1];
    assert forall k :: 0 <= k < |init| ==> init[k] == sorts[k];
  }

  /** When the sort types are settled, the sort fields are as `Settled` says. */
  lemma {:induction false} SortTypesSound(naming: Naming, sorts: seq<FieldSort>, indexes: seq<IndexInfo>)
    ensures SortTypes(naming, sorts, indexes).Success? ==> Settled(naming, sorts, indexes, SortTypes(naming, sorts, indexes).value)
  {
    if |sorts| > 0 && SortTypes(naming, sorts, indexes).Success? {
      SortTypesSound(naming, sorts[..|sorts| - 1], indexes);
      SettledStep(naming, sorts, indexes);
    }
  }

  /** Every field survives the rewrite, and the indexes agree on every plain one. */
  predicate Consistent(naming: Naming, sorts: seq<FieldSort>, indexes: seq<IndexInfo>)
  {
    forall k :: 0 <= k < |sorts| ==> (QueryParser.RewriteLengthFields(naming, sorts[k].sortField).Ok? &&
      (Plain(naming, sorts[k].sortField) ==> Agree(TypesFor(sorts[k].sortField, indexes))))
  }

  /** The sort types settle whenever the fields are consistent and none is named twice. */
  lemma {:induction false} SortTypesComplete(naming: Naming, sorts: seq<FieldSort>, indexes: seq<IndexInfo>)
    requires Consistent(naming, sorts, indexes)
    requires forall i, j :: 0 <= i < j < |sorts| ==> sorts[i].sortField != sorts[j].sortField
    ensures SortTypes(naming, sorts, indexes).Success?
  {
    if |sorts| > 0 {
      var init := sorts[..|sorts| - 1];
      var field := sorts[|sorts| - 1].sortField;
      assert forall k :: 0 <= k < |init| ==> init[k] == sorts[k];
      SortTypesComplete(naming, init, indexes);
      SortTypesSound(naming, init, indexes);
      var m := SortTypes(naming, init, indexes).value;
      if Plain(naming, field) {
        var ts := TypesFor(field, indexes);
        assert field !in m;
        SettleFacts(field, None, ts);
        NoneFirst(ts);
      }
    }
  }

  lemma SettleSnoc(field: string, cur: Option<FieldType>, ts: seq<Option<FieldType>>, k: nat)
    requires k < |ts|
    ensures Settle(field, cur, ts[..k + 1]) ==
      match Settle(field, cur, ts[..k])
      case Failure(e) => Failure(e)
      case Success(c) => if c.None? then Success(ts[k]) else if c != ts[k] then Failure(SortTypeConflict(field)) else Success(c)
  {
    assert ts[..k + 1][..k] == ts[..k];
  }

  lemma {:induction false} SettleFailure(field: string, cur: Option<FieldType>, ts: seq<Option<FieldType>>, k: nat)
    requires k <= |ts| && Settle(field, cur, ts[..k]).Failure?
    ensures Settle(field, cur, ts) == Settle(field, cur, ts[..k])
    decreases |ts| - k
  {
    if k < |ts| {
      SettleSnoc(field, cur, ts, k);
      SettleFailure(field, cur, ts, k + 1);
    } else {
      assert ts[..k] == ts;
    }
  }

  /** The inner loop: one sort field checked against every searched index. */
  method SettleField(field: string, cur: Option<FieldType>, indexes: seq<IndexInfo>) returns (r: Outcome<Option<FieldType>>)
    ensures r == Settle(field, cur, TypesFor(field, indexes))
  {
    ghost var ts := TypesFor(field, indexes);
    var current := cur;
    var k := 0;
    while k < |indexes|
      invariant 0 <= k <= |indexes|
      invariant Settle(field, cur, ts[..k]) == Success(current)
    {
      var indexSortType := IndexSortType(indexes[k], field);
      SettleSnoc(field, cur, ts, k);
      if current.None? {
        current := indexSortType;
      } else if current != indexSortType {
        r := Failure(SortTypeConflict(field));
        SettleFailure(field, cur, ts, k + 1);
        return;
      }
      k := k + 1;
    }
    assert ts[..k] == ts;
    r := Success(current);
  }

  lemma {:induction false} SortTypesFailure(naming: Naming, sorts: seq<FieldSort>, indexes: seq<IndexInfo>, k: nat)
    requires k <= |sorts| && SortTypes(naming, sorts[..k], indexes).Failure?
    ensures SortTypes(naming, sorts, indexes) == SortTypes(naming, sorts[..k], indexes)
    decreases |sorts| - k
  {
    if k < |sorts| {
      assert sorts[..k + 1][..k] == sorts[..k];
      SortTypesFailure(naming, sorts, indexes, k + 1);
    } else {
      assert sorts[..k] == sorts;
    }
  }

  /** The loop over the sort fields, recording each plain field's type. */
  method SettleSortTypes(naming: Naming, sorts: seq<FieldSort>, indexes: seq<IndexInfo>) returns (r: Outcome<map<string, FieldType>>)
    ensures r == SortTypes(naming, sorts, indexes)
  {
    var sortTypeMap: map<string, FieldType> := map[];
    var k := 0;
    while k < |sorts|
      invariant 0 <= k <= |sorts|
      invariant SortTypes(naming, sorts[..k], indexes) == Success(sortTypeMap)
    {
      var sortField := sorts[k].sortField;
      assert sorts[..k + 1][..k] == sorts[..k];
      var rewritten := QueryParser.RewriteLengthFields(naming, sortField);
      if rewritten.Err? {
        r := Failure(BadLengthField(sortField));
        SortTypesFailure(naming, sorts, indexes, k + 1);
        return;
      }
      if rewritten.value == sortField {
        var t := SettleField(sortField, Lookup(sortTypeMap, sortField), indexes);
        if t.Failure? {
          r := Failure(t.error);
          SortTypesFailure(naming, sorts, indexes, k + 1);
          return;
        }
        if t.value.Some? {
          sortTypeMap := sortTypeMap[sortField := t.value.value];
        } else {
          sortTypeMap := sortTypeMap - {sortField};
        }
      }
      k := k + 1;
    }
    assert sorts[..k] == sorts;
    r := Success(sortTypeMap);
  }

  // ---------------------------------------------------------------------------------------
  // Sorting the merged hits

  type SortContext = PostSorting.SortContext

  predicate AllSortable(ctx: SortContext, sorts: seq<FieldSort>, s: seq<ScoredResult>)
  {
    forall k :: 0 <= k < |s| ==> PostSorting.Sortable(ctx, sorts, s[k])
  }

  predicate SortedBy(ctx: SortContext, sorts: seq<FieldSort>, s: seq<ScoredResult>)
    requires AllSortable(ctx, sorts, s)
  {
    forall i, j :: 0 <= i < j < |s| ==> PostSorting.Compare(ctx, sorts, s[i], s[j]) <= 0
  }

  /** `x` placed after every hit that does not compare above it (so equal hits keep their order). */
  function Insert(ctx: SortContext, sorts: seq<FieldSort>, x: ScoredResult, s: seq<ScoredResult>): (r: seq<ScoredResult>)
    requires PostSorting.Sortable(ctx, sorts, x) && AllSortable(ctx, sorts, s)
    ensures |r| == |s| + 1 && multiset(r) == multiset(s) + multiset{x} && AllSortable(ctx, sorts, r)
  {
    if |s| == 0 then [x]
    else if PostSorting.Compare(ctx, sorts, x, s[0]) < 0 then
      ConsSortable(ctx, sorts, x, s);
      [x] + s
    else
      assert s == [s[0]] + s[1..];
      TailSortable(ctx, sorts, s);
      var t := Insert(ctx, sorts, x, s[1..]);
      ConsSortable(ctx, sorts, s[0], t);
      assert multiset([s[0]] + t) == multiset{s[0]} + multiset(s[1..]) + multiset{x};
      [s[0]] + t
  }

  lemma ConsSortable(ctx: SortContext, sorts: seq<FieldSort>, y: ScoredResult, t: seq<ScoredResult>)
    requires PostSorting.Sortable(ctx, sorts, y) && AllSortable(ctx, sorts, t)
    ensures AllSortable(ctx, sorts, [y] + t)
  {
    assert forall k :: 0 < k < |t| + 1 ==> ([y] + t)[k] == t[k - 1];
  }

  lemma TailSortable(ctx: SortContext, sorts: seq<FieldSort>, s: seq<ScoredResult>)
    requires |s| > 0 && AllSortable(ctx, sorts, s)
    ensures PostSorting.Sortable(ctx, sorts, s[0]) && AllSortable(ctx, sorts, s[1..])
  {
    assert forall k :: 0 <= k < |s| - 1 ==> s[1..][k] == s[k + 1];
  }

  /** The merged hits in comparator order; the sort of a Java list is stable, and so is this. */
  function SortHits(ctx: SortContext, sorts: seq<FieldSort>, s: seq<ScoredResult>): (r: seq<ScoredResult>)
    requires AllSortable(ctx, sorts, s)
    ensures |r| == |s| && multiset(r) == multiset(s) && AllSortable(ctx, sorts, r)
  {
    if |s| == 0 then []
    else
      assert s == s[..|s| - 1] + [s[|s| - 1]];
      Insert(ctx, sorts, s[|s| - 1], SortHits(ctx, sorts, s[..|s| - 1]))
  }

  lemma {:induction false} InsertSorted(ctx: SortContext, sorts: seq<FieldSort>, x: ScoredResult, s: seq<ScoredResult>)
    requires PostSorting.Sortable(ctx, sorts, x) && AllSortable(ctx, sorts, s) && SortedBy(ctx, sorts, s)
    ensures SortedBy(ctx, sorts, Insert(ctx, sorts, x, s))
  {
    if |s| > 0 {
      TailSortable(ctx, sorts, s);
      if PostSorting.Compare(ctx, sorts, x, s[0]) < 0 {
        forall j | 0 <= j < |s|
          ensures PostSorting.Compare(ctx, sorts, x, s[j]) <= 0
        {
          if j > 0 {
            PostSorting.CompareTransitive(ctx, sorts, x, s[0], s[j]);
          }
        }
        SortedCons(ctx, sorts, x, s);
      } else {
        var rest := s[1..];
        assert forall k :: 0 <= k < |rest| ==> rest[k] == s[k + 1];
        InsertSorted(ctx, sorts, x, rest);
        PostSorting.CompareAntisymmetric(ctx, sorts, x, s[0]);
        BeforeInserted(ctx, sorts, s[0], x, rest);
        SortedCons(ctx, sorts, s[0], Insert(ctx, sorts, x, rest));
      }
    }
  }

  /** A hit ordered no later than every hit of a sorted list keeps it sorted when put first. */
  lemma SortedCons(ctx: SortContext, sorts: seq<FieldSort>, y: ScoredResult, t: seq<ScoredResult>)
    requires PostSorting.Sortable(ctx, sorts, y) && AllSortable(ctx, sorts, t) && SortedBy(ctx, sorts, t)
    requires forall j :: 0 <= j < |t| ==> PostSorting.Compare(ctx, sorts, y, t[j]) <= 0
    ensures AllSortable(ctx, sorts, [y] + t) && SortedBy(ctx, sorts, [y] + t)
  {
    ConsSortable(ctx, sorts, y, t);
    var r := [y] + t;
    forall i, j | 0 <= i < j < |r|
      ensures PostSorting.Compare(ctx, sorts, r[i], r[j]) <= 0
    {
      assert r[j] == t[j - 1];
      if i > 0 {
        assert r[i] == t[i - 1];
      }
    }
  }

  /** A hit ordered no later than x and than every hit of t is ordered no later than any hit
      of x inserted into t. */
  lemma BeforeInserted(ctx: SortContext, sorts: seq<FieldSort>, y: ScoredResult, x: ScoredResult, t: seq<ScoredResult>)
    requires PostSorting.Sortable(ctx, sorts, y) && PostSorting.Sortable(ctx, sorts, x) && AllSortable(ctx, sorts, t)
    requires PostSorting.Compare(ctx, sorts, y, x) <= 0
    requires forall k :: 0 <= k < |t| ==> PostSorting.Compare(ctx, sorts, y, t[k]) <= 0
    ensures forall j :: 0 <= j < |Insert(ctx, sorts, x, t)| ==> PostSorting.Compare(ctx, sorts, y, Insert(ctx, sorts, x, t)[j]) <= 0
  {
    var r := Insert(ctx, sorts, x, t);
    forall j | 0 <= j < |r|
      ensures PostSorting.Compare(ctx, sorts, y, r[j]) <= 0
    {
      assert r[j] in multiset(r);
      if r[j] != x {
        assert r[j] in multiset(t);
        var k :| 0 <= k < |t| && t[k] == r[j];
      }
    }
  }

  /** The sorted hits are in comparator order and are the merged hits, each as often. */
  lemma {:induction false} SortHitsSorted(ctx: SortContext, sorts: seq<FieldSort>, s: seq<ScoredResult>)
    requires AllSortable(ctx, sorts, s)
    ensures SortedBy(ctx, sorts, SortHits(ctx, sorts, s))
    ensures multiset(SortHits(ctx, sorts, s)) == multiset(s)
  {
    if |s| > 0 {
      var init := s[..|s| - 1];
      SortHitsSorted(ctx, sorts, init);
      InsertSorted(ctx, sorts, s[|s| - 1], SortHits(ctx, sorts, init));
    }
  }

  // ---------------------------------------------------------------------------------------
  // Is the merge short?

  predicate SlotsSortable(ctx: SortContext, sorts: seq<FieldSort>, arr: seq<Option<ScoredResult>>)
  {
    forall s :: 0 <= s < |arr| && arr[s].Some? ==> PostSorting.Sortable(ctx, sorts, arr[s].value)
  }

  predicate NextSortable(ctx: SortContext, sorts: seq<FieldSort>, shards: map<int, ShardQueryResponse>)
  {
    forall s :: s in shards && shards[s].next.Some? ==> PostSorting.Sortable(ctx, sorts, shards[s].next.value)
  }

  /** The last hit kept from an index: the slot that sorts last, the earliest of equals. */
  function LastForIndex(ctx: SortContext, sorts: seq<FieldSort>, arr: seq<Option<ScoredResult>>): (r: Option<ScoredResult>)
    requires SlotsSortable(ctx, sorts, arr)
    ensures r.Some? ==> PostSorting.Sortable(ctx, sorts, r.value)
  {
    if |arr| == 0 then None
    else
      var init := arr[..|arr| - 1];
      assert SlotsSortable(ctx, sorts, init) by {
        assert forall s :: 0 <= s < |init| ==> init[s] == arr[s];
      }
      var r := LastForIndex(ctx, sorts, init);
      match arr[|arr| - 1]
      case None => r
      case Some(x) =>
        if r.None? then Some(x)
        else if PostSorting.Compare(ctx, sorts, x, r.value) > 0 then Some(x)
        else r
  }

  /** The last hit of an index is one of its slots, there is one exactly when some slot is
      filled, and no slot sorts after it. */
  lemma LastForIndexFacts(ctx: SortContext, sorts: seq<FieldSort>, arr: seq<Option<ScoredResult>>)
    requires SlotsSortable(ctx, sorts, arr)
    ensures LastForIndex(ctx, sorts, arr).None? <==> forall s :: 0 <= s < |arr| ==> arr[s].None?
    ensures LastForIndex(ctx, sorts, arr).Some? ==> LastForIndex(ctx, sorts, arr) in arr
    ensures LastForIndex(ctx, sorts, arr).Some? ==> forall s :: 0 <= s < |arr| && arr[s].Some? ==>
      PostSorting.Compare(ctx, sorts, arr[s].value, LastForIndex(ctx, sorts, arr).value) <= 0
  {
    LastForIndexIn(ctx, sorts, arr);
    forall s | 0 <= s < |arr| && arr[s].Some?
      ensures LastForIndex(ctx, sorts, arr).Some?
      ensures PostSorting.Compare(ctx, sorts, arr[s].value, LastForIndex(ctx, sorts, arr).value) <= 0
    {
      LastForIndexMax(ctx, sorts, arr, s);
    }
  }

  lemma {:induction false} LastForIndexIn(ctx: SortContext, sorts: seq<FieldSort>, arr: seq<Option<ScoredResult>>)
    requires SlotsSortable(ctx, sorts, arr)
    ensures LastForIndex(ctx, sorts, arr).Some? ==> LastForIndex(ctx, sorts, arr) in arr
  {
    if |arr| > 0 {
      var init := arr[..|arr| - 1];
      assert SlotsSortable(ctx, sorts, init) by {
        assert forall s :: 0 <= s < |init| ==> init[s] == arr[s];
      }
      LastForIndexIn(ctx, sorts, init);
      if LastForIndex(ctx, sorts, init).Some? {
        var i :| 0 <= i < |init| && init[i] == LastForIndex(ctx, sorts, init);
        assert arr[i] == init[i];
      }
    }
  }

  lemma {:induction false} LastForIndexMax(ctx: SortContext, sorts: seq<FieldSort>, arr: seq<Option<ScoredResult>>, s: nat)
    requires SlotsSortable(ctx, sorts, arr) && s < |arr| && arr[s].Some?
    ensures LastForIndex(ctx, sorts, arr).Some?
    ensures PostSorting.Compare(ctx, sorts, arr[s].value, LastForIndex(ctx, sorts, arr).value) <= 0
  {
    var init := arr[..|arr| - 1];
    assert SlotsSortable(ctx, sorts, init) by {
      assert forall t :: 0 <= t < |init| ==> init[t] == arr[t];
    }
    var r := LastForIndex(ctx, sorts, init);
    if s < |init| {
      assert init[s] == arr[s];
      LastForIndexMax(ctx, sorts, init, s);
      if arr[|arr| - 1].Some? {
        var x := arr[|arr| - 1].value;
        if PostSorting.Compare(ctx, sorts, x, r.value) > 0 {
          PostSorting.CompareAntisymmetric(ctx, sorts, x, r.value);
          PostSorting.CompareTransitive(ctx, sorts, arr[s].value, r.value, x);
        }
      }
    } else {
      var x := arr[s].value;
      PostSorting.CompareAntisymmetric(ctx, sorts, x, x);
    }
  }

  /** A shard's next hit sorts before the last hit kept from its index: when sorting that is
      enough, otherwise the scores must also differ by more than the shard tolerance. */
  predicate ShortAgainst(ctx: SortContext, sorts: seq<FieldSort>, sorting: bool, tolerance: real,
                         last: ScoredResult, next: ScoredResult)
    requires PostSorting.Sortable(ctx, sorts, last) && PostSorting.Sortable(ctx, sorts, next)
  {
    PostSorting.Compare(ctx, sorts, last, next) > 0 && (sorting || Abs(last.score - next.score) > tolerance)
  }

  function Abs(x: real): real
  {
    if x < 0.0 then -x else x
  }

  /** Some shard of the index has a next hit that is short against the index's last hit. */
  predicate IndexShort(ctx: SortContext, sorts: seq<FieldSort>, sorting: bool, idx: IndexInfo,
                       arr: seq<Option<ScoredResult>>, shards: map<int, ShardQueryResponse>)
    requires SlotsSortable(ctx, sorts, arr) && NextSortable(ctx, sorts, shards)
  {
    var last := LastForIndex(ctx, sorts, arr);
    last.Some? && exists s :: (0 <= s < idx.numberOfShards && s in shards && shards[s].next.Some? &&
      ShortAgainst(ctx, sorts, sorting, idx.shardTolerance, last.value, shards[s].next.value))
  }

  /** Every searched index has slots and shard responses, sortable ones. */
  predicate Checkable(ctx: SortContext, sorts: seq<FieldSort>, indexes: seq<IndexInfo>, slots: Slots,
                      shards: map<string, map<int, ShardQueryResponse>>)
  {
    forall k :: 0 <= k < |indexes| ==> (indexes[k].indexName in slots && indexes[k].indexName in shards &&
      SlotsSortable(ctx, sorts, slots[indexes[k].indexName]) && NextSortable(ctx, sorts, shards[indexes[k].indexName]))
  }

  predicate ShortMerge(ctx: SortContext, sorts: seq<FieldSort>, sorting: bool, indexes: seq<IndexInfo>, slots: Slots,
                       shards: map<string, map<int, ShardQueryResponse>>)
    requires Checkable(ctx, sorts, indexes, slots, shards)
  {
    exists k :: 0 <= k < |indexes| &&
      IndexShort(ctx, sorts, sorting, indexes[k], slots[indexes[k].indexName], shards[indexes[k].indexName])
  }

  /** When the merge is not short and the hits are sorted by fields, no shard's next hit sorts
      before any hit kept from its index: the page is exactly what a single index would return. */
  lemma NotShortSorted(ctx: SortContext, sorts: seq<FieldSort>, indexes: seq<IndexInfo>, slots: Slots,
                       shards: map<string, map<int, ShardQueryResponse>>, k: nat, s: int, y: int)
    requires Checkable(ctx, sorts, indexes, slots, shards)
    requires !ShortMerge(ctx, sorts, true, indexes, slots, shards)
    requires k < |indexes|
    requires var name := indexes[k].indexName;
      0 <= s < indexes[k].numberOfShards && s in shards[name] && shards[name][s].next.Some? &&
      0 <= y < |slots[name]| && slots[name][y].Some?
    ensures var name := indexes[k].indexName;
      PostSorting.Compare(ctx, sorts, slots[name][y].value, shards[name][s].next.value) <= 0
  {
    var name := indexes[k].indexName;
    var arr := slots[name];
    LastForIndexFacts(ctx, sorts, arr);
    var last := LastForIndex(ctx, sorts, arr).value;
    assert !IndexShort(ctx, sorts, true, indexes[k], arr, shards[name]);
    PostSorting.CompareTransitive(ctx, sorts, arr[y].value, last, shards[name][s].next.value);
  }

  /** When the merge is not short and the hits are sorted by score, a shard's next hit that
      would sort before its index's last hit scores within the shard tolerance of it. */
  lemma NotShortByScore(ctx: SortContext, sorts: seq<FieldSort>, indexes: seq<IndexInfo>, slots: Slots,
                        shards: map<string, map<int, ShardQueryResponse>>, k: nat, s: int)
    requires Checkable(ctx, sorts, indexes, slots, shards)
    requires !ShortMerge(ctx, sorts, false, indexes, slots, shards)
    requires k < |indexes|
    requires var name := indexes[k].indexName;
      0 <= s < indexes[k].numberOfShards && s in shards[name] && shards[name][s].next.Some? &&
      LastForIndex(ctx, sorts, slots[name]).Some?
    ensures var name := indexes[k].indexName;
      var last := LastForIndex(ctx, sorts, slots[name]).value;
      var next := shards[name][s].next.value;
      PostSorting.Compare(ctx, sorts, last, next) <= 0 || Abs(last.score - next.score) <= indexes[k].shardTolerance
  {
    var name := indexes[k].indexName;
    assert !IndexShort(ctx, sorts, false, indexes[k], slots[name], shards[name]);
  }

  /** The last hit kept from an index (the loop over its slots). */
  method FindLast(ctx: SortContext, sorts: seq<FieldSort>, arr: seq<Option<ScoredResult>>) returns (last: Option<ScoredResult>)
    requires SlotsSortable(ctx, sorts, arr)
    ensures last == LastForIndex(ctx, sorts, arr)
  {
    last := None;
    var s := 0;
    while s < |arr|
      invariant 0 <= s <= |arr|
      invariant SlotsSortable(ctx, sorts, arr[..s]) && last == LastForIndex(ctx, sorts, arr[..s])
    {
      assert arr[..s + 1][..s] == arr[..s];
      if arr[s].Some? {
        var sr := arr[s].value;
        if last.None? {
          last := Some(sr);
        } else if PostSorting.Compare(ctx, sorts, sr, last.value) > 0 {
          last := Some(sr);
        }
      }
      s := s + 1;
    }
    assert arr[..s] == arr;
  }

  /** The loop over one index's shards. */
  method CheckIndexShort(ctx: SortContext, sorts: seq<FieldSort>, sorting: bool, idx: IndexInfo,
                         arr: seq<Option<ScoredResult>>, shards: map<int, ShardQueryResponse>) returns (short: bool)
    requires SlotsSortable(ctx, sorts, arr) && NextSortable(ctx, sorts, shards)
    requires forall s :: 0 <= s < idx.numberOfShards ==> s in shards
    ensures short == IndexShort(ctx, sorts, sorting, idx, arr, shards)
  {
    var last := FindLast(ctx, sorts, arr);
    if last.None? {
      return false;
    }
    var lastForIndex := last.value;
    var shardNumber := 0;
    while shardNumber < idx.numberOfShards
      invariant 0 <= shardNumber <= idx.numberOfShards
      invariant forall s :: 0 <= s < shardNumber && shards[s].next.Some? ==>
        !ShortAgainst(ctx, sorts, sorting, idx.shardTolerance, lastForIndex, shards[s].next.value)
    {
      var sr := shards[shardNumber];
      if sr.next.Some? {
        var next := sr.next.value;
        var compare := PostSorting.Compare(ctx, sorts, lastForIndex, next);
        if compare > 0 {
          if sorting {
            return true;
          }
          var diff := Abs(lastForIndex.score - next.score);
          if diff > idx.shardTolerance {
            return true;
          }
        }
      }
      shardNumber := shardNumber + 1;
    }
    return false;
  }

  /** The loop over the searched indexes, left at the first short one. */
  method CheckShort(ctx: SortContext, sorts: seq<FieldSort>, sorting: bool, indexes: seq<IndexInfo>, slots: Slots,
                    shards: map<string, map<int, ShardQueryResponse>>) returns (isShort: bool)
    requires Checkable(ctx, sorts, indexes, slots, shards)
    requires forall k, s :: 0 <= k < |indexes| && 0 <= s < indexes[k].numberOfShards ==> s in shards[indexes[k].indexName]
    ensures isShort == ShortMerge(ctx, sorts, sorting, indexes, slots, shards)
  {
    isShort := false;
    var k := 0;
    while k < |indexes|
      invariant 0 <= k <= |indexes|
      invariant forall j :: 0 <= j < k ==>
        !IndexShort(ctx, sorts, sorting, indexes[j], slots[indexes[j].indexName], shards[indexes[j].indexName])
    {
      var name := indexes[k].indexName;
      var short := CheckIndexShort(ctx, sorts, sorting, indexes[k], slots[name], shards[name]);
      if short {
        isShort := true;
        break;
      }
      NoneShortStep(ctx, sorts, sorting, indexes, slots, shards, k);
      k := k + 1;
    }
  }

  lemma NoneShortStep(ctx: SortContext, sorts: seq<FieldSort>, sorting: bool, indexes: seq<IndexInfo>, slots: Slots,
                      shards: map<string, map<int, ShardQueryResponse>>, k: int)
    requires Checkable(ctx, sorts, indexes, slots, shards) && 0 <= k < |indexes|
    requires forall j :: 0 <= j < k ==>
      !IndexShort(ctx, sorts, sorting, indexes[j], slots[indexes[j].indexName], shards[indexes[j].indexName])
    requires !IndexShort(ctx, sorts, sorting, indexes[k], slots[indexes[k].indexName], shards[indexes[k].indexName])
    ensures forall j :: 0 <= j < k + 1 ==>
      !IndexShort(ctx, sorts, sorting, indexes[j], slots[indexes[j].indexName], shards[indexes[j].indexName])
  {
  }

  // ---------------------------------------------------------------------------------------
  // The page returned

  /** The position of the first hit returned: `start`, kept within the kept hits. */
  function FirstShown(start: int, n: nat): (r: nat)
    ensures r <= n
  {
    if start <= 0 then 0 else if start >= n then n else start
  }

  /** The kept hits at positions from `start` on. */
  method PageResults(results: seq<ScoredResult>, start: int) returns (out: seq<ScoredResult>)
    ensures out == results[FirstShown(start, |results|)..]
  {
    out := [];
    var i := 0;
    while i < |results|
      invariant 0 <= i <= |results|
      invariant out == results[FirstShown(start, i)..i]
    {
      if i >= start {
        out := out + [results[i]];
      }
      i := i + 1;
    }
  }

  // ---------------------------------------------------------------------------------------
  // The last result for the next page

  /** A kept hit reduced to what the next page needs: its uniqueId, index name, result index,
      timestamp and document are cleared, its score, shard and sort values kept. */
  function Minimal(sr: ScoredResult): (r: ScoredResult)
    ensures r.score == sr.score && r.shard == sr.shard && r.sortValues == sr.sortValues
    ensures r.uniqueId == "" && r.indexName == "" && r.resultIndex == 0 && r.timestamp == 0 && r.document == []
  {
    sr.(uniqueId := "", indexName := "", resultIndex := 0, timestamp := 0, document := [])
  }

  /** The filled slots of an index, reduced, in shard order. */
  function Kept(arr: seq<Option<ScoredResult>>): seq<ScoredResult>
  {
    if |arr| == 0 then []
    else Kept(arr[..|arr| - 1]) + (match arr[|arr| - 1] case Some(v) => [Minimal(v)] case None => [])
  }

  /** One entry per index that kept some hit, in the order of `names`. */
  function NewLast(names: seq<string>, slots: Slots): seq<LastIndexResult>
  {
    if |names| == 0 then []
    else
      var name := names[|names| - 1];
      NewLast(names[..|names| - 1], slots) +
        (if name in slots && |Kept(slots[name])| > 0 then [LastIndexResult(name, Kept(slots[name]))] else [])
  }

  /** Every filled slot holds a hit of the shard it stands for. */
  predicate WellPlaced(slots: Slots)
  {
    forall name, s :: name in slots && 0 <= s < |slots[name]| && slots[name][s].Some? ==> slots[name][s].value.shard == s
  }

  /** Storing hits by their own shard number keeps every slot well placed. */
  lemma StoreWellPlaced(m: Slots, ps: seq<Placed>)
    requires WellPlaced(m) && Store(Success(m), ps).Success?
    ensures WellPlaced(Store(Success(m), ps).value)
  {
    StoreFacts(m, ps);
    var r: Slots := Store(Success(m), ps).value;
    forall name: string, s: int | name in r && 0 <= s < |r[name]| && r[name][s].Some?
      ensures r[name][s].value.shard == s
    {
      LastPlacedShard(ps, name, s, m[name][s]);
    }
  }

  lemma {:induction false} LastPlacedShard(ps: seq<Placed>, name: string, s: int, d: Option<ScoredResult>)
    requires d.Some? ==> d.value.shard == s
    ensures LastPlaced(ps, name, s, d).Some? ==> LastPlaced(ps, name, s, d).value.shard == s
  {
    if |ps| > 0 {
      LastPlacedShard(ps[..|ps| - 1], name, s, d);
    }
  }

  lemma {:induction false} LastPlacedAppend(a: seq<Placed>, b: seq<Placed>, name: string, s: int, d: Option<ScoredResult>)
    ensures LastPlaced(a + b, name, s, d) == LastPlaced(b, name, s, LastPlaced(a, name, s, d))
  {
    if |b| == 0 {
      assert a + b == a;
    } else {
      assert (a + b)[..|a + b| - 1] == a + b[..|b| - 1];
      LastPlacedAppend(a, b[..|b| - 1], name, s, d);
    }
  }

  lemma {:induction false} LastPlacedElsewhere(other: string, xs: seq<ScoredResult>, name: string, s: int, d: Option<ScoredResult>)
    requires other != name
    ensures LastPlaced(Placements(other, xs), name, s, d) == d
  {
    if |xs| > 0 {
      assert Placements(other, xs)[..|xs| - 1] == Placements(other, xs[..|xs| - 1]);
      LastPlacedElsewhere(other, xs[..|xs| - 1], name, s, d);
    }
  }

  lemma PlacementsAppend(name: string, a: seq<ScoredResult>, b: seq<ScoredResult>)
    ensures Placements(name, a + b) == Placements(name, a) + Placements(name, b)
  {
  }

  /** The slot a filled slot's reduced hit goes back to, or `d` for an empty one. */
  function Restored(arr: seq<Option<ScoredResult>>, s: int, d: Option<ScoredResult>): Option<ScoredResult>
  {
    if 0 <= s < |arr| && arr[s].Some? then Some(Minimal(arr[s].value)) else d
  }

  lemma KeptStep(arr: seq<Option<ScoredResult>>)
    requires |arr| > 0
    ensures Kept(arr) == Kept(arr[..|arr| - 1]) + (if arr[|arr| - 1].Some? then [Minimal(arr[|arr| - 1].value)] else [])
  {
  }

  /** Each reduced hit of an index names one of its shards. */
  lemma {:induction false} KeptShards(arr: seq<Option<ScoredResult>>)
    requires forall j :: 0 <= j < |arr| && arr[j].Some? ==> arr[j].value.shard == j
    ensures forall k :: 0 <= k < |Kept(arr)| ==> 0 <= Kept(arr)[k].shard < |arr|
  {
    if |arr| > 0 {
      var init := arr[..|arr| - 1];
      assert forall j :: 0 <= j < |init| ==> init[j] == arr[j];
      KeptShards(init);
      KeptStep(arr);
    }
  }

  lemma LastPlacedSingle(name: string, v: ScoredResult, s: int, prior: Option<ScoredResult>)
    ensures LastPlaced(Placements(name, [v]), name, s, prior) == if v.shard == s then Some(v) else prior
  {
    assert Placements(name, [v]) == [Placed(name, v)];
    assert [Placed(name, v)][..0] == [];
  }

  lemma RestoredStep(arr: seq<Option<ScoredResult>>, s: int, d: Option<ScoredResult>)
    requires |arr| > 0
    ensures Restored(arr, s, d) ==
      if s == |arr| - 1 && arr[|arr| - 1].Some? then Some(Minimal(arr[|arr| - 1].value)) else Restored(arr[..|arr| - 1], s, d)
  {
  }

  /** Placing an index's reduced hits by shard number fills exactly its filled slots. */
  lemma {:induction false} KeptRestores(name: string, arr: seq<Option<ScoredResult>>, s: int, d: Option<ScoredResult>)
    requires forall j :: 0 <= j < |arr| && arr[j].Some? ==> arr[j].value.shard == j
    ensures LastPlaced(Placements(name, Kept(arr)), name, s, d) == Restored(arr, s, d)
  {
    if |arr| > 0 {
      var init := arr[..|arr| - 1];
      assert forall j :: 0 <= j < |init| ==> init[j] == arr[j];
      KeptRestores(name, init, s, d);
      KeptStep(arr);
      RestoredStep(arr, s, d);
      var prior := LastPlaced(Placements(name, Kept(init)), name, s, d);
      if arr[|arr| - 1].Some? {
        var v := Minimal(arr[|arr| - 1].value);
        assert v.shard == |arr| - 1;
        assert Kept(arr) == Kept(init) + [v];
        PlacementsAppend(name, Kept(init), [v]);
        LastPlacedAppend(Placements(name, Kept(init)), Placements(name, [v]), name, s, d);
        LastPlacedSingle(name, v, s, prior);
        assert LastPlaced(Placements(name, Kept(arr)), name, s, d) == LastPlaced(Placements(name, [v]), name, s, prior);
        if v.shard == s {
          assert Restored(arr, s, d) == Some(v);
        } else {
          assert Restored(arr, s, d) == Restored(init, s, d);
        }
      } else {
        assert Kept(arr) == Kept(init);
      }
    }
  }

  lemma {:induction false} KeptEmpty(arr: seq<Option<ScoredResult>>)
    ensures |Kept(arr)| == 0 <==> forall j :: 0 <= j < |arr| ==> arr[j].None?
  {
    if |arr| > 0 {
      var init := arr[..|arr| - 1];
      assert forall j :: 0 <= j < |init| ==> init[j] == arr[j];
      KeptEmpty(init);
      KeptStep(arr);
    }
  }

  lemma {:induction false} LastPlacementsAppend(a: seq<LastIndexResult>, b: seq<LastIndexResult>)
    ensures LastPlacements(a + b) == LastPlacements(a) + LastPlacements(b)
  {
    if |b| == 0 {
      assert a + b == a;
    } else {
      var ab, init, last := a + b, b[..|b| - 1], b[|b| - 1];
      assert ab[..|ab| - 1] == a + init && ab[|ab| - 1] == last;
      LastPlacementsAppend(a, init);
      var p := Placements(last.indexName, last.lastForShard);
      assert LastPlacements(ab) == LastPlacements(a + init) + p;
      assert LastPlacements(b) == LastPlacements(init) + p;
    }
  }

  lemma LastPlacementsSingle(lir: LastIndexResult)
    ensures LastPlacements([lir]) == Placements(lir.indexName, lir.lastForShard)
  {
    assert [lir][..0] == [];
  }

  /** One index's step of the new last result. */
  lemma NewLastStep(names: seq<string>, slots: Slots)
    requires |names| > 0
    ensures var name := names[|names| - 1];
      LastPlacements(NewLast(names, slots)) == LastPlacements(NewLast(names[..|names| - 1], slots)) +
        (if name in slots && |Kept(slots[name])| > 0 then Placements(name, Kept(slots[name])) else [])
  {
    var name := names[|names| - 1];
    var extra := if name in slots && |Kept(slots[name])| > 0 then [LastIndexResult(name, Kept(slots[name]))] else [];
    LastPlacementsAppend(NewLast(names[..|names| - 1], slots), extra);
    if extra != [] {
      LastPlacementsSingle(extra[0]);
    }
  }

  /** Placing the new last result's hits by shard number fills exactly the slots that were
      filled, each with its reduced hit. */
  lemma {:induction false} NewLastRestores(names: seq<string>, slots: Slots, name: string, s: int, d: Option<ScoredResult>)
    requires NoRepeats(names) && WellPlaced(slots)
    ensures LastPlaced(LastPlacements(NewLast(names, slots)), name, s, d) ==
      if name in names && name in slots then Restored(slots[name], s, d) else d
  {
    if |names| > 0 {
      var init := names[..|names| - 1];
      var last := names[|names| - 1];
      assert NoRepeats(init);
      NewLastRestores(init, slots, name, s, d);
      NewLastStep(names, slots);
      var extra := if last in slots && |Kept(slots[last])| > 0 then Placements(last, Kept(slots[last])) else [];
      LastPlacedAppend(LastPlacements(NewLast(init, slots)), extra, name, s, d);
      assert name in names <==> name in init || name == last;
      if name == last {
        assert name !in init;
        if name in slots {
          if |Kept(slots[name])| > 0 {
            KeptRestores(name, slots[name], s, d);
          } else {
            KeptEmpty(slots[name]);
            assert extra == [];
          }
        }
      } else if extra != [] {
        LastPlacedElsewhere(last, Kept(slots[last]), name, s, LastPlaced(LastPlacements(NewLast(init, slots)), name, s, d));
      }
    }
  }

  /** Slots of the same shape, all empty. */
  predicate EmptyLike(blank: Slots, slots: Slots)
  {
    blank.Keys == slots.Keys &&
    forall name :: name in blank ==> |blank[name]| == |slots[name]| && forall s :: 0 <= s < |blank[name]| ==> blank[name][s].None?
  }

  lemma {:induction false} NewLastFits(names: seq<string>, slots: Slots, blank: Slots)
    requires WellPlaced(slots) && EmptyLike(blank, slots)
    ensures forall k :: 0 <= k < |LastPlacements(NewLast(names, slots))| ==> Fits(blank, LastPlacements(NewLast(names, slots))[k])
  {
    if |names| > 0 {
      var init := names[..|names| - 1];
      var last := names[|names| - 1];
      NewLastFits(init, slots, blank);
      NewLastStep(names, slots);
      if last in slots {
        KeptShards(slots[last]);
      }
    }
  }

  /** The round trip of the last result: on the next page, with empty slots of the same shape,
      seeding the slots from the last result sent back succeeds and restores every filled
      slot of an index that answered, reduced, and no other. */
  lemma LastResultRoundTrip(names: seq<string>, slots: Slots, blank: Slots)
    requires NoRepeats(names) && WellPlaced(slots) && EmptyLike(blank, slots)
    ensures Store(Success(blank), LastPlacements(NewLast(names, slots))).Success?
    ensures var r := Store(Success(blank), LastPlacements(NewLast(names, slots))).value;
      r.Keys == blank.Keys &&
      forall name, s :: name in blank && 0 <= s < |blank[name]| ==>
        |r[name]| == |blank[name]| && r[name][s] == if name in names then Restored(slots[name], s, None) else None
  {
    var ps := LastPlacements(NewLast(names, slots));
    NewLastFits(names, slots, blank);
    StoreFacts(blank, ps);
    forall name, s | name in blank && 0 <= s < |blank[name]|
      ensures LastPlaced(ps, name, s, blank[name][s]) == if name in names then Restored(slots[name], s, None) else None
    {
      NewLastRestores(names, slots, name, s, None);
    }
  }

  // ---------------------------------------------------------------------------------------
  // Loops behind the new last result and the seeding of the slots

  /** The loop over one index's shards. */
  method KeptHits(arr: seq<Option<ScoredResult>>) returns (kept: seq<ScoredResult>)
    ensures kept == Kept(arr)
  {
    kept := [];
    var shard := 0;
    while shard < |arr|
      invariant 0 <= shard <= |arr|
      invariant kept == Kept(arr[..shard])
    {
      assert arr[..shard + 1][..shard] == arr[..shard];
      if arr[shard].Some? {
        kept := kept + [Minimal(arr[shard].value)];
      }
      shard := shard + 1;
    }
    assert arr[..shard] == arr;
  }

  /** The loop over the indexes that answered. */
  method BuildLastResult(names: seq<string>, slots: Slots) returns (last: seq<LastIndexResult>)
    ensures last == NewLast(names, slots)
  {
    last := [];
    var i := 0;
    while i < |names|
      invariant 0 <= i <= |names|
      invariant last == NewLast(names[..i], slots)
    {
      assert names[..i + 1][..i] == names[..i];
      var name := names[i];
      if name in slots {
        var kept := KeptHits(slots[name]);
        if |kept| > 0 {
          last := last + [LastIndexResult(name, kept)];
        }
      }
      i := i + 1;
    }
    assert names[..i] == names;
  }

  lemma LastPlacementsSnoc(lirs: seq<LastIndexResult>, k: nat)
    requires k < |lirs|
    ensures LastPlacements(lirs[..k + 1]) == LastPlacements(lirs[..k]) + Placements(lirs[k].indexName, lirs[k].lastForShard)
  {
    assert lirs[..k + 1][..k] == lirs[..k];
  }

  /** The loop over the previous page's last result, storing each index's hits in turn. */
  method SeedSlots(slots: Slots, lirs: seq<LastIndexResult>) returns (r: Outcome<Slots>)
    ensures r == Store(Success(slots), LastPlacements(lirs))
  {
    var m := slots;
    var i := 0;
    while i < |lirs|
      invariant 0 <= i <= |lirs|
      invariant Store(Success(slots), LastPlacements(lirs[..i])) == Success(m)
    {
      LastPlacementsSnoc(lirs, i);
      var ps := Placements(lirs[i].indexName, lirs[i].lastForShard);
      StoreAppend(Success(slots), LastPlacements(lirs[..i]), ps);
      var stored := StoreAll(m, ps);
      if stored.Failure? {
        r := stored;
        SeedRest(slots, lirs, i + 1, r.error);
        return;
      }
      m := stored.value;
      i := i + 1;
    }
    assert lirs[..i] == lirs;
    r := Success(m);
  }

  lemma SeedRest(slots: Slots, lirs: seq<LastIndexResult>, k: nat, e: QueryError)
    requires k <= |lirs| && Store(Success(slots), LastPlacements(lirs[..k])) == Failure(e)
    ensures Store(Success(slots), LastPlacements(lirs)) == Failure(e)
  {
    assert lirs[..k] + lirs[k..] == lirs;
    LastPlacementsAppend(lirs[..k], lirs[k..]);
    StoreAppend(Success(slots), LastPlacements(lirs[..k]), LastPlacements(lirs[k..]));
    StoreFailure(e, LastPlacements(lirs[k..]));
  }

  // ---------------------------------------------------------------------------------------
  // What the comparator may be applied to

  /** Every hit the request and the responses bring carries a sort value per sort field: the
      hits and next hits of the shards and the hits of the previous page's last result. */
  predicate Prepared(request: QueryRequest, responses: seq<InternalQueryResponse>)
  {
    AllCarry(|request.fieldSorts|, responses) &&
    forall i, j :: 0 <= i < |request.lastResult| && 0 <= j < |request.lastResult[i].lastForShard| ==>
      |request.lastResult[i].lastForShard[j].sortValues| >= |request.fieldSorts|
  }

  predicate AllSlotsSortable(ctx: SortContext, sorts: seq<FieldSort>, m: Slots)
  {
    forall name :: name in m ==> SlotsSortable(ctx, sorts, m[name])
  }

  predicate PlacedSortable(ctx: SortContext, sorts: seq<FieldSort>, ps: seq<Placed>)
  {
    forall k :: 0 <= k < |ps| ==> PostSorting.Sortable(ctx, sorts, ps[k].result)
  }

  lemma {:induction false} LastPlacedSortable(ctx: SortContext, sorts: seq<FieldSort>, ps: seq<Placed>, name: string,
                                              s: int, d: Option<ScoredResult>)
    requires PlacedSortable(ctx, sorts, ps) && (d.Some? ==> PostSorting.Sortable(ctx, sorts, d.value))
    ensures LastPlaced(ps, name, s, d).Some? ==> PostSorting.Sortable(ctx, sorts, LastPlaced(ps, name, s, d).value)
  {
    if |ps| > 0 {
      var init := ps[..|ps| - 1];
      assert forall k :: 0 <= k < |init| ==> init[k] == ps[k];
      LastPlacedSortable(ctx, sorts, init, name, s, d);
    }
  }

  /** Storing sortable hits keeps every slot sortable. */
  lemma StoreSortable(ctx: SortContext, sorts: seq<FieldSort>, m: Slots, ps: seq<Placed>)
    requires AllSlotsSortable(ctx, sorts, m) && PlacedSortable(ctx, sorts, ps) && Store(Success(m), ps).Success?
    ensures AllSlotsSortable(ctx, sorts, Store(Success(m), ps).value)
  {
    StoreFacts(m, ps);
    var r: Slots := Store(Success(m), ps).value;
    forall name: string, s: int | name in r && 0 <= s < |r[name]| && r[name][s].Some?
      ensures PostSorting.Sortable(ctx, sorts, r[name][s].value)
    {
      LastPlacedSortable(ctx, sorts, ps, name, s, m[name][s]);
    }
  }

  lemma {:induction false} LastPlacementsSortable(ctx: SortContext, sorts: seq<FieldSort>, lirs: seq<LastIndexResult>)
    requires PostSorting.RewritableFields(ctx, sorts)
    requires forall i, j :: 0 <= i < |lirs| && 0 <= j < |lirs[i].lastForShard| ==> |lirs[i].lastForShard[j].sortValues| >= |sorts|
    ensures PlacedSortable(ctx, sorts, LastPlacements(lirs))
  {
    if |lirs| > 0 {
      var init := lirs[..|lirs| - 1];
      assert forall i :: 0 <= i < |init| ==> init[i] == lirs[i];
      LastPlacementsSortable(ctx, sorts, init);
    }
  }

  lemma {:induction false} MergedSortable(ctx: SortContext, sorts: seq<FieldSort>, srs: seq<ShardQueryResponse>)
    requires PostSorting.RewritableFields(ctx, sorts)
    requires forall k :: 0 <= k < |srs| ==> Carries(|sorts|, srs[k])
    ensures AllSortable(ctx, sorts, Merged(srs))
  {
    if |srs| > 0 {
      var init := srs[..|srs| - 1];
      var last := srs[|srs| - 1];
      assert forall k :: 0 <= k < |init| ==> init[k] == srs[k];
      MergedSortable(ctx, sorts, init);
      assert Carries(|sorts|, last);
      assert Merged(srs) == Merged(init) + last.scoredResults;
    }
  }

  /** The sort types the merge compares with: those settled when sorting, none otherwise. */
  function ContextTypes(naming: Naming, sorts: seq<FieldSort>, indexes: seq<IndexInfo>): Outcome<map<string, FieldType>>
  {
    if |sorts| > 0 then SortTypes(naming, sorts, indexes) else Success(map[])
  }

  lemma ContextRewritable(naming: Naming, scoreField: string, sorts: seq<FieldSort>, indexes: seq<IndexInfo>)
    requires ContextTypes(naming, sorts, indexes).Success?
    ensures PostSorting.RewritableFields(PostSorting.SortContext(naming, scoreField, ContextTypes(naming, sorts, indexes).value), sorts)
  {
    if |sorts| > 0 {
      SortTypesSound(naming, sorts, indexes);
    }
  }

  // ---------------------------------------------------------------------------------------
  // The whole merge

  /** The kept hits: the first `size` of the merged hits in comparator order. */
  function TopHits(ctx: SortContext, sorts: seq<FieldSort>, merged: seq<ScoredResult>, size: int): (r: seq<ScoredResult>)
    requires AllSortable(ctx, sorts, merged) && 0 <= size <= |merged|
    ensures AllSortable(ctx, sorts, r)
  {
    SortHits(ctx, sorts, merged)[..size]
  }

  /** No hit of `top` sorts after any hit of `rest`. */
  predicate NoneBefore(ctx: SortContext, sorts: seq<FieldSort>, top: seq<ScoredResult>, rest: seq<ScoredResult>)
    requires AllSortable(ctx, sorts, top) && AllSortable(ctx, sorts, rest)
  {
    forall i, j :: 0 <= i < |top| && 0 <= j < |rest| ==> PostSorting.Compare(ctx, sorts, top[i], rest[j]) <= 0
  }

  /** A split of the merged hits into the kept ones and the others, none of which sorts
      before a kept one. */
  predicate SplitOf(ctx: SortContext, sorts: seq<FieldSort>, merged: seq<ScoredResult>, top: seq<ScoredResult>,
                    rest: seq<ScoredResult>)
    requires AllSortable(ctx, sorts, top)
  {
    multiset(top) + multiset(rest) == multiset(merged) && AllSortable(ctx, sorts, rest) && NoneBefore(ctx, sorts, top, rest)
  }

  lemma MultisetSplit(s: seq<ScoredResult>, size: nat)
    requires size <= |s|
    ensures multiset(s[..size]) + multiset(s[size..]) == multiset(s)
  {
    assert s == s[..size] + s[size..];
  }

  /** Cutting a sorted list leaves two sorted parts, the first sorting before the second. */
  lemma SortedSplit(ctx: SortContext, sorts: seq<FieldSort>, sorted: seq<ScoredResult>, size: nat)
    requires AllSortable(ctx, sorts, sorted) && SortedBy(ctx, sorts, sorted) && size <= |sorted|
    ensures AllSortable(ctx, sorts, sorted[..size]) && AllSortable(ctx, sorts, sorted[size..])
    ensures SortedBy(ctx, sorts, sorted[..size]) && NoneBefore(ctx, sorts, sorted[..size], sorted[size..])
  {
    var top, rest := sorted[..size], sorted[size..];
    assert forall j :: 0 <= j < |rest| ==> rest[j] == sorted[size + j];
    assert forall i :: 0 <= i < |top| ==> top[i] == sorted[i];
    forall i, j | 0 <= i < |top| && 0 <= j < |rest|
      ensures PostSorting.Compare(ctx, sorts, top[i], rest[j]) <= 0
    {
      assert top[i] == sorted[i] && rest[j] == sorted[size + j];
    }
  }

  /** The kept hits are `size` of the merged hits, in order, and none of the others sorts
      before any of them. */
  lemma TopHitsFacts(ctx: SortContext, sorts: seq<FieldSort>, merged: seq<ScoredResult>, size: int)
    requires AllSortable(ctx, sorts, merged) && 0 <= size <= |merged|
    ensures var top := TopHits(ctx, sorts, merged, size);
      |top| == size && SortedBy(ctx, sorts, top) && exists rest :: SplitOf(ctx, sorts, merged, top, rest)
  {
    var sorted := SortHits(ctx, sorts, merged);
    SortHitsSorted(ctx, sorts, merged);
    var top, rest := sorted[..size], sorted[size..];
    MultisetSplit(sorted, size);
    SortedSplit(ctx, sorts, sorted, size);
    assert TopHits(ctx, sorts, merged, size) == top;
    assert SplitOf(ctx, sorts, merged, top, rest);
  }

  /** The response and what the combiner records beside it: the kept hits, how many were
      asked for, and whether the merge is short. */
  datatype Merge = Merge(response: QueryResponse, results: seq<ScoredResult>, resultsSize: int, isShort: bool)

  /** Facts about a validated registry that the rest of the merge relies on. */
  lemma ValidatedFacts(indexes: seq<IndexInfo>, request: QueryRequest, responses: seq<InternalQueryResponse>)
    requires Prepared(request, responses) && Validated(indexes, responses).Success?
    ensures Coherent(|request.fieldSorts|, Validated(indexes, responses).value)
  {
    EventsConsistent(|request.fieldSorts|, responses);
  }

  /** What the short check needs of the seeded slots and the shard responses: every searched
      index has slots and shard responses, all of them sortable, and shards 0 .. n - 1. */
  predicate Ready(ctx: SortContext, sorts: seq<FieldSort>, indexes: seq<IndexInfo>, seeded: Slots,
                  shards: map<string, map<int, ShardQueryResponse>>)
  {
    AllSlotsSortable(ctx, sorts, seeded) &&
    forall k :: 0 <= k < |indexes| ==> (indexes[k].indexName in seeded && indexes[k].indexName in shards &&
      NextSortable(ctx, sorts, shards[indexes[k].indexName]) &&
      forall s :: 0 <= s < indexes[k].numberOfShards ==> s in shards[indexes[k].indexName])
  }

  lemma ReadyAfter(ctx: SortContext, sorts: seq<FieldSort>, indexes: seq<IndexInfo>, reg: Registry, blank: Slots,
                   seeded: Slots, request: QueryRequest, responses: seq<InternalQueryResponse>)
    requires Prepared(request, responses) && sorts == request.fieldSorts
    requires Validated(indexes, responses) == Success(reg)
    requires PostSorting.RewritableFields(ctx, sorts)
    requires EmptySlots(reg.names, ShardCounts(indexes)) == Success(blank)
    requires Store(Success(blank), LastPlacements(request.lastResult)) == Success(seeded)
    ensures Ready(ctx, sorts, indexes, seeded, reg.shards)
  {
    ValidatedFacts(indexes, request, responses);
    ValidatedShards(indexes, responses);
    EmptySlotsFacts(reg.names, ShardCounts(indexes));
    LastPlacementsSortable(ctx, sorts, request.lastResult);
    StoreSortable(ctx, sorts, blank, LastPlacements(request.lastResult));
    StoreFacts(blank, LastPlacements(request.lastResult));
  }

  /** The kept hits, the slots once they are recorded, and whether the merge is short. */
  datatype Cut = Cut(results: seq<ScoredResult>, slots: Slots, isShort: bool)

  /** Sort and cut the merged hits, record them in the slots, and check for shortness. */
  function CutHits(ctx: SortContext, sorts: seq<FieldSort>, indexes: seq<IndexInfo>, seeded: Slots,
                   shards: map<string, map<int, ShardQueryResponse>>, merged: seq<ScoredResult>, size: int): Outcome<Cut>
    requires AllSortable(ctx, sorts, merged) && 0 <= size <= |merged|
    requires Ready(ctx, sorts, indexes, seeded, shards)
  {
    var results := TopHits(ctx, sorts, merged, size);
    match Store(Success(seeded), ResultPlacements(results))
    case Failure(e) => Failure(e)
    case Success(slots) =>
      StoreSortable(ctx, sorts, seeded, ResultPlacements(results));
      StoreFacts(seeded, ResultPlacements(results));
      Success(Cut(results, slots, ShortMerge(ctx, sorts, |sorts| > 0, indexes, slots, shards)))
  }

  method CutAndCheck(ctx: SortContext, sorts: seq<FieldSort>, indexes: seq<IndexInfo>, seeded: Slots,
                     shards: map<string, map<int, ShardQueryResponse>>, merged: seq<ScoredResult>, size: int)
    returns (r: Outcome<Cut>)
    requires AllSortable(ctx, sorts, merged) && 0 <= size <= |merged|
    requires Ready(ctx, sorts, indexes, seeded, shards)
    ensures r == CutHits(ctx, sorts, indexes, seeded, shards, merged, size)
  {
    var results := TopHits(ctx, sorts, merged, size);
    var stored := StoreAll(seeded, ResultPlacements(results));
    if stored.Failure? {
      return Failure(stored.error);
    }
    var slots := stored.value;
    StoreSortable(ctx, sorts, seeded, ResultPlacements(results));
    StoreFacts(seeded, ResultPlacements(results));
    var isShort := CheckShort(ctx, sorts, |sorts| > 0, indexes, slots, shards);
    return Success(Cut(results, slots, isShort));
  }

  /** The end of getQueryResponse, once the slots are seeded and the sort types settled: with
      no hit there is nothing to sort; otherwise the hits are sorted, cut and recorded, and
      the merge checked for shortness; then the page and the new last result are built. */
  function Finish(ctx: SortContext, sorts: seq<FieldSort>, indexes: seq<IndexInfo>, shards: map<string, map<int, ShardQueryResponse>>,
                  names: seq<string>, seeded: Slots, merged: seq<ScoredResult>, size: int, start: int, totalHits: int,
                  facets: seq<FacetCombining.FacetGroup>): Outcome<Merge>
    requires AllSortable(ctx, sorts, merged) && size <= |merged| && Ready(ctx, sorts, indexes, seeded, shards)
  {
    if |merged| == 0 then
      Success(Merge(QueryResponse(totalHits, [], facets, NewLast(names, seeded)), [], size, false))
    else if size < 0 then Failure(NegativeAmount(size))
    else
      match CutHits(ctx, sorts, indexes, seeded, shards, merged, size)
      case Failure(e) => Failure(e)
      case Success(cut) =>
        Success(Merge(QueryResponse(totalHits, cut.results[FirstShown(start, |cut.results|)..], facets,
                                    NewLast(names, cut.slots)), cut.results, size, cut.isShort))
  }

  method FinishMerge(ctx: SortContext, sorts: seq<FieldSort>, indexes: seq<IndexInfo>, shards: map<string, map<int, ShardQueryResponse>>,
                     names: seq<string>, seeded: Slots, merged: seq<ScoredResult>, size: int, start: int, totalHits: int,
                     facets: seq<FacetCombining.FacetGroup>) returns (r: Outcome<Merge>)
    requires AllSortable(ctx, sorts, merged) && size <= |merged| && Ready(ctx, sorts, indexes, seeded, shards)
    ensures r == Finish(ctx, sorts, indexes, shards, names, seeded, merged, size, start, totalHits, facets)
  {
    var results: seq<ScoredResult> := [];
    var slots := seeded;
    var isShort := false;
    if |merged| > 0 {
      if size < 0 {
        return Failure(NegativeAmount(size));
      }
      var cut := CutAndCheck(ctx, sorts, indexes, seeded, shards, merged, size);
      if cut.Failure? {
        return Failure(cut.error);
      }
      results, slots, isShort := cut.value.results, cut.value.slots, cut.value.isShort;
    }
    var page := PageResults(results, start);
    var last := BuildLastResult(names, slots);
    r := Success(Merge(QueryResponse(totalHits, page, facets, last), results, size, isShort));
  }

  /** getQueryResponse after validate(): add up the totals, seed the slots from the previous
      page, merge the facets, settle the sort types, and finish. */
  function CombineValidated(naming: Naming, scoreField: string, indexes: seq<IndexInfo>, request: QueryRequest,
                            responses: seq<InternalQueryResponse>, reg: Registry): Outcome<Merge>
    requires Prepared(request, responses) && Validated(indexes, responses) == Success(reg)
  {
    match EmptySlots(reg.names, ShardCounts(indexes))
    case Failure(e) => Failure(e)
    case Success(blank) =>
      match Store(Success(blank), LastPlacements(request.lastResult))
      case Failure(e) => Failure(e)
      case Success(seeded) => CombineSeeded(naming, scoreField, indexes, request, responses, reg, blank, seeded)
  }

  /** The steps after the slots are seeded with the last result: merge the facets, settle the
      sort types and keep the top hits. */
  function CombineSeeded(naming: Naming, scoreField: string, indexes: seq<IndexInfo>, request: QueryRequest,
                         responses: seq<InternalQueryResponse>, reg: Registry, blank: Slots, seeded: Slots): Outcome<Merge>
    requires Prepared(request, responses) && Validated(indexes, responses) == Success(reg)
    requires EmptySlots(reg.names, ShardCounts(indexes)) == Success(blank)
    requires Store(Success(blank), LastPlacements(request.lastResult)) == Success(seeded)
  {
    var srs := reg.shardResponses;
    var returnedHits := ReturnedHits(srs);
    var facets := MergedFacets(srs);
    if Wrap32(returnedHits) < 0 then Failure(NegativeCapacity(Wrap32(returnedHits)))
    else
      var sorts := request.fieldSorts;
      match ContextTypes(naming, sorts, indexes)
      case Failure(e) => Failure(e)
      case Success(types) =>
        var ctx := PostSorting.SortContext(naming, scoreField, types);
        SeededFacts(naming, scoreField, indexes, request, responses, reg, blank, seeded);
        Finish(ctx, sorts, indexes, reg.shards, reg.names, seeded, Merged(srs),
               ResultsSize(request.amount, request.start, returnedHits), request.start, TotalHits(srs), facets)
  }

  /** The three ways the seeded merge ends: a negative hit capacity, sort types that do not
      agree, or the end of the merge on the settled sort context. */
  lemma SeededOutcome(naming: Naming, scoreField: string, indexes: seq<IndexInfo>, request: QueryRequest,
                      responses: seq<InternalQueryResponse>, reg: Registry, blank: Slots, seeded: Slots)
    requires Prepared(request, responses) && Validated(indexes, responses) == Success(reg)
    requires EmptySlots(reg.names, ShardCounts(indexes)) == Success(blank)
    requires Store(Success(blank), LastPlacements(request.lastResult)) == Success(seeded)
    ensures var srs := reg.shardResponses; var r := CombineSeeded(naming, scoreField, indexes, request, responses, reg, blank, seeded);
      var types := ContextTypes(naming, request.fieldSorts, indexes);
      && (Wrap32(ReturnedHits(srs)) < 0 ==> r == Failure(NegativeCapacity(Wrap32(ReturnedHits(srs)))))
      && (Wrap32(ReturnedHits(srs)) >= 0 && types.Failure? ==> r == Failure(types.error))
      && (Wrap32(ReturnedHits(srs)) >= 0 && types.Success? ==>
            AllSortable(PostSorting.SortContext(naming, scoreField, types.value), request.fieldSorts, Merged(srs)) &&
            ResultsSize(request.amount, request.start, ReturnedHits(srs)) <= |Merged(srs)| &&
            Ready(PostSorting.SortContext(naming, scoreField, types.value), request.fieldSorts, indexes, seeded, reg.shards) &&
            r == Finish(PostSorting.SortContext(naming, scoreField, types.value), request.fieldSorts, indexes, reg.shards,
                        reg.names, seeded, Merged(srs), ResultsSize(request.amount, request.start, ReturnedHits(srs)),
                        request.start, TotalHits(srs), MergedFacets(srs)))
  {
    if ContextTypes(naming, request.fieldSorts, indexes).Success? {
      SeededFacts(naming, scoreField, indexes, request, responses, reg, blank, seeded);
    }
  }

  /** What keeping the top hits needs once the slots are seeded and the sort types settled. */
  lemma SeededFacts(naming: Naming, scoreField: string, indexes: seq<IndexInfo>, request: QueryRequest,
                    responses: seq<InternalQueryResponse>, reg: Registry, blank: Slots, seeded: Slots)
    requires Prepared(request, responses) && Validated(indexes, responses) == Success(reg)
    requires EmptySlots(reg.names, ShardCounts(indexes)) == Success(blank)
    requires Store(Success(blank), LastPlacements(request.lastResult)) == Success(seeded)
    requires ContextTypes(naming, request.fieldSorts, indexes).Success?
    ensures var ctx := PostSorting.SortContext(naming, scoreField, ContextTypes(naming, request.fieldSorts, indexes).value);
      var srs := reg.shardResponses;
      AllSortable(ctx, request.fieldSorts, Merged(srs)) &&
      ResultsSize(request.amount, request.start, ReturnedHits(srs)) <= |Merged(srs)| &&
      Ready(ctx, request.fieldSorts, indexes, seeded, reg.shards)
  {
    var sorts := request.fieldSorts;
    var srs := reg.shardResponses;
    var ctx := PostSorting.SortContext(naming, scoreField, ContextTypes(naming, sorts, indexes).value);
    ValidatedFacts(indexes, request, responses);
    ContextRewritable(naming, scoreField, sorts, indexes);
    MergedSortable(ctx, sorts, srs);
    MergedFacts(srs);
    ResultsSizeBounds(request.amount, request.start, ReturnedHits(srs));
    ReadyAfter(ctx, sorts, indexes, reg, blank, seeded, request, responses);
  }

  /** getQueryResponse: validate, then merge as `CombineValidated` says. */
  function Combine(naming: Naming, scoreField: string, indexes: seq<IndexInfo>, request: QueryRequest,
                   responses: seq<InternalQueryResponse>): Outcome<Merge>
    requires Prepared(request, responses)
  {
    match Validated(indexes, responses)
    case Failure(e) => Failure(e)
    case Success(reg) => CombineValidated(naming, scoreField, indexes, request, responses, reg)
  }

  /** When the end of the merge succeeds, the kept hits are the first `size` of the merged
      hits in comparator order (none when there is no hit), and the page is taken from them. */
  lemma FinishResults(ctx: SortContext, sorts: seq<FieldSort>, indexes: seq<IndexInfo>, shards: map<string, map<int, ShardQueryResponse>>,
                      names: seq<string>, seeded: Slots, merged: seq<ScoredResult>, size: int, start: int, totalHits: int,
                      facets: seq<FacetCombining.FacetGroup>)
    requires AllSortable(ctx, sorts, merged) && size <= |merged| && Ready(ctx, sorts, indexes, seeded, shards)
    requires Finish(ctx, sorts, indexes, shards, names, seeded, merged, size, start, totalHits, facets).Success?
    ensures var m := Finish(ctx, sorts, indexes, shards, names, seeded, merged, size, start, totalHits, facets).value;
      m.response.totalHits == totalHits && m.response.facetGroups == facets && m.resultsSize == size &&
      |m.results| == (if |merged| == 0 then 0 else size) &&
      m.response.results == m.results[FirstShown(start, |m.results|)..] &&
      AllSortable(ctx, sorts, m.results) && SortedBy(ctx, sorts, m.results) &&
      exists rest :: SplitOf(ctx, sorts, merged, m.results, rest)
  {
    if |merged| == 0 {
      assert SplitOf(ctx, sorts, merged, [], []);
    } else {
      TopHitsFacts(ctx, sorts, merged, size);
    }
  }

  /** When the merge succeeds, the kept hits are sorted, they are the first of the merged hits
      in comparator order (as many as asked for, or none when no shard returned a hit), and
      the page is the kept hits from `start` on. */
  lemma CombineResults(naming: Naming, scoreField: string, indexes: seq<IndexInfo>, request: QueryRequest,
                       responses: seq<InternalQueryResponse>)
    requires Prepared(request, responses) && Combine(naming, scoreField, indexes, request, responses).Success?
    ensures Validated(indexes, responses).Success? && ContextTypes(naming, request.fieldSorts, indexes).Success?
    ensures var m := Combine(naming, scoreField, indexes, request, responses).value;
      var srs := Validated(indexes, responses).value.shardResponses;
      var ctx := PostSorting.SortContext(naming, scoreField, ContextTypes(naming, request.fieldSorts, indexes).value);
      m.response.totalHits == TotalHits(srs) && m.response.facetGroups == MergedFacets(srs) &&
      m.resultsSize <= ReturnedHits(srs) &&
      |m.results| == (if ReturnedHits(srs) == 0 then 0 else m.resultsSize) &&
      m.response.results == m.results[FirstShown(request.start, |m.results|)..] &&
      AllSortable(ctx, request.fieldSorts, m.results) && SortedBy(ctx, request.fieldSorts, m.results) &&
      exists rest :: SplitOf(ctx, request.fieldSorts, Merged(srs), m.results, rest)
  {
    var reg := Validated(indexes, responses).value;
    var blank := EmptySlots(reg.names, ShardCounts(indexes)).value;
    var seeded := Store(Success(blank), LastPlacements(request.lastResult)).value;
    var srs := reg.shardResponses;
    var sorts := request.fieldSorts;
    var ctx := PostSorting.SortContext(naming, scoreField, ContextTypes(naming, sorts, indexes).value);
    var size := ResultsSize(request.amount, request.start, ReturnedHits(srs));
    assert Combine(naming, scoreField, indexes, request, responses)
      == CombineSeeded(naming, scoreField, indexes, request, responses, reg, blank, seeded);
    SeededFacts(naming, scoreField, indexes, request, responses, reg, blank, seeded);
    assert CombineSeeded(naming, scoreField, indexes, request, responses, reg, blank, seeded)
      == Finish(ctx, sorts, indexes, reg.shards, reg.names, seeded, Merged(srs), size, request.start, TotalHits(srs), MergedFacets(srs));
    FinishResults(ctx, sorts, indexes, reg.shards, reg.names, seeded, Merged(srs), size, request.start, TotalHits(srs), MergedFacets(srs));
    MergedLength(srs);
    ResultsSizeBounds(request.amount, request.start, ReturnedHits(srs));
  }

  /** The last result sent back fits the next page: when the same indexes answer again,
      seeding their fresh slots with it succeeds. */
  lemma CombineLastResultFits(naming: Naming, scoreField: string, indexes: seq<IndexInfo>, request: QueryRequest,
                              responses: seq<InternalQueryResponse>)
    requires Prepared(request, responses) && Combine(naming, scoreField, indexes, request, responses).Success?
    ensures Validated(indexes, responses).Success?
    ensures EmptySlots(Validated(indexes, responses).value.names, ShardCounts(indexes)).Success?
    ensures var blank := EmptySlots(Validated(indexes, responses).value.names, ShardCounts(indexes)).value;
      var lirs := Combine(naming, scoreField, indexes, request, responses).value.response.lastResult;
      Store(Success(blank), LastPlacements(lirs)).Success?
  {
    var reg := Validated(indexes, responses).value;
    var blank := EmptySlots(reg.names, ShardCounts(indexes)).value;
    ValidatedFacts(indexes, request, responses);
    EmptySlotsFacts(reg.names, ShardCounts(indexes));
    assert NoRepeats(reg.names);
    var seeded := Store(Success(blank), LastPlacements(request.lastResult)).value;
    StoreFacts(blank, LastPlacements(request.lastResult));
    StoreWellPlaced(blank, LastPlacements(request.lastResult));
    var slots := seeded;
    if |Merged(reg.shardResponses)| > 0 {
      var ctx := PostSorting.SortContext(naming, scoreField, ContextTypes(naming, request.fieldSorts, indexes).value);
      ContextRewritable(naming, scoreField, request.fieldSorts, indexes);
      MergedSortable(ctx, request.fieldSorts, reg.shardResponses);
      MergedFacts(reg.shardResponses);
      ResultsSizeBounds(request.amount, request.start, ReturnedHits(reg.shardResponses));
      var size := ResultsSize(request.amount, request.start, ReturnedHits(reg.shardResponses));
      var ps := ResultPlacements(TopHits(ctx, request.fieldSorts, Merged(reg.shardResponses), size));
      slots := Store(Success(seeded), ps).value;
      StoreFacts(seeded, ps);
      StoreWellPlaced(seeded, ps);
    }
    assert EmptyLike(blank, slots);
    LastResultRoundTrip(reg.names, slots, blank);
  }

  // ---------------------------------------------------------------------------------------
  // The combiner

  /** A combiner for one query: the searched indexes, the request and the responses of the
      nodes. validate() fills the map of shard responses; getQueryResponse() merges. */
  class QueryCombiner {
    const naming: Naming
    const scoreField: string
    const indexes: seq<IndexInfo>
    const request: QueryRequest
    const responses: seq<InternalQueryResponse>
    const indexToShardCount: map<string, nat>
    const amount: int
    var indexToShardQueryResponseMap: map<string, map<int, ShardQueryResponse>>
    /** The keys of indexToShardQueryResponseMap, in the order the map yields them. */
    var indexNames: seq<string>
    var shardResponses: seq<ShardQueryResponse>
    var isShort: bool
    var results: seq<ScoredResult>
    var resultsSize: int

    /** The constants the combiner derives from its arguments. */
    predicate Valid()
    {
      indexToShardCount == ShardCounts(indexes) && amount == Wrap32(request.amount + request.start)
    }

    /** Nothing merged yet. */
    predicate Unused()
      reads this
    {
      indexToShardQueryResponseMap == map[] && indexNames == [] && shardResponses == [] && !isShort
    }

    constructor (naming: Naming, scoreField: string, indexes: seq<IndexInfo>, request: QueryRequest,
                 responses: seq<InternalQueryResponse>)
      ensures this.naming == naming && this.scoreField == scoreField && this.indexes == indexes
      ensures this.request == request && this.responses == responses
      ensures Valid() && Unused() && results == [] && resultsSize == 0
    {
      var counts: map<string, nat> := map[];
      var k := 0;
      while k < |indexes|
        invariant 0 <= k <= |indexes|
        invariant counts == ShardCounts(indexes[..k])
      {
        assert indexes[..k + 1][..k] == indexes[..k];
        counts := counts[indexes[k].indexName := indexes[k].numberOfShards];
        k := k + 1;
      }
      assert indexes[..k] == indexes;
      this.naming := naming;
      this.scoreField := scoreField;
      this.indexes := indexes;
      this.request := request;
      this.responses := responses;
      indexToShardCount := counts;
      amount := Wrap32(request.amount + request.start);
      indexToShardQueryResponseMap := map[];
      indexNames := [];
      shardResponses := [];
      isShort := false;
      results := [];
      resultsSize := 0;
    }

    /** validate(): records every shard response and checks the searched indexes. */
    method Validate() returns (err: Option<QueryError>)
      modifies this
      ensures var v := Validated(indexes, responses);
        (err.None? <==> v.Success?) && (err.Some? ==> err.value == v.error) &&
        (v.Success? ==> (indexToShardQueryResponseMap == v.value.shards && indexNames == v.value.names &&
          shardResponses == v.value.shardResponses))
      ensures isShort == old(isShort) && results == old(results) && resultsSize == old(resultsSize)
    {
      var v := QueryValidation.Validate(indexes, responses);
      if v.Failure? {
        return Some(v.error);
      }
      indexToShardQueryResponseMap := v.value.shards;
      indexNames := v.value.names;
      shardResponses := v.value.shardResponses;
      return None;
    }

    /** getQueryResponse(): the merge `Combine` describes, step by step. */
    method GetQueryResponse() returns (r: Outcome<QueryResponse>)
      requires Valid() && Unused() && Prepared(request, responses)
      modifies this
      ensures var c := Combine(naming, scoreField, indexes, request, responses);
        (r.Success? <==> c.Success?) && (r.Failure? ==> r.error == c.error) &&
        (r.Success? ==> (r.value == c.value.response && results == c.value.results &&
          resultsSize == c.value.resultsSize && isShort == c.value.isShort))
    {
      var err := Validate();
      if err.Some? {
        return Failure(err.value);
      }
      ghost var reg := Validated(indexes, responses).value;
      var merge := MergeValidated(reg);
      if merge.Failure? {
        return Failure(merge.error);
      }
      results, resultsSize, isShort := merge.value.results, merge.value.resultsSize, merge.value.isShort;
      r := Success(merge.value.response);
    }

    /** The steps after validate(), over the recorded shard responses. */
    method MergeValidated(ghost reg: Registry) returns (r: Outcome<Merge>)
      requires Valid() && Prepared(request, responses) && Validated(indexes, responses) == Success(reg)
      requires indexToShardQueryResponseMap == reg.shards && indexNames == reg.names && shardResponses == reg.shardResponses
      ensures r == CombineValidated(naming, scoreField, indexes, request, responses, reg)
    {
      var blank := MakeSlots(indexNames, indexToShardCount);
      if blank.Failure? {
        return Failure(blank.error);
      }
      var seeded := SeedSlots(blank.value, request.lastResult);
      if seeded.Failure? {
        return Failure(seeded.error);
      }
      r := MergeSeeded(reg, blank.value, seeded.value);
    }

    /** The steps after the slots are seeded. */
    method MergeSeeded(ghost reg: Registry, ghost blank: Slots, seeded: Slots) returns (r: Outcome<Merge>)
      requires Valid() && Prepared(request, responses) && Validated(indexes, responses) == Success(reg)
      requires indexToShardQueryResponseMap == reg.shards && indexNames == reg.names && shardResponses == reg.shardResponses
      requires EmptySlots(reg.names, ShardCounts(indexes)) == Success(blank)
      requires Store(Success(blank), LastPlacements(request.lastResult)) == Success(seeded)
      ensures r == CombineSeeded(naming, scoreField, indexes, request, responses, reg, blank, seeded)
    {
      var srs, shards, names := shardResponses, indexToShardQueryResponseMap, indexNames;
      var totalHits, returnedHits := SumHits(srs);
      var size := FacetCombining.Min(amount, Wrap32(returnedHits));
      var facets := MergeFacets(srs);
      if Wrap32(returnedHits) < 0 {
        assert CombineSeeded(naming, scoreField, indexes, request, responses, reg, blank, seeded)
          == Failure(NegativeCapacity(Wrap32(returnedHits)));
        return Failure(NegativeCapacity(Wrap32(returnedHits)));
      }
      assert amount == Wrap32(request.amount + request.start);
      assert size == ResultsSize(request.amount, request.start, ReturnedHits(srs));
      assert srs == reg.shardResponses && shards == reg.shards && names == reg.names;
      r := SortAndFinish(reg, blank, seeded, srs, shards, names, totalHits, size, facets);
    }

    /** Merging the hits, settling the sort types and finishing, once the hit capacity is
        known not to be negative. */
    method SortAndFinish(ghost reg: Registry, ghost blank: Slots, seeded: Slots, srs: seq<ShardQueryResponse>,
                         shards: map<string, map<int, ShardQueryResponse>>, names: seq<string>,
                         totalHits: int, size: int, facets: seq<FacetCombining.FacetGroup>) returns (r: Outcome<Merge>)
      requires Prepared(request, responses) && Validated(indexes, responses) == Success(reg)
      requires EmptySlots(reg.names, ShardCounts(indexes)) == Success(blank)
      requires Store(Success(blank), LastPlacements(request.lastResult)) == Success(seeded)
      requires srs == reg.shardResponses && shards == reg.shards && names == reg.names
      requires Wrap32(ReturnedHits(srs)) >= 0 && totalHits == TotalHits(srs) && facets == MergedFacets(srs)
      requires size == ResultsSize(request.amount, request.start, ReturnedHits(srs))
      ensures r == CombineSeeded(naming, scoreField, indexes, request, responses, reg, blank, seeded)
    {
      var sorts := request.fieldSorts;
      SeededOutcome(naming, scoreField, indexes, request, responses, reg, blank, seeded);
      var merged := MergeResults(srs);
      var types: map<string, FieldType> := map[];
      if |sorts| > 0 {
        var settled := SettleSortTypes(naming, sorts, indexes);
        if settled.Failure? {
          return Failure(settled.error);
        }
        types := settled.value;
      }
      assert ContextTypes(naming, sorts, indexes) == Success(types);
      var ctx := PostSorting.SortContext(naming, scoreField, types);
      r := FinishMerge(ctx, sorts, indexes, shards, names, seeded, merged, size, request.start, totalHits, facets);
    }
  }
}
