/** The messages a distributed query merges, and the first step of the merge (QueryCombiner's
    validate): every shard response of every index is registered under its index and shard
    number, a shard that answers twice is an error, and every searched index must then have
    answered from exactly its shards 0 .. numberOfShards - 1. */
module QueryValidation {
  import opened Wrappers
  import opened FieldTypes
  import PostSorting
  import FacetCombining

  type ScoredResult = PostSorting.ScoredResult
  type FieldSort = PostSorting.FieldSort

  // ---------------------------------------------------------------------------------------
  // Messages

  /** What the combiner knows of a searched index. `sortFieldTypes` holds the sort type of
      each sort field the index defines. */
  datatype IndexInfo = IndexInfo(
    indexName: string, numberOfShards: nat, shardTolerance: real, sortFieldTypes: map<string, FieldType>)

  /** One shard's answer: its hits (best first), the hit it would return next, if any, and
      its facet groups. */
  datatype ShardQueryResponse = ShardQueryResponse(
    shardNumber: int, totalHits: int, scoredResults: seq<ScoredResult>, next: Option<ScoredResult>,
    facetGroups: seq<FacetCombining.FacetGroup>)

  datatype IndexShardResponse = IndexShardResponse(indexName: string, shardQueryResponses: seq<ShardQueryResponse>)

  /** The answer of one node: the responses of the shards it holds, index by index. */
  datatype InternalQueryResponse = InternalQueryResponse(indexShardResponses: seq<IndexShardResponse>)

  /** The last hit returned from each shard of an index, sent back with the next page's request. */
  datatype LastIndexResult = LastIndexResult(indexName: string, lastForShard: seq<ScoredResult>)

  datatype QueryRequest = QueryRequest(amount: int, start: int, lastResult: seq<LastIndexResult>, fieldSorts: seq<FieldSort>)

  datatype QueryResponse = QueryResponse(
    totalHits: int, results: seq<ScoredResult>, facetGroups: seq<FacetCombining.FacetGroup>,
    lastResult: seq<LastIndexResult>)

  /** The exceptions the merge throws. */
  datatype QueryError =
    | RepeatedShard(shardNumber: int, indexName: string)
    | MissingIndex(indexName: string)
    | WrongShardCount(found: int, expected: int)
    | MissingShard(shardNumber: int)
    | SortTypeConflict(sortField: string)
    | BadLengthField(sortField: string)
    | UnknownIndex(indexName: string)
    | ShardOutOfRange(indexName: string, shard: int)
    | NegativeAmount(amount: int)
    | NegativeCapacity(capacity: int)

  datatype Outcome<T> = Success(value: T) | Failure(error: QueryError)

  // ---------------------------------------------------------------------------------------
  // Checking the responses (validate)

  /** The responses in the order validate visits them: an index name, then each of its
      shards' responses. */
  datatype Event = IndexSeen(name: string) | ShardSeen(name: string, response: ShardQueryResponse)

  function ShardEvents(name: string, srs: seq<ShardQueryResponse>): (r: seq<Event>)
    ensures |r| == |srs|
  {
    if |srs| == 0 then [] else ShardEvents(name, srs[..|srs| - 1]) + [ShardSeen(name, srs[|srs| - 1])]
  }

  function IndexEvents(isrs: seq<IndexShardResponse>): seq<Event>
  {
    if |isrs| == 0 then []
    else
      var isr := isrs[|isrs| - 1];
      IndexEvents(isrs[..|isrs| - 1]) + [IndexSeen(isr.indexName)] + ShardEvents(isr.indexName, isr.shardQueryResponses)
  }

  function Events(responses: seq<InternalQueryResponse>): seq<Event>
  {
    if |responses| == 0 then []
    else Events(responses[..|responses| - 1]) + IndexEvents(responses[|responses| - 1].indexShardResponses)
  }

  /** The shard responses received so far, per index and shard number; `names` lists the
      indexes in the order they were first seen, `shardResponses` every shard response in
      order. */
  datatype Registry = Registry(
    shards: map<string, map<int, ShardQueryResponse>>, names: seq<string>, shardResponses: seq<ShardQueryResponse>)

  const EMPTY_REGISTRY: Registry := Registry(map[], [], [])

  function ShardsFor(reg: Registry, name: string): map<int, ShardQueryResponse>
  {
    if name in reg.shards then reg.shards[name] else map[]
  }

  /** One step of validate's first loop. */
  function Register(r: Outcome<Registry>, e: Event): Outcome<Registry>
  {
    match r
    case Failure(_) => r
    case Success(reg) =>
      match e
      case IndexSeen(name) =>
        if name in reg.shards then r
        else Success(reg.(shards := reg.shards[name := map[]], names := reg.names + [name]))
      case ShardSeen(name, sr) =>
        var m := ShardsFor(reg, name);
        if sr.shardNumber in m then Failure(RepeatedShard(sr.shardNumber, name))
        else Success(reg.(shards := reg.shards[name := m[sr.shardNumber := sr]], shardResponses := reg.shardResponses + [sr]))
  }

  function RegisterAll(r: Outcome<Registry>, es: seq<Event>): Outcome<Registry>
  {
    if |es| == 0 then r else Register(RegisterAll(r, es[..|es| - 1]), es[|es| - 1])
  }

  lemma {:induction false} RegisterAllAppend(r: Outcome<Registry>, a: seq<Event>, b: seq<Event>)
    ensures RegisterAll(r, a + b) == RegisterAll(RegisterAll(r, a), b)
  {
    if |b| > 0 {
      assert (a + b)[..|a + b| - 1] == a + b[..|b| - 1];
      RegisterAllAppend(r, a, b[..|b| - 1]);
    } else {
      assert a + b == a;
    }
  }

  /** Two responses for the same shard of the same index. */
  predicate Repeats(es: seq<Event>)
  {
    exists a, b :: 0 <= a < b < |es| && es[a].ShardSeen? && es[b].ShardSeen? && es[a].name == es[b].name
      && es[a].response.shardNumber == es[b].response.shardNumber
  }

  predicate Named(es: seq<Event>, name: string)
  {
    exists k :: 0 <= k < |es| && es[k].name == name
  }

  /** The shard numbers received for an index. */
  function ShardNumbers(es: seq<Event>, name: string): set<int>
  {
    set k | 0 <= k < |es| && es[k].ShardSeen? && es[k].name == name :: es[k].response.shardNumber
  }

  lemma ShardNumbersStep(es: seq<Event>, name: string)
    requires |es| > 0
    ensures var e := es[|es| - 1];
      ShardNumbers(es, name) ==
        ShardNumbers(es[..|es| - 1], name) + (if e.ShardSeen? && e.name == name then {e.response.shardNumber} else {})
  {
    var init := es[..|es| - 1];
    assert forall k :: 0 <= k < |init| ==> init[k] == es[k];
  }

  lemma RepeatsStep(es: seq<Event>)
    requires |es| > 0
    ensures var e := es[|es| - 1];
      Repeats(es) <==>
        Repeats(es[..|es| - 1]) || (e.ShardSeen? && e.response.shardNumber in ShardNumbers(es[..|es| - 1], e.name))
  {
    var init := es[..|es| - 1];
    var e := es[|es| - 1];
    assert forall k :: 0 <= k < |init| ==> init[k] == es[k];
    if Repeats(es) && !Repeats(init) {
      var a, b :| 0 <= a < b < |es| && es[a].ShardSeen? && es[b].ShardSeen? && es[a].name == es[b].name
        && es[a].response.shardNumber == es[b].response.shardNumber;
      if b == |init| {
        assert es[a].response.shardNumber in ShardNumbers(init, e.name);
      }
    }
    if Repeats(init) {
      var a, b :| 0 <= a < b < |init| && init[a].ShardSeen? && init[b].ShardSeen? && init[a].name == init[b].name
        && init[a].response.shardNumber == init[b].response.shardNumber;
      assert es[a] == init[a] && es[b] == init[b];
    } else if e.ShardSeen? && e.response.shardNumber in ShardNumbers(init, e.name) {
      var a :| 0 <= a < |init| && init[a].ShardSeen? && init[a].name == e.name
        && init[a].response.shardNumber == e.response.shardNumber;
      assert es[a] == init[a];
    }
  }

  lemma NamedStep(es: seq<Event>, name: string)
    requires |es| > 0
    ensures Named(es, name) <==> Named(es[..|es| - 1], name) || es[|es| - 1].name == name
  {
    var init := es[..|es| - 1];
    assert forall k :: 0 <= k < |init| ==> init[k] == es[k];
    if Named(es, name) && es[|es| - 1].name != name {
      var k :| 0 <= k < |es| && es[k].name == name;
      assert init[k].name == name;
    }
  }

  /** What a registry built from `es` holds: the indexes named in `es`, each with exactly
      the shard numbers received for it. */
  ghost predicate Records(reg: Registry, es: seq<Event>)
  {
    forall name :: (name in reg.shards <==> Named(es, name)) && ShardsFor(reg, name).Keys == ShardNumbers(es, name)
  }

  lemma RecordsStep(reg: Registry, es: seq<Event>)
    requires |es| > 0 && Records(reg, es[..|es| - 1])
    requires Register(Success(reg), es[|es| - 1]).Success?
    ensures Records(Register(Success(reg), es[|es| - 1]).value, es)
  {
    var e := es[|es| - 1];
    var reg' := Register(Success(reg), e).value;
    forall name
      ensures (name in reg'.shards <==> Named(es, name)) && ShardsFor(reg', name).Keys == ShardNumbers(es, name)
    {
      NamedStep(es, name);
      ShardNumbersStep(es, name);
    }
  }

  /** The first loop of validate fails exactly when some shard of some index answered twice;
      otherwise it records, for every index it saw, exactly the shard numbers it received. */
  lemma {:induction false} RegisterAllFacts(es: seq<Event>)
    ensures RegisterAll(Success(EMPTY_REGISTRY), es).Success? <==> !Repeats(es)
    ensures RegisterAll(Success(EMPTY_REGISTRY), es).Success? ==> Records(RegisterAll(Success(EMPTY_REGISTRY), es).value, es)
  {
    if |es| > 0 {
      var init := es[..|es| - 1];
      var e := es[|es| - 1];
      RegisterAllFacts(init);
      RepeatsStep(es);
      var prev := RegisterAll(Success(EMPTY_REGISTRY), init);
      if prev.Success? {
        var reg := prev.value;
        assert e.ShardSeen? ==> ShardsFor(reg, e.name).Keys == ShardNumbers(init, e.name);
        if Register(prev, e).Success? {
          RecordsStep(reg, es);
        }
      }
    }
  }

  lemma {:induction false} RegisterAllFailure(err: QueryError, es: seq<Event>)
    ensures RegisterAll(Failure(err), es) == Failure(err)
  {
    if |es| > 0 {
      RegisterAllFailure(err, es[..|es| - 1]);
    }
  }

  lemma RegisterAllSnoc(r: Outcome<Registry>, es: seq<Event>, e: Event)
    ensures RegisterAll(r, es + [e]) == Register(RegisterAll(r, es), e)
  {
    assert (es + [e])[..|es|] == es;
  }

  // Checking the indexes

  /** The smallest shard number in k .. n - 1 that did not answer. */
  function FirstMissing(keys: set<int>, k: nat, n: nat): (r: Option<int>)
    decreases n - k
  {
    if k >= n then None
    else if k !in keys then Some(k)
    else FirstMissing(keys, k + 1, n)
  }

  lemma {:induction false} FirstMissingFacts(keys: set<int>, k: nat, n: nat)
    ensures FirstMissing(keys, k, n).None? <==> forall j :: k <= j < n ==> j in keys
    ensures FirstMissing(keys, k, n).Some? ==>
      var j := FirstMissing(keys, k, n).value;
      k <= j < n && j !in keys && forall i :: k <= i < j ==> i in keys
    decreases n - k
  {
    if k < n && k in keys {
      FirstMissingFacts(keys, k + 1, n);
    }
  }

  /** The checks of one searched index, in the order they are made. */
  function CheckIndex(reg: Registry, idx: IndexInfo): Option<QueryError>
  {
    if idx.indexName !in reg.shards then Some(MissingIndex(idx.indexName))
    else
      var m := reg.shards[idx.indexName];
      if |m| != idx.numberOfShards then Some(WrongShardCount(|m|, idx.numberOfShards))
      else
        match FirstMissing(m.Keys, 0, idx.numberOfShards)
        case Some(k) => Some(MissingShard(k))
        case None => None
  }

  function CheckIndexes(reg: Registry, indexes: seq<IndexInfo>): Option<QueryError>
  {
    if |indexes| == 0 then None
    else
      var e := CheckIndex(reg, indexes[0]);
      if e.Some? then e else CheckIndexes(reg, indexes[1..])
  }

  /** A set of n shard numbers that holds all of 0 .. n - 1 holds nothing else. */
  lemma FullShardSet(keys: set<int>, n: nat)
    requires |keys| == n && forall j :: 0 <= j < n ==> j in keys
    ensures keys == FacetCombining.Upto(n)
  {
    var all := FacetCombining.Upto(n);
    if x :| x in keys && x !in all {
      FacetCombining.SubsetSize(all, keys - {x});
    }
  }

  /** An index passes exactly when it answered from exactly its shards 0 .. numberOfShards - 1. */
  lemma CheckIndexPasses(reg: Registry, idx: IndexInfo)
    ensures CheckIndex(reg, idx).None? <==>
      idx.indexName in reg.shards && reg.shards[idx.indexName].Keys == FacetCombining.Upto(idx.numberOfShards)
  {
    if idx.indexName in reg.shards {
      var m := reg.shards[idx.indexName];
      var n := idx.numberOfShards;
      FirstMissingFacts(m.Keys, 0, n);
      assert |m.Keys| == |m|;
      if |m| == n && FirstMissing(m.Keys, 0, n).None? {
        FullShardSet(m.Keys, n);
      }
    }
  }

  lemma {:induction false} CheckIndexesPass(reg: Registry, indexes: seq<IndexInfo>)
    ensures CheckIndexes(reg, indexes).None? <==> forall k :: 0 <= k < |indexes| ==> CheckIndex(reg, indexes[k]).None?
  {
    if |indexes| > 0 {
      CheckIndexesPass(reg, indexes[1..]);
      assert forall k :: 1 <= k < |indexes| ==> indexes[k] == indexes[1..][k - 1];
    }
  }

  /** validate: the registry of all shard responses, or the first error met. */
  function Validated(indexes: seq<IndexInfo>, responses: seq<InternalQueryResponse>): Outcome<Registry>
  {
    var r := RegisterAll(Success(EMPTY_REGISTRY), Events(responses));
    if r.Failure? then r
    else
      match CheckIndexes(r.value, indexes)
      case Some(e) => Failure(e)
      case None => r
  }

  /** The responses pass validation exactly when no shard of any index answered twice and
      every searched index answered from exactly its shards 0 .. numberOfShards - 1. */
  lemma ValidatedIff(indexes: seq<IndexInfo>, responses: seq<InternalQueryResponse>)
    ensures Validated(indexes, responses).Success? <==>
      var es := Events(responses);
      !Repeats(es) && forall k :: 0 <= k < |indexes| ==>
        Named(es, indexes[k].indexName) && ShardNumbers(es, indexes[k].indexName) == FacetCombining.Upto(indexes[k].numberOfShards)
    ensures Validated(indexes, responses).Success? ==> Records(Validated(indexes, responses).value, Events(responses))
  {
    var es := Events(responses);
    RegisterAllFacts(es);
    var r := RegisterAll(Success(EMPTY_REGISTRY), es);
    if r.Success? {
      CheckIndexesPass(r.value, indexes);
      forall k | 0 <= k < |indexes|
        ensures CheckIndex(r.value, indexes[k]).None? <==>
          Named(es, indexes[k].indexName) && ShardNumbers(es, indexes[k].indexName) == FacetCombining.Upto(indexes[k].numberOfShards)
      {
        CheckIndexPasses(r.value, indexes[k]);
      }
    }
  }

  // The loops of validate

  lemma {:induction false} ShardEventsAppend(name: string, a: seq<ShardQueryResponse>, b: seq<ShardQueryResponse>)
    ensures ShardEvents(name, a + b) == ShardEvents(name, a) + ShardEvents(name, b)
  {
    if |b| == 0 {
      assert a + b == a;
    } else {
      assert (a + b)[..|a + b| - 1] == a + b[..|b| - 1];
      ShardEventsAppend(name, a, b[..|b| - 1]);
    }
  }

  lemma FailureIsFinal(r: Outcome<Registry>, name: string, srs: seq<ShardQueryResponse>, k: nat)
    requires k <= |srs| && RegisterAll(r, ShardEvents(name, srs[..k])).Failure?
    ensures RegisterAll(r, ShardEvents(name, srs)) == RegisterAll(r, ShardEvents(name, srs[..k]))
  {
    ShardEventsAppend(name, srs[..k], srs[k..]);
    assert srs[..k] + srs[k..] == srs;
    RegisterAllAppend(r, ShardEvents(name, srs[..k]), ShardEvents(name, srs[k..]));
    RegisterAllFailure(RegisterAll(r, ShardEvents(name, srs[..k])).error, ShardEvents(name, srs[k..]));
  }

  lemma ShardStep(r: Outcome<Registry>, name: string, srs: seq<ShardQueryResponse>, k: nat)
    requires k < |srs|
    ensures RegisterAll(r, ShardEvents(name, srs[..k + 1])) == Register(RegisterAll(r, ShardEvents(name, srs[..k])), ShardSeen(name, srs[k]))
  {
    assert srs[..k + 1][..k] == srs[..k];
    RegisterAllSnoc(r, ShardEvents(name, srs[..k]), ShardSeen(name, srs[k]));
  }

  method RegisterShards(r: Outcome<Registry>, name: string, srs: seq<ShardQueryResponse>) returns (out: Outcome<Registry>)
    ensures out == RegisterAll(r, ShardEvents(name, srs))
  {
    out := r;
    var k := 0;
    while k < |srs|
      invariant 0 <= k <= |srs|
      invariant out == RegisterAll(r, ShardEvents(name, srs[..k]))
    {
      if out.Failure? {
        FailureIsFinal(r, name, srs, k);
        return;
      }
      var sr := srs[k];
      var reg := out.value;
      var m := ShardsFor(reg, name);
      ShardStep(r, name, srs, k);
      if sr.shardNumber in m {
        out := Failure(RepeatedShard(sr.shardNumber, name));
      } else {
        out := Success(reg.(shards := reg.shards[name := m[sr.shardNumber := sr]], shardResponses := reg.shardResponses + [sr]));
      }
      k := k + 1;
    }
    assert srs[..k] == srs;
  }

  /** Once a failure is met, the rest of the events change nothing. */
  lemma FailureIsFinalFor(r: Outcome<Registry>, a: seq<Event>, b: seq<Event>)
    requires a <= b && RegisterAll(r, a).Failure?
    ensures RegisterAll(r, b) == RegisterAll(r, a)
  {
    assert a + b[|a|..] == b;
    RegisterAllAppend(r, a, b[|a|..]);
    RegisterAllFailure(RegisterAll(r, a).error, b[|a|..]);
  }

  lemma {:induction false} IndexEventsPrefix(isrs: seq<IndexShardResponse>, j: nat)
    requires j <= |isrs|
    ensures IndexEvents(isrs[..j]) <= IndexEvents(isrs)
    decreases |isrs| - j
  {
    if j < |isrs| {
      var init := isrs[..|isrs| - 1];
      assert init[..j] == isrs[..j];
      IndexEventsPrefix(init, j);
    } else {
      assert isrs[..j] == isrs;
    }
  }

  lemma {:induction false} EventsPrefix(responses: seq<InternalQueryResponse>, i: nat)
    requires i <= |responses|
    ensures Events(responses[..i]) <= Events(responses)
    decreases |responses| - i
  {
    if i < |responses| {
      var init := responses[..|responses| - 1];
      assert init[..i] == responses[..i];
      EventsPrefix(init, i);
    } else {
      assert responses[..i] == responses;
    }
  }

  lemma IndexStep(r: Outcome<Registry>, isrs: seq<IndexShardResponse>, j: nat)
    requires j < |isrs|
    ensures RegisterAll(r, IndexEvents(isrs[..j + 1])) ==
      RegisterAll(Register(RegisterAll(r, IndexEvents(isrs[..j])), IndexSeen(isrs[j].indexName)),
        ShardEvents(isrs[j].indexName, isrs[j].shardQueryResponses))
  {
    assert isrs[..j + 1][..j] == isrs[..j];
    var a := IndexEvents(isrs[..j]);
    var e := IndexSeen(isrs[j].indexName);
    var b := ShardEvents(isrs[j].indexName, isrs[j].shardQueryResponses);
    RegisterAllAppend(r, a + [e], b);
    RegisterAllSnoc(r, a, e);
  }

  method RegisterIndexes(r: Outcome<Registry>, isrs: seq<IndexShardResponse>) returns (out: Outcome<Registry>)
    ensures out == RegisterAll(r, IndexEvents(isrs))
  {
    out := r;
    var j := 0;
    while j < |isrs|
      invariant 0 <= j <= |isrs|
      invariant out == RegisterAll(r, IndexEvents(isrs[..j]))
    {
      if out.Failure? {
        IndexEventsPrefix(isrs, j);
        FailureIsFinalFor(r, IndexEvents(isrs[..j]), IndexEvents(isrs));
        return;
      }
      var indexName := isrs[j].indexName;
      var reg := out.value;
      if indexName !in reg.shards {
        out := Success(reg.(shards := reg.shards[indexName := map[]], names := reg.names + [indexName]));
      }
      IndexStep(r, isrs, j);
      out := RegisterShards(out, indexName, isrs[j].shardQueryResponses);
      j := j + 1;
    }
    assert isrs[..j] == isrs;
  }

  lemma ResponseStep(responses: seq<InternalQueryResponse>, i: nat)
    requires i < |responses|
    ensures RegisterAll(Success(EMPTY_REGISTRY), Events(responses[..i + 1])) ==
      RegisterAll(RegisterAll(Success(EMPTY_REGISTRY), Events(responses[..i])), IndexEvents(responses[i].indexShardResponses))
  {
    assert responses[..i + 1][..i] == responses[..i];
    RegisterAllAppend(Success(EMPTY_REGISTRY), Events(responses[..i]), IndexEvents(responses[i].indexShardResponses));
  }

  /** validate's first loop: every shard response of every node, registered in order. */
  method RegisterResponses(responses: seq<InternalQueryResponse>) returns (out: Outcome<Registry>)
    ensures out == RegisterAll(Success(EMPTY_REGISTRY), Events(responses))
  {
    out := Success(EMPTY_REGISTRY);
    var i := 0;
    while i < |responses|
      invariant 0 <= i <= |responses|
      invariant out == RegisterAll(Success(EMPTY_REGISTRY), Events(responses[..i]))
    {
      if out.Failure? {
        EventsPrefix(responses, i);
        FailureIsFinalFor(Success(EMPTY_REGISTRY), Events(responses[..i]), Events(responses));
        return;
      }
      ResponseStep(responses, i);
      out := RegisterIndexes(out, responses[i].indexShardResponses);
      i := i + 1;
    }
    assert responses[..i] == responses;
  }

  /** validate's second loop: the first searched index that is missing, has the wrong number
      of shards, or lacks one of its shards. */
  method CheckAll(reg: Registry, indexes: seq<IndexInfo>) returns (err: Option<QueryError>)
    ensures err == CheckIndexes(reg, indexes)
  {
    var k := 0;
    while k < |indexes|
      invariant 0 <= k <= |indexes|
      invariant CheckIndexes(reg, indexes) == CheckIndexes(reg, indexes[k..])
    {
      var idx := indexes[k];
      assert indexes[k..][1..] == indexes[k + 1..];
      if idx.indexName !in reg.shards {
        return Some(MissingIndex(idx.indexName));
      }
      var m := reg.shards[idx.indexName];
      if |m| != idx.numberOfShards {
        return Some(WrongShardCount(|m|, idx.numberOfShards));
      }
      var shard := 0;
      while shard < idx.numberOfShards
        invariant 0 <= shard <= idx.numberOfShards
        invariant FirstMissing(m.Keys, 0, idx.numberOfShards) == FirstMissing(m.Keys, shard, idx.numberOfShards)
      {
        if shard !in m {
          return Some(MissingShard(shard));
        }
        shard := shard + 1;
      }
      k := k + 1;
    }
    return None;
  }

  /** validate, both loops. */
  method Validate(indexes: seq<IndexInfo>, responses: seq<InternalQueryResponse>) returns (r: Outcome<Registry>)
    ensures r == Validated(indexes, responses)
  {
    r := RegisterResponses(responses);
    if r.Failure? {
      return;
    }
    var err := CheckAll(r.value, indexes);
    if err.Some? {
      r := Failure(err.value);
    }
  }

  // What a registry holds

  /** Every hit of a shard response, and the hit it would return next, carries at least `n`
      sort values. */
  predicate Carries(n: nat, sr: ShardQueryResponse)
  {
    (forall j :: 0 <= j < |sr.scoredResults| ==> |sr.scoredResults[j].sortValues| >= n) &&
    (sr.next.Some? ==> |sr.next.value.sortValues| >= n)
  }

  predicate IndexCarries(n: nat, isr: IndexShardResponse)
  {
    forall k :: 0 <= k < |isr.shardQueryResponses| ==> Carries(n, isr.shardQueryResponses[k])
  }

  predicate InternalCarries(n: nat, iqr: InternalQueryResponse)
  {
    forall j :: 0 <= j < |iqr.indexShardResponses| ==> IndexCarries(n, iqr.indexShardResponses[j])
  }

  predicate AllCarry(n: nat, responses: seq<InternalQueryResponse>)
  {
    forall i :: 0 <= i < |responses| ==> InternalCarries(n, responses[i])
  }

  /** The indexes a registry lists are those it holds, each once, and every shard response
      it holds carries `n` sort values. */
  ghost predicate Coherent(n: nat, reg: Registry)
  {
    (forall name :: name in reg.shards <==> name in reg.names) &&
    (forall i, j :: 0 <= i < j < |reg.names| ==> reg.names[i] != reg.names[j]) &&
    (forall k :: 0 <= k < |reg.shardResponses| ==> Carries(n, reg.shardResponses[k])) &&
    (forall name, s :: name in reg.shards && s in reg.shards[name] ==> Carries(n, reg.shards[name][s]))
  }

  /** Once a fold has failed it stays failed. */
  lemma {:induction false} SuccessBefore(r: Outcome<Registry>, es: seq<Event>)
    ensures RegisterAll(r, es).Success? ==> r.Success?
  {
    if |es| > 0 {
      SuccessBefore(r, es[..|es| - 1]);
    }
  }

  lemma ShardConsistent(n: nat, reg: Registry, name: string, sr: ShardQueryResponse)
    requires Coherent(n, reg) && name in reg.shards && Carries(n, sr)
    requires Register(Success(reg), ShardSeen(name, sr)).Success?
    ensures Coherent(n, Register(Success(reg), ShardSeen(name, sr)).value)
    ensures name in Register(Success(reg), ShardSeen(name, sr)).value.shards
  {
    var after := Register(Success(reg), ShardSeen(name, sr)).value;
    assert after.names == reg.names;
    assert after.shards.Keys == reg.shards.Keys;
    assert forall k :: 0 <= k < |after.shardResponses| ==> Carries(n, after.shardResponses[k]) by {
      assert after.shardResponses == reg.shardResponses + [sr];
    }
  }

  lemma {:induction false} ShardsConsistent(n: nat, reg: Registry, name: string, srs: seq<ShardQueryResponse>)
    requires Coherent(n, reg) && name in reg.shards
    requires forall k :: 0 <= k < |srs| ==> Carries(n, srs[k])
    requires RegisterAll(Success(reg), ShardEvents(name, srs)).Success?
    ensures Coherent(n, RegisterAll(Success(reg), ShardEvents(name, srs)).value)
    ensures name in RegisterAll(Success(reg), ShardEvents(name, srs)).value.shards
  {
    if |srs| > 0 {
      var init := srs[..|srs| - 1];
      ShardStep(Success(reg), name, srs, |srs| - 1);
      assert srs[..|srs|] == srs;
      SuccessBefore(RegisterAll(Success(reg), ShardEvents(name, init)), [ShardSeen(name, srs[|srs| - 1])]);
      ShardsConsistent(n, reg, name, init);
      ShardConsistent(n, RegisterAll(Success(reg), ShardEvents(name, init)).value, name, srs[|srs| - 1]);
    }
  }

  lemma IndexSeenConsistent(n: nat, reg: Registry, name: string)
    requires Coherent(n, reg)
    ensures Register(Success(reg), IndexSeen(name)).Success?
    ensures Coherent(n, Register(Success(reg), IndexSeen(name)).value)
    ensures name in Register(Success(reg), IndexSeen(name)).value.shards
  {
    if name !in reg.shards {
      var after := Register(Success(reg), IndexSeen(name)).value;
      assert after.names == reg.names + [name];
      assert forall name', s :: name' in after.shards && s in after.shards[name'] ==> name' in reg.shards;
    }
  }

  lemma {:induction false} IndexesConsistent(n: nat, reg: Registry, isrs: seq<IndexShardResponse>)
    requires Coherent(n, reg)
    requires forall j :: 0 <= j < |isrs| ==> IndexCarries(n, isrs[j])
    requires RegisterAll(Success(reg), IndexEvents(isrs)).Success?
    ensures Coherent(n, RegisterAll(Success(reg), IndexEvents(isrs)).value)
  {
    if |isrs| > 0 {
      var init := isrs[..|isrs| - 1];
      var isr := isrs[|isrs| - 1];
      var a := IndexEvents(init);
      var b := ShardEvents(isr.indexName, isr.shardQueryResponses);
      assert IndexEvents(isrs) == a + [IndexSeen(isr.indexName)] + b;
      RegisterAllAppend(Success(reg), a + [IndexSeen(isr.indexName)], b);
      RegisterAllSnoc(Success(reg), a, IndexSeen(isr.indexName));
      SuccessBefore(RegisterAll(Success(reg), a + [IndexSeen(isr.indexName)]), b);
      SuccessBefore(RegisterAll(Success(reg), a), [IndexSeen(isr.indexName)]);
      assert forall j :: 0 <= j < |init| ==> IndexCarries(n, init[j]) by {
        assert forall j :: 0 <= j < |init| ==> init[j] == isrs[j];
      }
      IndexesConsistent(n, reg, init);
      var before := RegisterAll(Success(reg), a).value;
      IndexSeenConsistent(n, before, isr.indexName);
      var mid := Register(Success(before), IndexSeen(isr.indexName)).value;
      assert IndexCarries(n, isr);
      ShardsConsistent(n, mid, isr.indexName, isr.shardQueryResponses);
    }
  }

  lemma {:induction false} EventsConsistent(n: nat, responses: seq<InternalQueryResponse>)
    requires AllCarry(n, responses)
    requires RegisterAll(Success(EMPTY_REGISTRY), Events(responses)).Success?
    ensures Coherent(n, RegisterAll(Success(EMPTY_REGISTRY), Events(responses)).value)
  {
    if |responses| > 0 {
      var init := responses[..|responses| - 1];
      var last := responses[|responses| - 1].indexShardResponses;
      RegisterAllAppend(Success(EMPTY_REGISTRY), Events(init), IndexEvents(last));
      SuccessBefore(RegisterAll(Success(EMPTY_REGISTRY), Events(init)), IndexEvents(last));
      EventsConsistent(n, init);
      IndexesConsistent(n, RegisterAll(Success(EMPTY_REGISTRY), Events(init)).value, last);
    }
  }

  /** After validation every searched index has its shards 0 .. numberOfShards - 1. */
  lemma ValidatedShards(indexes: seq<IndexInfo>, responses: seq<InternalQueryResponse>)
    requires Validated(indexes, responses).Success?
    ensures var reg := Validated(indexes, responses).value;
      forall k :: 0 <= k < |indexes| ==> (indexes[k].indexName in reg.shards &&
        forall s :: 0 <= s < indexes[k].numberOfShards ==> s in reg.shards[indexes[k].indexName])
  {
    var reg := Validated(indexes, responses).value;
    CheckIndexesPass(reg, indexes);
    forall k | 0 <= k < |indexes|
      ensures indexes[k].indexName in reg.shards &&
        forall s :: 0 <= s < indexes[k].numberOfShards ==> s in reg.shards[indexes[k].indexName]
    {
      CheckIndexPasses(reg, indexes[k]);
    }
  }
}
