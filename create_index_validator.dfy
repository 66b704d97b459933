/** Validating the settings of an index before it is created or updated
    (CreateIndexRequestValidator): negative numeric settings are refused and zero ones take their
    defaults, stored field names must be unique, index field names may not hold a comma, string
    fields need a known analyzer, sort names are unique per field, and warming searches need
    distinct, non-empty labels. */
module CreateIndexValidation {
  import opened Wrappers
  import opened FieldTypes

  datatype IndexAs = IndexAs(indexFieldName: string, analyzerName: string)

  datatype SortAs = SortAs(sortFieldName: string)

  datatype FieldConfig = FieldConfig(storedFieldName: string, fieldType: FieldType, indexAs: seq<IndexAs>, sortAs: seq<SortAs>)

  /** The settings of an index; the warming searches are given by the search label each
      carries once parsed and validated. */
  datatype IndexSettings = IndexSettings(
    indexName: string, numberOfShards: int, numberOfReplicas: int, indexWeight: int,
    requestFactor: real, minShardRequest: int, idleTimeWithoutCommit: int, shardTolerance: real,
    shardQueryCacheSize: int, shardQueryCacheMaxAmount: int, shardCommitInterval: int,
    commitToWarmTime: int, ramBufferMB: int, analyzerNames: seq<string>,
    fieldConfigs: seq<FieldConfig>, warmingSearchLabels: seq<string>, createTime: int, updateTime: int)

  datatype CreateIndexRequest = CreateIndexRequest(indexSettings: Option<IndexSettings>)

  const DEFAULT_NUMBER_OF_SHARDS: int := 1
  const DEFAULT_INDEX_WEIGHT: int := 1
  const DEFAULT_REQUEST_FACTOR: real := 2.0
  const DEFAULT_MIN_SHARD_REQUEST: int := 2
  const DEFAULT_IDLE_TIME_WITHOUT_COMMIT: int := 5
  const DEFAULT_SHARD_QUERY_CACHE_SIZE: int := 512
  const DEFAULT_SHARD_QUERY_CACHE_MAX_AMOUNT: int := 256
  const DEFAULT_SHARD_COMMIT_INTERVAL: int := 3200
  const DEFAULT_COMMIT_TO_WARM_TIME: int := 1

  // ---------------------------------------------------------------------------------------
  // The numeric settings

  /** The messages of the numeric checks (the warming-time one repeats the idle-time wording). */
  const NAME_REQUIRED: string := "Index name must be provided"
  const SHARDS_NEGATIVE: string := "Number of shards cannot be negative"
  const WEIGHT_NEGATIVE: string := "Index weight must be positive"
  const FACTOR_NEGATIVE: string := "Request factor must be positive"
  const MIN_SHARD_NEGATIVE: string := "Min Shard Request must be positive"
  const IDLE_NEGATIVE: string := "Idle Time Without Commit must be positive"
  const TOLERANCE_NEGATIVE: string := "Shard Tolerance must be positive"
  const CACHE_SIZE_NEGATIVE: string := "Shard Query Cache Size must be positive or zero to use for default values"
  const CACHE_MAX_NEGATIVE: string := "Shard Query Cache Max Amount must be positive"
  const INTERVAL_NEGATIVE: string := "Shard Commit Interval must be positive"
  const WARM_NEGATIVE: string := "Idle Time Without Commit must be positive or zero to use for default values"

  /** A negative value is refused, zero takes the default, anything else is kept. */
  function OrDefault(v: int, d: int, message: string): (r: Result<int>)
    ensures r.Err? <==> v < 0
    ensures r.Ok? ==> r.value == (if v == 0 then d else v)
  {
    if v < 0 then Err(message) else if v == 0 then Ok(d) else Ok(v)
  }

  function OrDefaultReal(v: real, d: real, message: string): (r: Result<real>)
    ensures r.Err? <==> v < 0.0
    ensures r.Ok? ==> r.value == (if v == 0.0 then d else v)
  {
    if v < 0.0 then Err(message) else if v == 0.0 then Ok(d) else Ok(v)
  }

  /** The checks and defaults applied to the numeric settings, in the order the validator
      applies them; the first negative value decides the error. */
  function Defaults(s: IndexSettings): Result<IndexSettings>
  {
    match SizingDefaults(s)
    case Err(e) => Err(e)
    case Ok(t) => CacheDefaults(t)
  }

  /** The first checks: the name, then the shard, weight, request and commit settings. */
  function SizingDefaults(s: IndexSettings): Result<IndexSettings>
  {
    if s.indexName == [] then Err(NAME_REQUIRED)
    else
      var shards := OrDefault(s.numberOfShards, DEFAULT_NUMBER_OF_SHARDS, SHARDS_NEGATIVE);
      if shards.Err? then Err(shards.error) else
      var weight := OrDefault(s.indexWeight, DEFAULT_INDEX_WEIGHT, WEIGHT_NEGATIVE);
      if weight.Err? then Err(weight.error) else
      var factor := OrDefaultReal(s.requestFactor, DEFAULT_REQUEST_FACTOR, FACTOR_NEGATIVE);
      if factor.Err? then Err(factor.error) else
      var minShard := OrDefault(s.minShardRequest, DEFAULT_MIN_SHARD_REQUEST, MIN_SHARD_NEGATIVE);
      if minShard.Err? then Err(minShard.error) else
      var idle := OrDefault(s.idleTimeWithoutCommit, DEFAULT_IDLE_TIME_WITHOUT_COMMIT, IDLE_NEGATIVE);
      if idle.Err? then Err(idle.error) else
      if s.shardTolerance < 0.0 then Err(TOLERANCE_NEGATIVE) else
      Ok(s.(numberOfShards := shards.value, indexWeight := weight.value, requestFactor := factor.value,
        minShardRequest := minShard.value, idleTimeWithoutCommit := idle.value))
  }

  /** The later checks: the query cache, commit interval and warming settings. */
  function CacheDefaults(s: IndexSettings): Result<IndexSettings>
  {
    var cacheSize := OrDefault(s.shardQueryCacheSize, DEFAULT_SHARD_QUERY_CACHE_SIZE,
      CACHE_SIZE_NEGATIVE);
    if cacheSize.Err? then Err(cacheSize.error) else
    var cacheMax := OrDefault(s.shardQueryCacheMaxAmount, DEFAULT_SHARD_QUERY_CACHE_MAX_AMOUNT,
      CACHE_MAX_NEGATIVE);
    if cacheMax.Err? then Err(cacheMax.error) else
    var interval := OrDefault(s.shardCommitInterval, DEFAULT_SHARD_COMMIT_INTERVAL, INTERVAL_NEGATIVE);
    if interval.Err? then Err(interval.error) else
    var warm := OrDefault(s.commitToWarmTime, DEFAULT_COMMIT_TO_WARM_TIME,
      WARM_NEGATIVE);
    if warm.Err? then Err(warm.error) else
    Ok(s.(shardQueryCacheSize := cacheSize.value, shardQueryCacheMaxAmount := cacheMax.value,
      shardCommitInterval := interval.value, commitToWarmTime := warm.value))
  }

  // ---------------------------------------------------------------------------------------
  // The field configurations

  function StoredNames(configs: seq<FieldConfig>): set<string>
  {
    set k | 0 <= k < |configs| :: configs[k].storedFieldName
  }

  /** The first index-as entry with a comma in its name, or a string field's analyzer that is
      neither a custom nor a default analyzer. */
  function IndexAsError(c: FieldConfig, known: set<string>, ias: seq<IndexAs>): Option<string>
  {
    if |ias| == 0 then None
    else
      var ia := ias[0];
      if ',' in ia.indexFieldName then
        Some("Index as field name can not contain a comma.  Found in stored field <" + c.storedFieldName + "> indexed as <" + ia.indexFieldName + ">")
      else if IsString(c.fieldType) && ia.analyzerName !in known then
        if ia.analyzerName == [] then
          Some("Analyzer is not defined for string field <" + c.storedFieldName + "> indexed as <" + ia.indexFieldName + ">")
        else
          Some("Analyzer <" + ia.analyzerName + "> is not a default analyzer and is not given as a custom analyzer for field <"
            + c.storedFieldName + "> indexed as <" + ia.indexFieldName + ">")
      else IndexAsError(c, known, ias[1..])
  }

  /** The first sort name already used by an earlier sort of the field. */
  function SortError(c: FieldConfig, sorts: seq<SortAs>, seen: set<string>): Option<string>
  {
    if |sorts| == 0 then None
    else if sorts[0].sortFieldName in seen then
      Some("Stored field <" + c.storedFieldName + "> is has duplicate sort <" + sorts[0].sortFieldName + "> in the field config")
    else SortError(c, sorts[1..], seen + {sorts[0].sortFieldName})
  }

  function ConfigError(c: FieldConfig, seen: set<string>, known: set<string>): Option<string>
  {
    if c.storedFieldName in seen then Some("Stored field <" + c.storedFieldName + "> is duplicated in field config")
    else if IndexAsError(c, known, c.indexAs).Some? then IndexAsError(c, known, c.indexAs)
    else SortError(c, c.sortAs, {})
  }

  /** The first error of the field loop. */
  function FieldsError(configs: seq<FieldConfig>, known: set<string>): Option<string>
  {
    if |configs| == 0 then None
    else
      var init := configs[..|configs| - 1];
      if FieldsError(init, known).Some? then FieldsError(init, known)
      else ConfigError(configs[|configs| - 1], StoredNames(init), known)
  }

  /** What the field loop demands, stated without its order. */
  predicate FieldsWellFormed(configs: seq<FieldConfig>, known: set<string>)
  {
    (forall i, j :: 0 <= i < j < |configs| ==> configs[i].storedFieldName != configs[j].storedFieldName) &&
    (forall i :: 0 <= i < |configs| ==> ConfigWellFormed(configs[i], known))
  }

  predicate ConfigWellFormed(c: FieldConfig, known: set<string>)
  {
    (forall k :: 0 <= k < |c.indexAs| ==> ',' !in c.indexAs[k].indexFieldName) &&
    (IsString(c.fieldType) ==> forall k :: 0 <= k < |c.indexAs| ==> c.indexAs[k].analyzerName in known) &&
    (forall i, j :: 0 <= i < j < |c.sortAs| ==> c.sortAs[i].sortFieldName != c.sortAs[j].sortFieldName)
  }

  lemma {:induction false} IndexAsErrorIff(c: FieldConfig, known: set<string>, ias: seq<IndexAs>)
    ensures IndexAsError(c, known, ias).None? <==>
      (forall k :: 0 <= k < |ias| ==> ',' !in ias[k].indexFieldName) &&
      (IsString(c.fieldType) ==> forall k :: 0 <= k < |ias| ==> ias[k].analyzerName in known)
  {
    if |ias| > 0 {
      IndexAsErrorIff(c, known, ias[1..]);
      assert forall k :: 1 <= k < |ias| ==> ias[k] == ias[1..][k - 1];
    }
  }

  lemma {:induction false} SortErrorIff(c: FieldConfig, sorts: seq<SortAs>, seen: set<string>)
    ensures SortError(c, sorts, seen).None? <==>
      (forall k :: 0 <= k < |sorts| ==> sorts[k].sortFieldName !in seen) &&
      (forall i, j :: 0 <= i < j < |sorts| ==> sorts[i].sortFieldName != sorts[j].sortFieldName)
  {
    if |sorts| > 0 {
      SortErrorIff(c, sorts[1..], seen + {sorts[0].sortFieldName});
      assert forall k :: 1 <= k < |sorts| ==> sorts[k] == sorts[1..][k - 1];
      if SortError(c, sorts, seen).None? {
        forall i, j | 0 <= i < j < |sorts|
          ensures sorts[i].sortFieldName != sorts[j].sortFieldName
        {
          if i > 0 {
            assert sorts[i] == sorts[1..][i - 1] && sorts[j] == sorts[1..][j - 1];
          }
        }
      }
    }
  }

  /** The field loop fails exactly when a stored name repeats, an index field name holds a
      comma, a string field names an unknown analyzer, or a field repeats a sort name. */
  lemma {:induction false} FieldsErrorIff(configs: seq<FieldConfig>, known: set<string>)
    ensures FieldsError(configs, known).None? <==> FieldsWellFormed(configs, known)
  {
    if |configs| > 0 {
      var init := configs[..|configs| - 1];
      var last := configs[|configs| - 1];
      FieldsErrorIff(init, known);
      IndexAsErrorIff(last, known, last.indexAs);
      SortErrorIff(last, last.sortAs, {});
      assert forall k :: 0 <= k < |init| ==> init[k] == configs[k];
      if FieldsError(configs, known).None? {
        forall i, j | 0 <= i < j < |configs|
          ensures configs[i].storedFieldName != configs[j].storedFieldName
        {
          if j == |configs| - 1 {
            assert configs[i].storedFieldName in StoredNames(init);
          }
        }
      }
    }
  }

  // ---------------------------------------------------------------------------------------
  // The warming searches

  /** Every warming search needs a label, and no label may repeat; any failure is reported as a
      failure to parse the search. */
  function WarmingError(labels: seq<string>): Option<string>
  {
    if |labels| == 0 then None
    else
      var init := labels[..|labels| - 1];
      var last := labels[|labels| - 1];
      if WarmingError(init).Some? then WarmingError(init)
      else if last == [] || last in init then Some("Failed to parse QueryRequest from warming search bytes")
      else None
  }

  lemma {:induction false} WarmingErrorIff(labels: seq<string>)
    ensures WarmingError(labels).None? <==>
      (forall k :: 0 <= k < |labels| ==> labels[k] != []) &&
      (forall i, j :: 0 <= i < j < |labels| ==> labels[i] != labels[j])
  {
    if |labels| > 0 {
      var init := labels[..|labels| - 1];
      WarmingErrorIff(init);
      assert forall k :: 0 <= k < |init| ==> init[k] == labels[k];
      if WarmingError(labels).None? {
        forall i, j | 0 <= i < j < |labels|
          ensures labels[i] != labels[j]
        {
          if j == |labels| - 1 {
            assert labels[i] in init;
          }
        }
      }
    }
  }

  // ---------------------------------------------------------------------------------------
  // The whole validation

  /** validateIndexSettingsAndSetDefaults, given the names of the default analyzers. */
  function Validated(s: IndexSettings, defaultAnalyzers: set<string>): Result<IndexSettings>
  {
    match Defaults(s)
    case Err(e) => Err(e)
    case Ok(d) =>
      var known := (set k | 0 <= k < |s.analyzerNames| :: s.analyzerNames[k]) + defaultAnalyzers;
      if FieldsError(s.fieldConfigs, known).Some? then Err(FieldsError(s.fieldConfigs, known).value)
      else if WarmingError(s.warmingSearchLabels).Some? then Err(WarmingError(s.warmingSearchLabels).value)
      else Ok(d)
  }

  /** validateAndSetDefault on a request: settings are required. */
  function ValidatedRequest(request: CreateIndexRequest, defaultAnalyzers: set<string>): Result<CreateIndexRequest>
  {
    match request.indexSettings
    case None => Err("Index settings field is required for create index")
    case Some(s) =>
      match Validated(s, defaultAnalyzers)
      case Err(e) => Err(e)
      case Ok(v) => Ok(CreateIndexRequest(Some(v)))
  }

  /** The settings the validator accepts: a name, and no negative numeric setting. */
  predicate NumbersAllowed(s: IndexSettings)
  {
    s.indexName != [] && s.numberOfShards >= 0 && s.indexWeight >= 0 && s.requestFactor >= 0.0 &&
    s.minShardRequest >= 0 && s.idleTimeWithoutCommit >= 0 && s.shardTolerance >= 0.0 &&
    s.shardQueryCacheSize >= 0 && s.shardQueryCacheMaxAmount >= 0 && s.shardCommitInterval >= 0 &&
    s.commitToWarmTime >= 0
  }

  /** Each zero setting replaced by its default (1, 1, 2.0, 2, 5, 512, 256, 3200, 1), every
      other field as given. */
  function WithDefaults(s: IndexSettings): IndexSettings
  {
    s.(numberOfShards := if s.numberOfShards == 0 then 1 else s.numberOfShards,
      indexWeight := if s.indexWeight == 0 then 1 else s.indexWeight,
      requestFactor := if s.requestFactor == 0.0 then 2.0 else s.requestFactor,
      minShardRequest := if s.minShardRequest == 0 then 2 else s.minShardRequest,
      idleTimeWithoutCommit := if s.idleTimeWithoutCommit == 0 then 5 else s.idleTimeWithoutCommit,
      shardQueryCacheSize := if s.shardQueryCacheSize == 0 then 512 else s.shardQueryCacheSize,
      shardQueryCacheMaxAmount := if s.shardQueryCacheMaxAmount == 0 then 256 else s.shardQueryCacheMaxAmount,
      shardCommitInterval := if s.shardCommitInterval == 0 then 3200 else s.shardCommitInterval,
      commitToWarmTime := if s.commitToWarmTime == 0 then 1 else s.commitToWarmTime)
  }

  /** The sequential checks fail exactly on a missing name or a negative setting, and
      otherwise give every zero setting its default and keep everything else. */
  lemma DefaultsFacts(s: IndexSettings)
    ensures Defaults(s).Ok? <==> NumbersAllowed(s)
    ensures Defaults(s).Ok? ==> Defaults(s).value == WithDefaults(s)
  {
    if NumbersAllowed(s) {
      DefaultsAccepts(s);
    } else {
      DefaultsRejects(s);
    }
  }

  lemma DefaultsRejects(s: IndexSettings)
    requires !NumbersAllowed(s)
    ensures Defaults(s).Err?
  {
  }

  lemma DefaultsAccepts(s: IndexSettings)
    requires NumbersAllowed(s)
    ensures Defaults(s) == Ok(WithDefaults(s))
  {
    var shards := OrDefault(s.numberOfShards, DEFAULT_NUMBER_OF_SHARDS, SHARDS_NEGATIVE);
    var weight := OrDefault(s.indexWeight, DEFAULT_INDEX_WEIGHT, WEIGHT_NEGATIVE);
    var factor := OrDefaultReal(s.requestFactor, DEFAULT_REQUEST_FACTOR, FACTOR_NEGATIVE);
    var minShard := OrDefault(s.minShardRequest, DEFAULT_MIN_SHARD_REQUEST, MIN_SHARD_NEGATIVE);
    var idle := OrDefault(s.idleTimeWithoutCommit, DEFAULT_IDLE_TIME_WITHOUT_COMMIT, IDLE_NEGATIVE);
    assert shards.Ok? && weight.Ok? && factor.Ok? && minShard.Ok? && idle.Ok?;
    var t := s.(numberOfShards := shards.value, indexWeight := weight.value, requestFactor := factor.value,
      minShardRequest := minShard.value, idleTimeWithoutCommit := idle.value);
    assert SizingDefaults(s) == Ok(t);
    var cacheSize := OrDefault(t.shardQueryCacheSize, DEFAULT_SHARD_QUERY_CACHE_SIZE,
      CACHE_SIZE_NEGATIVE);
    var cacheMax := OrDefault(t.shardQueryCacheMaxAmount, DEFAULT_SHARD_QUERY_CACHE_MAX_AMOUNT,
      CACHE_MAX_NEGATIVE);
    var interval := OrDefault(t.shardCommitInterval, DEFAULT_SHARD_COMMIT_INTERVAL, INTERVAL_NEGATIVE);
    var warm := OrDefault(t.commitToWarmTime, DEFAULT_COMMIT_TO_WARM_TIME,
      WARM_NEGATIVE);
    assert cacheSize.Ok? && cacheMax.Ok? && interval.Ok? && warm.Ok?;
    assert CacheDefaults(t) == Ok(t.(shardQueryCacheSize := cacheSize.value, shardQueryCacheMaxAmount := cacheMax.value,
      shardCommitInterval := interval.value, commitToWarmTime := warm.value));
  }

  /** Validation succeeds exactly when the name is given, no numeric setting is negative, the
      fields are well formed and the warming labels are distinct and non-empty; it then yields
      the settings with their defaults. */
  lemma ValidatedFacts(s: IndexSettings, defaultAnalyzers: set<string>)
    ensures var known := (set k | 0 <= k < |s.analyzerNames| :: s.analyzerNames[k]) + defaultAnalyzers;
      var r := Validated(s, defaultAnalyzers);
      (r.Ok? <==> (NumbersAllowed(s) && FieldsWellFormed(s.fieldConfigs, known) &&
        (forall k :: 0 <= k < |s.warmingSearchLabels| ==> s.warmingSearchLabels[k] != []) &&
        (forall i, j :: 0 <= i < j < |s.warmingSearchLabels| ==> s.warmingSearchLabels[i] != s.warmingSearchLabels[j]))) &&
      (r.Ok? ==> r.value == WithDefaults(s))
  {
    var known := (set k | 0 <= k < |s.analyzerNames| :: s.analyzerNames[k]) + defaultAnalyzers;
    var r := Validated(s, defaultAnalyzers);
    DefaultsFacts(s);
    FieldsErrorIff(s.fieldConfigs, known);
    WarmingErrorIff(s.warmingSearchLabels);
    if Defaults(s).Err? {
      assert r.Err?;
    } else if FieldsError(s.fieldConfigs, known).Some? {
      assert r.Err?;
    } else if WarmingError(s.warmingSearchLabels).Some? {
      assert r.Err?;
    } else {
      assert r == Defaults(s);
    }
  }

  /** Validated settings validate again to themselves: no default applies a second time. */
  lemma ValidatedIdempotent(s: IndexSettings, defaultAnalyzers: set<string>)
    requires Validated(s, defaultAnalyzers).Ok?
    ensures Validated(Validated(s, defaultAnalyzers).value, defaultAnalyzers) == Validated(s, defaultAnalyzers)
  {
    ValidatedFacts(s, defaultAnalyzers);
    var v := Validated(s, defaultAnalyzers).value;
    assert v == WithDefaults(s);
    assert v.analyzerNames == s.analyzerNames && v.fieldConfigs == s.fieldConfigs && v.warmingSearchLabels == s.warmingSearchLabels;
    assert NumbersAllowed(v) && WithDefaults(v) == v;
    ValidatedFacts(v, defaultAnalyzers);
  }

  // ---------------------------------------------------------------------------------------
  // The validator on a settings builder

  /** The settings builder the validator mutates. */
  class IndexSettingsBuilder {
    var settings: IndexSettings

    constructor(settings: IndexSettings)
      ensures this.settings == settings
    {
      this.settings := settings;
    }
  }

  method CheckFields(configs: seq<FieldConfig>, known: set<string>) returns (err: Option<string>)
    ensures err == FieldsError(configs, known)
  {
    var storedFields: set<string> := {};
    var i := 0;
    while i < |configs|
      invariant 0 <= i <= |configs|
      invariant FieldsError(configs[..i], known).None?
      invariant storedFields == StoredNames(configs[..i])
    {
      var c := configs[i];
      FieldsErrorStep(configs, i, known);
      if c.storedFieldName in storedFields {
        err := Some("Stored field <" + c.storedFieldName + "> is duplicated in field config");
        FieldsErrorPrefix(configs, i + 1, known);
        return;
      }
      storedFields := storedFields + {c.storedFieldName};
      var e := CheckIndexAs(c, known);
      if e.Some? {
        err := e;
        FieldsErrorPrefix(configs, i + 1, known);
        return;
      }
      e := CheckSorts(c);
      if e.Some? {
        err := e;
        FieldsErrorPrefix(configs, i + 1, known);
        return;
      }
      i := i + 1;
    }
    assert configs[..i] == configs;
    err := None;
  }

  /** One more field config: its error unless an earlier one failed, and its stored name. */
  lemma FieldsErrorStep(configs: seq<FieldConfig>, i: nat, known: set<string>)
    requires i < |configs|
    ensures FieldsError(configs[..i + 1], known) ==
      if FieldsError(configs[..i], known).Some? then FieldsError(configs[..i], known)
      else ConfigError(configs[i], StoredNames(configs[..i]), known)
    ensures StoredNames(configs[..i + 1]) == StoredNames(configs[..i]) + {configs[i].storedFieldName}
  {
    assert configs[..i + 1][..i] == configs[..i];
    assert StoredNames(configs[..i + 1]) == StoredNames(configs[..i]) + {configs[i].storedFieldName} by {
      assert forall k :: 0 <= k < i ==> configs[..i + 1][k] == configs[..i][k];
      assert configs[..i + 1][i] == configs[i];
    }
  }

  /** The first error of a prefix is the first error of the whole list. */
  lemma {:induction false} FieldsErrorPrefix(configs: seq<FieldConfig>, n: nat, known: set<string>)
    requires n <= |configs|
    requires FieldsError(configs[..n], known).Some?
    ensures FieldsError(configs, known) == FieldsError(configs[..n], known)
    decreases |configs| - n
  {
    if n < |configs| {
      assert configs[..n + 1][..n] == configs[..n];
      FieldsErrorPrefix(configs, n + 1, known);
    } else {
      assert configs[..n] == configs;
    }
  }

  method CheckIndexAs(c: FieldConfig, known: set<string>) returns (err: Option<string>)
    ensures err == IndexAsError(c, known, c.indexAs)
  {
    var k := 0;
    while k < |c.indexAs|
      invariant 0 <= k <= |c.indexAs|
      invariant IndexAsError(c, known, c.indexAs) == IndexAsError(c, known, c.indexAs[k..])
    {
      var ia := c.indexAs[k];
      assert c.indexAs[k..][0] == ia && c.indexAs[k..][1..] == c.indexAs[k + 1..];
      if ',' in ia.indexFieldName {
        return Some("Index as field name can not contain a comma.  Found in stored field <" + c.storedFieldName + "> indexed as <" + ia.indexFieldName + ">");
      }
      if IsString(c.fieldType) && ia.analyzerName !in known {
        if ia.analyzerName == [] {
          return Some("Analyzer is not defined for string field <" + c.storedFieldName + "> indexed as <" + ia.indexFieldName + ">");
        } else {
          return Some("Analyzer <" + ia.analyzerName + "> is not a default analyzer and is not given as a custom analyzer for field <"
            + c.storedFieldName + "> indexed as <" + ia.indexFieldName + ">");
        }
      }
      k := k + 1;
    }
    return None;
  }

  method CheckSorts(c: FieldConfig) returns (err: Option<string>)
    ensures err == SortError(c, c.sortAs, {})
  {
    var sorts: set<string> := {};
    var k := 0;
    while k < |c.sortAs|
      invariant 0 <= k <= |c.sortAs|
      invariant SortError(c, c.sortAs, {}) == SortError(c, c.sortAs[k..], sorts)
    {
      assert c.sortAs[k..][1..] == c.sortAs[k + 1..];
      if c.sortAs[k].sortFieldName in sorts {
        return Some("Stored field <" + c.storedFieldName + "> is has duplicate sort <" + c.sortAs[k].sortFieldName + "> in the field config");
      }
      sorts := sorts + {c.sortAs[k].sortFieldName};
      k := k + 1;
    }
    return None;
  }

  method CheckWarming(labels: seq<string>) returns (err: Option<string>)
    ensures err == WarmingError(labels)
  {
    var searchLabels: set<string> := {};
    var i := 0;
    while i < |labels|
      invariant 0 <= i <= |labels|
      invariant WarmingError(labels[..i]).None?
      invariant forall x :: x in searchLabels <==> x in labels[..i]
    {
      assert labels[..i + 1][..i] == labels[..i];
      if labels[i] == [] || labels[i] in searchLabels {
        WarmingErrorPrefix(labels, i + 1);
        return Some("Failed to parse QueryRequest from warming search bytes");
      }
      searchLabels := searchLabels + {labels[i]};
      i := i + 1;
    }
    assert labels[..i] == labels;
    return None;
  }

  lemma {:induction false} WarmingErrorPrefix(labels: seq<string>, n: nat)
    requires n <= |labels|
    requires WarmingError(labels[..n]).Some?
    ensures WarmingError(labels) == WarmingError(labels[..n])
    decreases |labels| - n
  {
    if n < |labels| {
      assert labels[..n + 1][..n] == labels[..n];
      WarmingErrorPrefix(labels, n + 1);
    } else {
      assert labels[..n] == labels;
    }
  }

  /** validateIndexSettingsAndSetDefaults on the builder: on success the builder holds the
      validated settings. On failure the builder may be left part way through its defaults,
      as the validator leaves it. */
  method ValidateIndexSettingsAndSetDefaults(b: IndexSettingsBuilder, defaultAnalyzers: set<string>) returns (err: Option<string>)
    modifies b
    ensures err.None? <==> Validated(old(b.settings), defaultAnalyzers).Ok?
    ensures err.None? ==> b.settings == Validated(old(b.settings), defaultAnalyzers).value
    ensures err.Some? ==> err.value == Validated(old(b.settings), defaultAnalyzers).error
  {
    var s := b.settings;
    var d := Defaults(s);
    if d.Err? {
      return Some(d.error);
    }
    b.settings := d.value;
    var analyzerNames := AnalyzerNames(s.analyzerNames);
    analyzerNames := analyzerNames + defaultAnalyzers;
    err := CheckFields(s.fieldConfigs, analyzerNames);
    if err.Some? {
      return;
    }
    err := CheckWarming(s.warmingSearchLabels);
  }

  /** The names of the custom analyzers, gathered one by one. */
  method AnalyzerNames(xs: seq<string>) returns (names: set<string>)
    ensures names == set j | 0 <= j < |xs| :: xs[j]
  {
    names := {};
    var k := 0;
    while k < |xs|
      invariant 0 <= k <= |xs|
      invariant names == set j | 0 <= j < k :: xs[j]
    {
      NamesStep(xs, k);
      names := names + {xs[k]};
      k := k + 1;
    }
  }

  lemma NamesStep(xs: seq<string>, k: nat)
    requires k < |xs|
    ensures (set j | 0 <= j < k + 1 :: xs[j]) == (set j | 0 <= j < k :: xs[j]) + {xs[k]}
  {
  }
}
