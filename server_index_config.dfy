/** The per-index lookup tables a server builds from an index's settings
    (ServerIndexConfigData): which Lucene field each indexed name is searched and sorted on,
    which facets exist and which are stored in their own group, the facet groups ordered from
    smallest to largest, and the field mappings (aliases) expanded to the index fields they
    stand for. The server's reserved field names and the names of the keyword analyzers are
    carried by a `Conventions` value. */
module IndexConfigData {
  import opened Wrappers
  import opened FieldTypes

  datatype StringHandling = STANDARD | LOWERCASE | OtherHandling

  datatype SortAs = SortAs(sortFieldName: string, stringHandling: StringHandling)
  datatype IndexAs = IndexAs(indexFieldName: string, analyzerName: string)
  datatype FacetAs = FacetAs(facetName: string, storeInOwnGroup: bool, facetGroups: seq<string>)
  datatype FieldConfig = FieldConfig(storedFieldName: string, fieldType: FieldType, sortAs: seq<SortAs>, indexAs: seq<IndexAs>, facetAs: seq<FacetAs>)
  datatype FieldMapping = FieldMapping(alias: string, fieldOrFieldPatterns: seq<string>, includeSelf: bool)
  datatype IndexSettings = IndexSettings(fieldConfigs: seq<FieldConfig>, fieldMappings: seq<FieldMapping>)

  datatype IndexFieldInfo = IndexFieldInfo(storedFieldName: Option<string>, indexFieldName: string, internalSortFieldName: Option<string>, fieldType: FieldType, indexAs: Option<IndexAs>)
  datatype SortFieldInfo = SortFieldInfo(internalSortFieldName: Option<string>, fieldType: FieldType, stringHandling: Option<StringHandling>)

  /** The server's naming constants (ZuliaFieldConstants, DefaultAnalyzers). */
  datatype Conventions = Conventions(
    naming: Naming, keywordAnalyzer: string, lcKeywordAnalyzer: string,
    idField: string, idSortField: string, timestampField: string,
    facetDrillDownField: string, fieldsListField: string, scoreField: string)

  datatype FacetGroup = FacetGroup(name: string, facets: set<string>)

  // ---------------------------------------------------------------------------------
  // Wildcard patterns: '*' stands for any run of characters, everything else for itself.

  predicate Matches(pattern: string, s: string)
    decreases |pattern| + |s|
  {
    if |pattern| == 0 then |s| == 0
    else if pattern[0] == '*' then Matches(pattern[1..], s) || (|s| > 0 && Matches(pattern, s[1..]))
    else |s| > 0 && s[0] == pattern[0] && Matches(pattern[1..], s[1..])
  }

  predicate StarFree(p: string)
  {
    forall i :: 0 <= i < |p| ==> p[i] != '*'
  }

  /** Without a '*' a pattern matches only itself. */
  lemma {:induction false} LiteralMatches(p: string, s: string)
    requires StarFree(p)
    ensures Matches(p, s) <==> p == s
    decreases |p| + |s|
  {
    if |p| > 0 && |s| > 0 {
      LiteralMatches(p[1..], s[1..]);
      if p[0] == s[0] && p[1..] == s[1..] {
        assert p == [p[0]] + p[1..] && s == [s[0]] + s[1..];
      }
    }
  }

  /** A star-free prefix of the pattern must be a prefix of the name. */
  lemma {:induction false} LiteralPrefix(lit: string, p: string, s: string)
    requires StarFree(lit)
    ensures Matches(lit + p, s) <==> StartsWith(s, lit) && Matches(p, s[|lit|..])
  {
    if |lit| > 0 {
      assert (lit + p)[1..] == lit[1..] + p;
      if |s| > 0 {
        LiteralPrefix(lit[1..], p, s[1..]);
        if |lit| <= |s| {
          assert s[1..][|lit| - 1..] == s[|lit|..];
        }
        assert StartsWith(s, lit) <==> s[0] == lit[0] && StartsWith(s[1..], lit[1..]) by {
          if |lit| <= |s| {
            assert s[..|lit|] == [s[0]] + s[1..][..|lit| - 1];
            assert lit == [lit[0]] + lit[1..];
          }
        }
      }
    } else {
      assert lit + p == p;
    }
  }

  /** A '*' followed by a star-free suffix matches exactly the names ending in it. */
  lemma {:induction false} StarSuffix(suffix: string, s: string)
    requires StarFree(suffix)
    ensures Matches(['*'] + suffix, s) <==> EndsWith(s, suffix)
    decreases |s|
  {
    var p := ['*'] + suffix;
    assert p[1..] == suffix;
    LiteralMatches(suffix, s);
    if |s| > 0 {
      StarSuffix(suffix, s[1..]);
      if |suffix| <= |s[1..]| {
        assert s[1..][|s[1..]| - |suffix|..] == s[|s| - |suffix|..];
      }
      if |suffix| == |s| {
        assert s[|s| - |suffix|..] == s;
      }
    } else {
      assert EndsWith(s, suffix) <==> suffix == s;
    }
  }

  /** A pattern `prefix*suffix` matches exactly the names that start with prefix, end with
      suffix and are long enough to hold both. */
  lemma PrefixStarSuffix(prefix: string, suffix: string, s: string)
    requires StarFree(prefix) && StarFree(suffix)
    ensures Matches(prefix + ['*'] + suffix, s) <==>
      (StartsWith(s, prefix) && |prefix| + |suffix| <= |s| && EndsWith(s, suffix))
  {
    assert prefix + ['*'] + suffix == prefix + (['*'] + suffix);
    LiteralPrefix(prefix, ['*'] + suffix, s);
    if StartsWith(s, prefix) {
      StarSuffix(suffix, s[|prefix|..]);
      EndsWithTail(s, |prefix|, suffix);
    }
  }

  /** A name's tail from k ends with a suffix when the suffix fits in the tail and the name
      ends with it. */
  lemma EndsWithTail(s: string, k: int, suffix: string)
    requires 0 <= k <= |s|
    ensures EndsWith(s[k..], suffix) <==> |suffix| <= |s| - k && EndsWith(s, suffix)
  {
    var rest := s[k..];
    if |suffix| <= |rest| {
      assert rest[|rest| - |suffix|..] == s[|s| - |suffix|..];
    }
  }

  /** A lone '*' matches every name. */
  lemma StarMatchesAll(s: string)
    ensures Matches("*", s)
  {
    StarSuffix("", s);
  }

  predicate HasWildcard(field: string)
  {
    exists i :: 0 <= i < |field| && field[i] == '*'
  }

  /** getMatchingIndexFields over an index's field names and its aliases. */
  function MatchingIndexFields(indexFields: set<string>, aliases: map<string, set<string>>, field: string, includeAliases: bool): (r: set<string>)
    ensures HasWildcard(field) ==> forall x :: x in r <==>
      ((x in indexFields && Matches(field, x)) ||
       (includeAliases && exists a :: a in aliases && Matches(field, a) && x in aliases[a]))
    ensures !HasWildcard(field) && includeAliases && field in aliases ==> r == aliases[field]
    ensures !HasWildcard(field) && !(includeAliases && field in aliases) ==> r == {field}
  {
    if HasWildcard(field) then
      (set x | x in indexFields && Matches(field, x)) +
      (if includeAliases then (set a, x | a in aliases && Matches(field, a) && x in aliases[a] :: x) else {})
    else if includeAliases && field in aliases then aliases[field]
    else {field}
  }

  /** A name without a wildcard is itself its only match, whether or not it is indexed. */
  lemma MatchingLiteral(indexFields: set<string>, aliases: map<string, set<string>>, field: string)
    requires !HasWildcard(field)
    ensures MatchingIndexFields(indexFields, aliases, field, false) == {field}
    ensures forall x :: x in indexFields && x != field ==> !(StarFree(field) && Matches(field, x))
  {
    forall x | x in indexFields && x != field && StarFree(field)
      ensures !Matches(field, x)
    {
      LiteralMatches(field, x);
    }
  }

  // ---------------------------------------------------------------------------------
  // Facet groups

  predicate SortedBySize(groups: seq<FacetGroup>)
  {
    forall i, j :: 0 <= i < j < |groups| ==> |groups[i].facets| <= |groups[j].facets|
  }

  /** Inserts g after every group no larger than it. */
  function InsertBySize(sorted: seq<FacetGroup>, g: FacetGroup): (r: seq<FacetGroup>)
    ensures multiset(r) == multiset(sorted) + multiset{g}
    ensures |r| == |sorted| + 1
  {
    if |sorted| == 0 then [g]
    else if |sorted[|sorted| - 1].facets| <= |g.facets| then sorted + [g]
    else
      assert sorted == sorted[..|sorted| - 1] + [sorted[|sorted| - 1]];
      InsertBySize(sorted[..|sorted| - 1], g) + [sorted[|sorted| - 1]]
  }

  /** Every group of the insertion is at most b large when g and every group of the list are. */
  lemma {:induction false} InsertBySizeBounded(sorted: seq<FacetGroup>, g: FacetGroup, b: nat)
    requires forall i :: 0 <= i < |sorted| ==> |sorted[i].facets| <= b
    requires |g.facets| <= b
    ensures forall i :: 0 <= i < |InsertBySize(sorted, g)| ==> |InsertBySize(sorted, g)[i].facets| <= b
  {
    if |sorted| > 0 {
      var init := sorted[..|sorted| - 1];
      var last := sorted[|sorted| - 1];
      if |last.facets| <= |g.facets| {
        assert InsertBySize(sorted, g) == sorted + [g];
      } else {
        InsertBySizeBounded(init, g, b);
        assert InsertBySize(sorted, g) == InsertBySize(init, g) + [last];
      }
    }
  }

  lemma {:induction false} InsertBySizeSorted(sorted: seq<FacetGroup>, g: FacetGroup)
    requires SortedBySize(sorted)
    ensures SortedBySize(InsertBySize(sorted, g))
  {
    if |sorted| > 0 && |sorted[|sorted| - 1].facets| > |g.facets| {
      var init := sorted[..|sorted| - 1];
      var last := sorted[|sorted| - 1];
      InsertBySizeSorted(init, g);
      InsertBySizeBounded(init, g, |last.facets|);
      assert InsertBySize(sorted, g) == InsertBySize(init, g) + [last];
    }
  }

  /** The stable sort of the groups by their number of facets (List.sort with
      comparingInt(Set::size)). */
  function SortBySize(groups: seq<FacetGroup>): (r: seq<FacetGroup>)
    ensures multiset(r) == multiset(groups)
  {
    if |groups| == 0 then []
    else
      assert groups == groups[..|groups| - 1] + [groups[|groups| - 1]];
      InsertBySize(SortBySize(groups[..|groups| - 1]), groups[|groups| - 1])
  }

  lemma {:induction false} SortBySizeSorted(groups: seq<FacetGroup>)
    ensures SortedBySize(SortBySize(groups))
  {
    if |groups| > 0 {
      SortBySizeSorted(groups[..|groups| - 1]);
      InsertBySizeSorted(SortBySize(groups[..|groups| - 1]), groups[|groups| - 1]);
    }
  }

  /** The first group holding every requested facet. */
  function FirstCovering(groups: seq<FacetGroup>, facets: set<string>): (r: Option<string>)
  {
    if |groups| == 0 then None
    else if facets <= groups[0].facets then Some(groups[0].name)
    else FirstCovering(groups[1..], facets)
  }

  /** Over groups sorted by size, the first covering group is a smallest covering one, and
      there is none exactly when no group covers the facets. */
  lemma {:induction false} FirstCoveringSmallest(groups: seq<FacetGroup>, facets: set<string>)
    requires SortedBySize(groups)
    ensures FirstCovering(groups, facets).None? <==> forall j :: 0 <= j < |groups| ==> !(facets <= groups[j].facets)
    ensures FirstCovering(groups, facets).Some? ==> exists i :: 0 <= i < |groups| && SmallestCovering(groups, facets, i) && groups[i].name == FirstCovering(groups, facets).value
  {
    if |groups| > 0 {
      if facets <= groups[0].facets {
        assert SmallestCovering(groups, facets, 0);
      } else {
        assert SortedBySize(groups[1..]);
        FirstCoveringSmallest(groups[1..], facets);
        if FirstCovering(groups[1..], facets).Some? {
          var i :| 0 <= i < |groups[1..]| && SmallestCovering(groups[1..], facets, i) && groups[1..][i].name == FirstCovering(groups, facets).value;
          assert SmallestCovering(groups, facets, i + 1) by {
            forall j | 0 <= j < |groups| && facets <= groups[j].facets
              ensures |groups[i + 1].facets| <= |groups[j].facets|
            {
              assert j != 0;
              assert groups[1..][j - 1] == groups[j];
            }
          }
        } else {
          forall j | 0 <= j < |groups|
            ensures !(facets <= groups[j].facets)
          {
            if j > 0 {
              assert groups[1..][j - 1] == groups[j];
            }
          }
        }
      }
    }
  }

  ghost predicate SmallestCovering(groups: seq<FacetGroup>, facets: set<string>, i: int)
  {
    0 <= i < |groups| && facets <= groups[i].facets &&
    forall j :: 0 <= j < |groups| && facets <= groups[j].facets ==> |groups[i].facets| <= |groups[j].facets|
  }

  /** Where group g sits in the list, if it is there. */
  function GroupIndex(groups: seq<FacetGroup>, g: string): (r: Option<nat>)
    ensures r.Some? ==> r.value < |groups| && groups[r.value].name == g && forall j :: 0 <= j < r.value ==> groups[j].name != g
    ensures r.None? ==> forall i :: 0 <= i < |groups| ==> groups[i].name != g
  {
    if |groups| == 0 then None
    else if groups[0].name == g then Some(0)
    else match GroupIndex(groups[1..], g)
      case Some(i) => Some(i + 1)
      case None => None
  }

  /** computeIfAbsent(g, ...).add(facet): a new group goes at the end. */
  function AddToGroup(groups: seq<FacetGroup>, g: string, facet: string): seq<FacetGroup>
  {
    match GroupIndex(groups, g)
    case Some(i) => groups[i := FacetGroup(g, groups[i].facets + {facet})]
    case None => groups + [FacetGroup(g, {facet})]
  }

  predicate DistinctNames(groups: seq<FacetGroup>)
  {
    forall i, j :: 0 <= i < j < |groups| ==> groups[i].name != groups[j].name
  }

  /** The facets of group h, none when there is no such group. */
  function GroupFacets(groups: seq<FacetGroup>, h: string): set<string>
  {
    match GroupIndex(groups, h)
    case Some(i) => groups[i].facets
    case None => {}
  }

  /** Adding a facet to a group adds it to that group only, and keeps one entry per group. */
  lemma AddToGroupFacts(groups: seq<FacetGroup>, g: string, facet: string, h: string)
    requires DistinctNames(groups)
    ensures DistinctNames(AddToGroup(groups, g, facet))
    ensures GroupFacets(AddToGroup(groups, g, facet), h) == GroupFacets(groups, h) + (if h == g then {facet} else {})
  {
    var r := AddToGroup(groups, g, facet);
    GroupIndexUnique(groups, h);
    GroupIndexUnique(r, h);
    match GroupIndex(groups, g)
    case Some(i) =>
    case None =>
      assert r == groups + [FacetGroup(g, {facet})];
      if h == g {
        assert r[|groups|].name == h;
        assert forall j :: 0 <= j < |groups| ==> r[j].name != h by {
          forall j | 0 <= j < |groups|
            ensures r[j].name != h
          {
            assert r[j] == groups[j];
          }
        }
      } else if GroupIndex(groups, h).Some? {
        var i := GroupIndex(groups, h).value;
        assert r[i] == groups[i];
        assert forall j :: 0 <= j < i ==> r[j].name != h by {
          forall j | 0 <= j < i
            ensures r[j].name != h
          {
            assert r[j] == groups[j];
          }
        }
      }
  }

  lemma GroupIndexUnique(groups: seq<FacetGroup>, h: string)
    ensures forall i :: 0 <= i < |groups| && groups[i].name == h && (forall j :: 0 <= j < i ==> groups[j].name != h) ==> GroupIndex(groups, h) == Some(i)
  {
    if |groups| > 0 {
      GroupIndexUnique(groups[1..], h);
      forall i | 0 < i < |groups| && groups[i].name == h && (forall j :: 0 <= j < i ==> groups[j].name != h)
        ensures GroupIndex(groups, h) == Some(i)
      {
        assert groups[1..][i - 1] == groups[i];
        forall j | 0 <= j < i - 1
          ensures groups[1..][j].name != h
        {
          assert groups[1..][j] == groups[j + 1];
        }
      }
    }
  }

  // ---------------------------------------------------------------------------------
  // The tables built from the field configurations

  /** indexFieldMapping and sortFieldMapping. */
  datatype FieldTables = FieldTables(indexFields: map<string, IndexFieldInfo>, sortFields: map<string, SortFieldInfo>)

  /** facetAsMap, the individually stored facets and the facet groups in the order they
      were first named. */
  datatype FacetTables = FacetTables(facetAs: map<string, bool>, individualFacets: set<string>, groups: seq<FacetGroup>)

  const NO_FIELDS: FieldTables := FieldTables(map[], map[])
  const NO_FACETS: FacetTables := FacetTables(map[], {}, [])

  /** The sort information of one sortAs of a field. */
  function SortInfo(n: Naming, fc: FieldConfig, sortAs: SortAs): SortFieldInfo
  {
    SortFieldInfo(Some(SortField(n, sortAs.sortFieldName, fc.fieldType)), fc.fieldType, Some(sortAs.stringHandling))
  }

  function SortInfos(n: Naming, fc: FieldConfig, k: nat): seq<SortFieldInfo>
    requires k <= |fc.sortAs|
  {
    if k == 0 then [] else SortInfos(n, fc, k - 1) + [SortInfo(n, fc, fc.sortAs[k - 1])]
  }

  /** sortFieldMapping after the first k sortAs of a field are put. */
  function PutSorts(n: Naming, sortFields: map<string, SortFieldInfo>, fc: FieldConfig, k: nat): map<string, SortFieldInfo>
    requires k <= |fc.sortAs|
  {
    if k == 0 then sortFields
    else PutSorts(n, sortFields, fc, k - 1)[fc.sortAs[k - 1].sortFieldName := SortInfo(n, fc, fc.sortAs[k - 1])]
  }

  /** The internal sort field of the first sort information with handling h. */
  function FirstSortWith(infos: seq<SortFieldInfo>, h: StringHandling): (r: Option<string>)
    ensures r.Some? ==> exists i :: (0 <= i < |infos| && infos[i].stringHandling == Some(h) && infos[i].internalSortFieldName == r &&
      forall j :: 0 <= j < i ==> infos[j].stringHandling != Some(h))
    ensures r.None? && (forall i :: 0 <= i < |infos| ==> infos[i].internalSortFieldName.Some?) ==>
      forall i :: 0 <= i < |infos| ==> infos[i].stringHandling != Some(h)
  {
    if |infos| == 0 then None
    else if infos[0].stringHandling == Some(h) then infos[0].internalSortFieldName
    else
      var r := FirstSortWith(infos[1..], h);
      assert forall i :: 1 <= i < |infos| ==> infos[i] == infos[1..][i - 1];
      r
  }

  /** The sort field a query on the indexed field can use directly: for strings only the
      keyword analyzer with a STANDARD sort, or the lower-case keyword analyzer with a
      LOWERCASE sort; for other types the first sort field, as they all sort alike. */
  function InternalSortField(c: Conventions, fc: FieldConfig, infos: seq<SortFieldInfo>, indexAs: IndexAs): Option<string>
  {
    if IsString(fc.fieldType) then
      if indexAs.analyzerName == c.keywordAnalyzer then FirstSortWith(infos, STANDARD)
      else if indexAs.analyzerName == c.lcKeywordAnalyzer then FirstSortWith(infos, LOWERCASE)
      else None
    else if |infos| > 0 then infos[0].internalSortFieldName
    else None
  }

  /** The entries one indexAs of a field puts: its list length, for strings its character
      length, and the field itself. */
  function AddIndexAs(c: Conventions, t: FieldTables, fc: FieldConfig, infos: seq<SortFieldInfo>, indexAs: IndexAs): FieldTables
  {
    var name := indexAs.indexFieldName;
    var n := c.naming;
    var stored := Some(fc.storedFieldName);
    var f1 := t.indexFields[ListLengthWrap(name) := IndexFieldInfo(stored, ListLengthIndexField(n, name), Some(ListLengthSortField(n, name)), NUMERIC_INT, Some(indexAs))];
    var s1 := t.sortFields[ListLengthWrap(name) := SortFieldInfo(Some(ListLengthSortField(n, name)), NUMERIC_INT, None)];
    var f2 := if IsString(fc.fieldType) then f1[CharLengthWrap(name) := IndexFieldInfo(stored, CharLengthIndexField(n, name), Some(CharLengthSortField(n, name)), NUMERIC_INT, Some(indexAs))] else f1;
    var s2 := if IsString(fc.fieldType) then s1[CharLengthWrap(name) := SortFieldInfo(Some(CharLengthSortField(n, name)), NUMERIC_INT, None)] else s1;
    FieldTables(f2[name := IndexFieldInfo(stored, IndexField(name, fc.fieldType), InternalSortField(c, fc, infos, indexAs), fc.fieldType, Some(indexAs))], s2)
  }

  /** One indexAs: the list-length entry is always a NUMERIC_INT field, a character-length
      entry is added for strings only, the field itself is indexed under its type's name, and
      every other entry stays as it was. */
  lemma AddIndexAsFacts(c: Conventions, t: FieldTables, fc: FieldConfig, infos: seq<SortFieldInfo>, indexAs: IndexAs, k: string)
    ensures var r := AddIndexAs(c, t, fc, infos, indexAs);
      var name := indexAs.indexFieldName;
      r.indexFields[ListLengthWrap(name)].fieldType == NUMERIC_INT &&
      r.indexFields[ListLengthWrap(name)].indexFieldName == ListLengthIndexField(c.naming, name) &&
      r.sortFields[ListLengthWrap(name)] == SortFieldInfo(Some(ListLengthSortField(c.naming, name)), NUMERIC_INT, None) &&
      (IsString(fc.fieldType) ==> (r.indexFields[CharLengthWrap(name)].fieldType == NUMERIC_INT &&
        r.sortFields[CharLengthWrap(name)].fieldType == NUMERIC_INT)) &&
      (!IsString(fc.fieldType) ==> ((CharLengthWrap(name) in r.indexFields <==> CharLengthWrap(name) in t.indexFields) &&
        (CharLengthWrap(name) in t.indexFields ==> r.indexFields[CharLengthWrap(name)] == t.indexFields[CharLengthWrap(name)]))) &&
      r.indexFields[name].indexFieldName == IndexField(name, fc.fieldType) && r.indexFields[name].fieldType == fc.fieldType &&
      (k != name && k != ListLengthWrap(name) && k != CharLengthWrap(name) ==>
        (k in r.indexFields <==> k in t.indexFields) && (k in t.indexFields ==> r.indexFields[k] == t.indexFields[k]) &&
        (k in r.sortFields <==> k in t.sortFields) && (k in t.sortFields ==> r.sortFields[k] == t.sortFields[k]))
  {
    var name := indexAs.indexFieldName;
    assert |ListLengthWrap(name)| != |name| && |CharLengthWrap(name)| != |name| && |ListLengthWrap(name)| != |CharLengthWrap(name)|;
  }

  /** The sort field an indexed string field is searched with is a sort of the same handling
      its keyword analyzer applies, the first such; other analyzers get none. */
  lemma InternalSortFieldFacts(c: Conventions, fc: FieldConfig, infos: seq<SortFieldInfo>, indexAs: IndexAs)
    requires IsString(fc.fieldType)
    ensures InternalSortField(c, fc, infos, indexAs).Some? ==>
      (indexAs.analyzerName == c.keywordAnalyzer || indexAs.analyzerName == c.lcKeywordAnalyzer) &&
      exists i :: 0 <= i < |infos| && infos[i].internalSortFieldName == InternalSortField(c, fc, infos, indexAs) &&
        infos[i].stringHandling == Some(if indexAs.analyzerName == c.keywordAnalyzer then STANDARD else LOWERCASE)
  {
  }

  function AddIndexAsAll(c: Conventions, t: FieldTables, fc: FieldConfig, infos: seq<SortFieldInfo>, k: nat): FieldTables
    requires k <= |fc.indexAs|
  {
    if k == 0 then t else AddIndexAs(c, AddIndexAsAll(c, t, fc, infos, k - 1), fc, infos, fc.indexAs[k - 1])
  }

  /** One facetAs: the facet exists, is stored individually when asked, and joins each of
      its groups. */
  function AddFacetAs(t: FacetTables, facetAs: FacetAs): FacetTables
  {
    FacetTables(t.facetAs[facetAs.facetName := true],
      if facetAs.storeInOwnGroup then t.individualFacets + {facetAs.facetName} else t.individualFacets,
      AddToGroups(t.groups, facetAs.facetGroups, facetAs.facetName, |facetAs.facetGroups|))
  }

  function AddToGroups(groups: seq<FacetGroup>, groupNames: seq<string>, facet: string, k: nat): seq<FacetGroup>
    requires k <= |groupNames|
  {
    if k == 0 then groups else AddToGroup(AddToGroups(groups, groupNames, facet, k - 1), groupNames[k - 1], facet)
  }

  /** A facet joins exactly the groups it names, and each group stays listed once. */
  lemma {:induction false} AddToGroupsFacts(groups: seq<FacetGroup>, groupNames: seq<string>, facet: string, k: nat, h: string)
    requires k <= |groupNames| && DistinctNames(groups)
    ensures DistinctNames(AddToGroups(groups, groupNames, facet, k))
    ensures GroupFacets(AddToGroups(groups, groupNames, facet, k), h) == GroupFacets(groups, h) + (if h in groupNames[..k] then {facet} else {})
  {
    if k > 0 {
      AddToGroupsFacts(groups, groupNames, facet, k - 1, h);
      AddToGroupFacts(AddToGroups(groups, groupNames, facet, k - 1), groupNames[k - 1], facet, h);
      assert groupNames[..k] == groupNames[..k - 1] + [groupNames[k - 1]];
    }
  }

  function AddFacetAsAll(t: FacetTables, facets: seq<FacetAs>, k: nat): FacetTables
    requires k <= |facets|
  {
    if k == 0 then t else AddFacetAs(AddFacetAsAll(t, facets, k - 1), facets[k - 1])
  }

  /** The facets of a field are marked as existing, and those asking for their own group as
      stored individually. */
  lemma {:induction false} AddFacetAsAllFacts(t: FacetTables, facets: seq<FacetAs>, k: nat, f: string)
    requires k <= |facets|
    ensures f in AddFacetAsAll(t, facets, k).facetAs <==> f in t.facetAs || FacetIn(facets[..k], f, false)
    ensures f in AddFacetAsAll(t, facets, k).individualFacets <==> f in t.individualFacets || FacetIn(facets[..k], f, true)
  {
    if k > 0 {
      AddFacetAsAllFacts(t, facets, k - 1, f);
      FacetInSnoc(facets[..k - 1], facets[k - 1], f);
      assert facets[..k] == facets[..k - 1] + [facets[k - 1]];
    }
  }

  /** A facet some facetAs of the list names (one asking for its own group, if ownGroup). */
  ghost predicate FacetIn(facets: seq<FacetAs>, f: string, ownGroup: bool)
  {
    exists j :: 0 <= j < |facets| && facets[j].facetName == f && (ownGroup ==> facets[j].storeInOwnGroup)
  }

  lemma FacetInSnoc(facets: seq<FacetAs>, last: FacetAs, f: string)
    ensures FacetIn(facets + [last], f, false) <==> FacetIn(facets, f, false) || last.facetName == f
    ensures FacetIn(facets + [last], f, true) <==> FacetIn(facets, f, true) || (last.facetName == f && last.storeInOwnGroup)
  {
    var s := facets + [last];
    assert s[|facets|] == last;
    assert forall j :: 0 <= j < |facets| ==> s[j] == facets[j];
  }

  /** The index and sort entries one field configuration adds, in the order of the source:
      its sorts, then its indexAs entries. */
  function AddFieldConfigFields(c: Conventions, t: FieldTables, fc: FieldConfig): FieldTables
  {
    var infos := SortInfos(c.naming, fc, |fc.sortAs|);
    AddIndexAsAll(c, t.(sortFields := PutSorts(c.naming, t.sortFields, fc, |fc.sortAs|)), fc, infos, |fc.indexAs|)
  }

  /** The index and sort entries of the first k field configurations. */
  function FieldTablesOf(c: Conventions, fcs: seq<FieldConfig>, k: nat): FieldTables
    requires k <= |fcs|
  {
    if k == 0 then NO_FIELDS else AddFieldConfigFields(c, FieldTablesOf(c, fcs, k - 1), fcs[k - 1])
  }

  /** The facet entries of the first k field configurations. */
  function FacetTablesOf(fcs: seq<FieldConfig>, k: nat): FacetTables
    requires k <= |fcs|
  {
    if k == 0 then NO_FACETS else AddFacetAsAll(FacetTablesOf(fcs, k - 1), fcs[k - 1].facetAs, |fcs[k - 1].facetAs|)
  }

  /** The entries every index has, put after the configured ones. */
  function WithBuiltIns(c: Conventions, t: FieldTables): FieldTables
  {
    var idSort := SortField(c.naming, c.idSortField, STRING);
    FieldTables(
      t.indexFields
        [c.idField := IndexFieldInfo(None, c.idField, Some(idSort), STRING, None)]
        [c.timestampField := IndexFieldInfo(None, c.timestampField, None, DATE, None)]
        [c.facetDrillDownField := IndexFieldInfo(None, c.facetDrillDownField, None, STRING, None)]
        [c.fieldsListField := IndexFieldInfo(None, c.fieldsListField, None, STRING, None)],
      t.sortFields
        [c.scoreField := SortFieldInfo(None, NUMERIC_FLOAT, None)]
        [c.idSortField := SortFieldInfo(Some(idSort), STRING, Some(STANDARD))])
  }

  /** The fields one mapping stands for: what each of its first k names or patterns matches
      among the index fields, and the alias itself when it includes itself. */
  function PatternFields(indexFields: set<string>, patterns: seq<string>, k: nat): set<string>
    requires k <= |patterns|
  {
    if k == 0 then {} else PatternFields(indexFields, patterns, k - 1) + MatchingIndexFields(indexFields, map[], patterns[k - 1], false)
  }

  function MappingFields(indexFields: set<string>, fm: FieldMapping): set<string>
  {
    PatternFields(indexFields, fm.fieldOrFieldPatterns, |fm.fieldOrFieldPatterns|) + (if fm.includeSelf then {fm.alias} else {})
  }

  function AliasTable(indexFields: set<string>, fms: seq<FieldMapping>, k: nat): map<string, set<string>>
    requires k <= |fms|
  {
    if k == 0 then map[] else AliasTable(indexFields, fms, k - 1)[fms[k - 1].alias := MappingFields(indexFields, fms[k - 1])]
  }

  /** An alias stands for what its last mapping lists: every name without a wildcard, every
      index field a pattern matches, itself when it includes itself, and nothing else. */
  lemma {:induction false} AliasTableFacts(indexFields: set<string>, fms: seq<FieldMapping>, k: nat, i: nat, x: string)
    requires i < k <= |fms|
    requires forall j :: i < j < k ==> fms[j].alias != fms[i].alias
    ensures fms[i].alias in AliasTable(indexFields, fms, k)
    ensures x in AliasTable(indexFields, fms, k)[fms[i].alias] <==>
      (fms[i].includeSelf && x == fms[i].alias) ||
      exists p :: p in fms[i].fieldOrFieldPatterns &&
        ((!HasWildcard(p) && x == p) || (HasWildcard(p) && x in indexFields && Matches(p, x)))
  {
    if k - 1 > i {
      AliasTableFacts(indexFields, fms, k - 1, i, x);
    } else {
      var ps := fms[i].fieldOrFieldPatterns;
      PatternFieldsFacts(indexFields, ps, |ps|, x);
    }
  }

  lemma {:induction false} PatternFieldsFacts(indexFields: set<string>, patterns: seq<string>, k: nat, x: string)
    requires k <= |patterns|
    ensures x in PatternFields(indexFields, patterns, k) <==>
      exists p :: p in patterns[..k] && ((!HasWildcard(p) && x == p) || (HasWildcard(p) && x in indexFields && Matches(p, x)))
  {
    if k > 0 {
      PatternFieldsFacts(indexFields, patterns, k - 1, x);
      assert patterns[..k] == patterns[..k - 1] + [patterns[k - 1]];
    }
  }

  /** indexFieldMapping and sortFieldMapping of ServerIndexConfigData for the given settings. */
  function BuiltFields(c: Conventions, settings: IndexSettings): FieldTables
  {
    WithBuiltIns(c, FieldTablesOf(c, settings.fieldConfigs, |settings.fieldConfigs|))
  }

  /** The facet tables of ServerIndexConfigData, its groups sorted by size. */
  function BuiltFacets(settings: IndexSettings): FacetTables
  {
    var t := FacetTablesOf(settings.fieldConfigs, |settings.fieldConfigs|);
    t.(groups := SortBySize(t.groups))
  }

  /** A facet one of the first k fields facets as (in its own group when asked). */
  ghost predicate Faceted(fcs: seq<FieldConfig>, k: int, f: string, ownGroup: bool)
    requires 0 <= k <= |fcs|
  {
    k > 0 && (Faceted(fcs, k - 1, f, ownGroup) || FacetIn(fcs[k - 1].facetAs, f, ownGroup))
  }

  /** existingFacet and isStoredIndividually over the configured fields: a facet exists
      exactly when some field facets as it, and is stored individually exactly when one of
      those asks for its own group. */
  lemma {:induction false} ConfiguredFacets(fcs: seq<FieldConfig>, k: nat, f: string)
    requires k <= |fcs|
    ensures f in FacetTablesOf(fcs, k).facetAs <==> Faceted(fcs, k, f, false)
    ensures f in FacetTablesOf(fcs, k).individualFacets <==> Faceted(fcs, k, f, true)
  {
    if k > 0 {
      ConfiguredFacets(fcs, k - 1, f);
      var facets := fcs[k - 1].facetAs;
      AddFacetAsAllFacts(FacetTablesOf(fcs, k - 1), facets, |facets|, f);
      assert facets[..|facets|] == facets;
    }
  }

  // ---------------------------------------------------------------------------------
  // The constructor's loops

  /** The sort informations of a field, each put in sortFieldMapping under its sort name. */
  method PutSortInfos(n: Naming, sortFields: map<string, SortFieldInfo>, fc: FieldConfig) returns (infos: seq<SortFieldInfo>, r: map<string, SortFieldInfo>)
    ensures infos == SortInfos(n, fc, |fc.sortAs|) && r == PutSorts(n, sortFields, fc, |fc.sortAs|)
  {
    infos := [];
    r := sortFields;
    var k := 0;
    while k < |fc.sortAs|
      invariant 0 <= k <= |fc.sortAs|
      invariant infos == SortInfos(n, fc, k) && r == PutSorts(n, sortFields, fc, k)
    {
      var info := SortInfo(n, fc, fc.sortAs[k]);
      assert SortInfos(n, fc, k + 1) == SortInfos(n, fc, k) + [info];
      assert PutSorts(n, sortFields, fc, k + 1) == PutSorts(n, sortFields, fc, k)[fc.sortAs[k].sortFieldName := info];
      infos := infos + [info];
      r := r[fc.sortAs[k].sortFieldName := info];
      k := k + 1;
    }
  }

  /** The loop that looks for the first sort of a handling and breaks there. */
  method FindSortWith(infos: seq<SortFieldInfo>, h: StringHandling) returns (r: Option<string>)
    ensures r == FirstSortWith(infos, h)
  {
    r := None;
    var k := 0;
    while k < |infos|
      invariant 0 <= k <= |infos|
      invariant FirstSortWith(infos, h) == FirstSortWith(infos[k..], h)
      invariant r.None?
    {
      if infos[k].stringHandling == Some(h) {
        r := infos[k].internalSortFieldName;
        break;
      }
      assert infos[k..][1..] == infos[k + 1..];
      k := k + 1;
    }
  }

  /** The loop over a field's indexAs. */
  method AddIndexAsEach(c: Conventions, t: FieldTables, fc: FieldConfig, infos: seq<SortFieldInfo>) returns (r: FieldTables)
    ensures r == AddIndexAsAll(c, t, fc, infos, |fc.indexAs|)
  {
    r := t;
    var k := 0;
    while k < |fc.indexAs|
      invariant 0 <= k <= |fc.indexAs|
      invariant r == AddIndexAsAll(c, t, fc, infos, k)
    {
      var indexAs := fc.indexAs[k];
      var name := indexAs.indexFieldName;
      var n := c.naming;
      var indexFields := r.indexFields[ListLengthWrap(name) := IndexFieldInfo(Some(fc.storedFieldName), ListLengthIndexField(n, name), Some(ListLengthSortField(n, name)), NUMERIC_INT, Some(indexAs))];
      var sortFields := r.sortFields[ListLengthWrap(name) := SortFieldInfo(Some(ListLengthSortField(n, name)), NUMERIC_INT, None)];
      var internalSortFieldName: Option<string> := None;
      if IsString(fc.fieldType) {
        indexFields := indexFields[CharLengthWrap(name) := IndexFieldInfo(Some(fc.storedFieldName), CharLengthIndexField(n, name), Some(CharLengthSortField(n, name)), NUMERIC_INT, Some(indexAs))];
        sortFields := sortFields[CharLengthWrap(name) := SortFieldInfo(Some(CharLengthSortField(n, name)), NUMERIC_INT, None)];
        if indexAs.analyzerName == c.keywordAnalyzer {
          internalSortFieldName := FindSortWith(infos, STANDARD);
        } else if indexAs.analyzerName == c.lcKeywordAnalyzer {
          internalSortFieldName := FindSortWith(infos, LOWERCASE);
        }
      } else if |infos| > 0 {
        internalSortFieldName := infos[0].internalSortFieldName;
      }
      indexFields := indexFields[name := IndexFieldInfo(Some(fc.storedFieldName), IndexField(name, fc.fieldType), internalSortFieldName, fc.fieldType, Some(indexAs))];
      r := FieldTables(indexFields, sortFields);
      k := k + 1;
    }
  }

  /** The loop over a field's facetAs, with computeIfAbsent for each of its groups. */
  method AddFacetAsEach(t: FacetTables, facets: seq<FacetAs>) returns (r: FacetTables)
    ensures r == AddFacetAsAll(t, facets, |facets|)
  {
    r := t;
    var k := 0;
    while k < |facets|
      invariant 0 <= k <= |facets|
      invariant r == AddFacetAsAll(t, facets, k)
    {
      var facetAs := facets[k];
      var facetAsMap := r.facetAs[facetAs.facetName := true];
      var individual := r.individualFacets;
      if facetAs.storeInOwnGroup {
        individual := individual + {facetAs.facetName};
      }
      var groups := r.groups;
      var g := 0;
      while g < |facetAs.facetGroups|
        invariant 0 <= g <= |facetAs.facetGroups|
        invariant groups == AddToGroups(r.groups, facetAs.facetGroups, facetAs.facetName, g)
      {
        groups := AddToGroup(groups, facetAs.facetGroups[g], facetAs.facetName);
        g := g + 1;
      }
      r := FacetTables(facetAsMap, individual, groups);
      k := k + 1;
    }
  }

  /** The fields one mapping stands for, gathered pattern by pattern. */
  method CollectMappingFields(indexFields: set<string>, fm: FieldMapping) returns (matchingFields: set<string>)
    ensures matchingFields == MappingFields(indexFields, fm)
  {
    matchingFields := {};
    var k := 0;
    while k < |fm.fieldOrFieldPatterns|
      invariant 0 <= k <= |fm.fieldOrFieldPatterns|
      invariant matchingFields == PatternFields(indexFields, fm.fieldOrFieldPatterns, k)
    {
      matchingFields := matchingFields + MatchingIndexFields(indexFields, map[], fm.fieldOrFieldPatterns[k], false);
      k := k + 1;
    }
    if fm.includeSelf {
      matchingFields := matchingFields + {fm.alias};
    }
  }

  /** The constructor's loop over the field configurations. */
  method BuildFieldTables(c: Conventions, fcs: seq<FieldConfig>) returns (fields: FieldTables, facets: FacetTables)
    ensures fields == FieldTablesOf(c, fcs, |fcs|) && facets == FacetTablesOf(fcs, |fcs|)
  {
    fields, facets := NO_FIELDS, NO_FACETS;
    var k := 0;
    while k < |fcs|
      invariant 0 <= k <= |fcs|
      invariant fields == FieldTablesOf(c, fcs, k) && facets == FacetTablesOf(fcs, k)
    {
      fields, facets := AddFieldConfigStep(c, fields, facets, fcs[k]);
      TablesOfStep(c, fcs, k);
      k := k + 1;
    }
  }

  lemma TablesOfStep(c: Conventions, fcs: seq<FieldConfig>, k: nat)
    requires k < |fcs|
    ensures FieldTablesOf(c, fcs, k + 1) == AddFieldConfigFields(c, FieldTablesOf(c, fcs, k), fcs[k])
    ensures FacetTablesOf(fcs, k + 1) == AddFacetAsAll(FacetTablesOf(fcs, k), fcs[k].facetAs, |fcs[k].facetAs|)
  {
  }

  /** One round of the loop over the field configurations: sorts, indexAs, facetAs. */
  method AddFieldConfigStep(c: Conventions, fields: FieldTables, facets: FacetTables, fc: FieldConfig) returns (fields': FieldTables, facets': FacetTables)
    ensures fields' == AddFieldConfigFields(c, fields, fc) && facets' == AddFacetAsAll(facets, fc.facetAs, |fc.facetAs|)
  {
    var infos, sortFields := PutSortInfos(c.naming, fields.sortFields, fc);
    fields' := AddIndexAsEach(c, fields.(sortFields := sortFields), fc, infos);
    facets' := AddFacetAsEach(facets, fc.facetAs);
  }

  /** The constructor's loop over the field mappings: each alias is put with the fields its
      mapping stands for. */
  method BuildAliasTable(indexFields: set<string>, fms: seq<FieldMapping>) returns (aliases: map<string, set<string>>)
    ensures aliases == AliasTable(indexFields, fms, |fms|)
  {
    aliases := map[];
    var k := 0;
    while k < |fms|
      invariant 0 <= k <= |fms|
      invariant aliases == AliasTable(indexFields, fms, k)
    {
      var matchingFields := CollectMappingFields(indexFields, fms[k]);
      aliases := aliases[fms[k].alias := matchingFields];
      k := k + 1;
    }
  }

  class ServerIndexConfigData {
    const conventions: Conventions
    const indexSettings: IndexSettings
    var indexFieldMapping: map<string, IndexFieldInfo>
    var sortFieldMapping: map<string, SortFieldInfo>
    var facetAsMap: map<string, bool>
    var individualFacets: set<string>
    var fieldMappingToFields: map<string, set<string>>
    /** The facet groups, smallest first. */
    var facetGroupToFacets: seq<FacetGroup>

    ghost predicate Valid()
      reads this
    {
      SortedBySize(facetGroupToFacets)
    }

    constructor (conventions: Conventions, indexSettings: IndexSettings)
      ensures Valid()
      ensures this.conventions == conventions && this.indexSettings == indexSettings
      ensures indexFieldMapping == BuiltFields(conventions, indexSettings).indexFields
      ensures sortFieldMapping == BuiltFields(conventions, indexSettings).sortFields
      ensures facetAsMap == BuiltFacets(indexSettings).facetAs && individualFacets == BuiltFacets(indexSettings).individualFacets
      ensures facetGroupToFacets == BuiltFacets(indexSettings).groups
      ensures fieldMappingToFields == AliasTable(indexFieldMapping.Keys, indexSettings.fieldMappings, |indexSettings.fieldMappings|)
    {
      this.conventions := conventions;
      this.indexSettings := indexSettings;
      var fields, facets := BuildFieldTables(conventions, indexSettings.fieldConfigs);
      fields := WithBuiltIns(conventions, fields);
      var aliases := BuildAliasTable(fields.indexFields.Keys, indexSettings.fieldMappings);
      indexFieldMapping := fields.indexFields;
      sortFieldMapping := fields.sortFields;
      facetAsMap := facets.facetAs;
      individualFacets := facets.individualFacets;
      fieldMappingToFields := aliases;
      SortBySizeSorted(facets.groups);
      facetGroupToFacets := SortBySize(facets.groups);
    }

    /** getMatchingIndexFields */
    function GetMatchingIndexFields(field: string, includeAliases: bool): set<string>
      reads this
    {
      MatchingIndexFields(indexFieldMapping.Keys, fieldMappingToFields, field, includeAliases)
    }

    /** getFacetGroupForFacets: the first group, in size order, holding all the facets. */
    method GetFacetGroupForFacets(facets: set<string>) returns (r: Option<string>)
      requires Valid()
      ensures r.None? <==> forall j :: 0 <= j < |facetGroupToFacets| ==> !(facets <= facetGroupToFacets[j].facets)
      ensures r.Some? ==> exists i :: SmallestCovering(facetGroupToFacets, facets, i) && facetGroupToFacets[i].name == r.value
    {
      FirstCoveringSmallest(facetGroupToFacets, facets);
      var k := 0;
      while k < |facetGroupToFacets|
        invariant 0 <= k <= |facetGroupToFacets|
        invariant FirstCovering(facetGroupToFacets, facets) == FirstCovering(facetGroupToFacets[k..], facets)
      {
        if facets <= facetGroupToFacets[k].facets {
          return Some(facetGroupToFacets[k].name);
        }
        assert facetGroupToFacets[k..][1..] == facetGroupToFacets[k + 1..];
        k := k + 1;
      }
      return None;
    }
  }
}
