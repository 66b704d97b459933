/** The order in which merged search results are returned (ZuliaPostSortingComparator, and the
    identical comparator written inline in QueryCombiner): field by field through the sort
    request, missing values first unless the field asks for them last, descending fields
    reversed, and the score when the request names no field. */
module PostSorting {
  import opened Wrappers
  import opened JavaInt
  import opened FieldTypes
  import QueryParser

  /** One value of a result's sort-values list; `hasValue` is false (the message's `exists` flag) when the document has no
      value for the field. Floating-point values are modelled as exact reals. */
  datatype SortValue = SortValue(
    hasValue: bool, intValue: int, longValue: int, dateValue: int,
    floatValue: real, doubleValue: real, stringValue: string)

  datatype Direction = ASCENDING | DESCENDING

  datatype FieldSort = FieldSort(sortField: string, direction: Direction, missingLast: bool)

  /** A hit as a shard returns it: which index and shard it came from, its rank there, its
      score, one sort value per requested sort field, and the stored document (opaque here). */
  datatype ScoredResult = ScoredResult(
    uniqueId: string, score: real, indexName: string, shard: int, resultIndex: int,
    sortValues: seq<SortValue>, timestamp: int, document: seq<bv8>)

  /** The score field's name, the naming constants, and the sort type of each sort field. */
  datatype SortContext = SortContext(naming: Naming, scoreField: string, sortTypes: map<string, FieldType>)

  /** Every sort field survives the length-field rewrite (which throws on names made only of
      one, three, four or five bars) and every result has a sort value for every sort field,
      as the shards build them. */
  predicate Sortable(ctx: SortContext, sorts: seq<FieldSort>, r: ScoredResult)
  {
    |r.sortValues| >= |sorts| && RewritableFields(ctx, sorts)
  }

  predicate RewritableFields(ctx: SortContext, sorts: seq<FieldSort>)
  {
    forall i :: 0 <= i < |sorts| ==> QueryParser.RewriteLengthFields(ctx.naming, sorts[i].sortField).Ok?
  }

  /** ScoreCompare: higher scores first. */
  function ScoreCompare(a: ScoredResult, b: ScoredResult): (r: int)
    ensures r < 0 <==> a.score > b.score
    ensures r == 0 <==> a.score == b.score
  {
    CompareReals(b.score, a.score)
  }

  /** ReverseScoreCompare: lower scores first. */
  function ReverseScoreCompare(a: ScoredResult, b: ScoredResult): (r: int)
    ensures r == -ScoreCompare(a, b)
  {
    CompareReals(a.score, b.score)
  }

  /** The type a sort field is compared as: a length field is a long, any other field has the
      type recorded for it, and a field with no recorded type is compared as a string. */
  function SortTypeOf(ctx: SortContext, field: string): (r: Option<FieldType>)
    requires QueryParser.RewriteLengthFields(ctx.naming, field).Ok?
    ensures QueryParser.RewriteLengthFields(ctx.naming, field).value != field ==> r == Some(NUMERIC_LONG)
  {
    if QueryParser.RewriteLengthFields(ctx.naming, field).value != field then Some(NUMERIC_LONG)
    else if field in ctx.sortTypes then Some(ctx.sortTypes[field])
    else None
  }

  /** Comparator.nullsFirst / nullsLast around a comparison `c` of two present values. */
  function WithMissing(aExists: bool, bExists: bool, missingLast: bool, c: int): (r: int)
    ensures !aExists && bExists ==> (r < 0 <==> !missingLast)
    ensures aExists && !bExists ==> (r < 0 <==> missingLast)
    ensures !aExists && !bExists ==> r == 0
    ensures aExists && bExists ==> r == c
  {
    if !aExists && !bExists then 0
    else if !aExists then (if missingLast then 1 else -1)
    else if !bExists then (if missingLast then -1 else 1)
    else c
  }

  /** The comparison of two present values of the given type. */
  function PresentCompare(t: Option<FieldType>, x: SortValue, y: SortValue): (r: int)
    ensures r == -1 || r == 0 || r == 1
  {
    if t == Some(NUMERIC_INT) then CompareInts(x.intValue, y.intValue)
    else if t == Some(NUMERIC_LONG) then CompareInts(x.longValue, y.longValue)
    else if t == Some(DATE) then CompareInts(x.dateValue, y.dateValue)
    else if t == Some(NUMERIC_FLOAT) then CompareReals(x.floatValue, y.floatValue)
    else if t == Some(NUMERIC_DOUBLE) then CompareReals(x.doubleValue, y.doubleValue)
    else CompareCodePoints(x.stringValue, y.stringValue)
  }

  /** One sort field's verdict on two results; `i` is the field's position in the request. */
  function FieldCompare(ctx: SortContext, fs: FieldSort, i: nat, a: ScoredResult, b: ScoredResult): (r: int)
    requires QueryParser.RewriteLengthFields(ctx.naming, fs.sortField).Ok?
    requires i < |a.sortValues| && i < |b.sortValues|
    ensures r == -1 || r == 0 || r == 1
  {
    if fs.sortField == ctx.scoreField then
      if fs.direction == DESCENDING then ScoreCompare(a, b) else ReverseScoreCompare(a, b)
    else
      var x, y := a.sortValues[i], b.sortValues[i];
      var c := WithMissing(x.hasValue, y.hasValue, fs.missingLast, PresentCompare(SortTypeOf(ctx, fs.sortField), x, y));
      if fs.direction == DESCENDING then -c else c
  }

  /** The fields from position i on: the first one that tells the results apart decides. */
  function CompareFrom(ctx: SortContext, sorts: seq<FieldSort>, i: nat, a: ScoredResult, b: ScoredResult): (r: int)
    requires i <= |sorts| && Sortable(ctx, sorts, a) && Sortable(ctx, sorts, b)
    decreases |sorts| - i
  {
    if i == |sorts| then 0
    else
      var c := FieldCompare(ctx, sorts[i], i, a, b);
      if c != 0 then c else CompareFrom(ctx, sorts, i + 1, a, b)
  }

  /** ZuliaPostSortingComparator.compare. */
  function Compare(ctx: SortContext, sorts: seq<FieldSort>, a: ScoredResult, b: ScoredResult): int
    requires Sortable(ctx, sorts, a) && Sortable(ctx, sorts, b)
  {
    if |sorts| == 0 then ScoreCompare(a, b) else CompareFrom(ctx, sorts, 0, a, b)
  }

  /** With no sort fields the results are ordered by score, highest first. */
  lemma NoSortFieldsMeansScore(ctx: SortContext, a: ScoredResult, b: ScoredResult)
    requires Sortable(ctx, [], a) && Sortable(ctx, [], b)
    ensures Compare(ctx, [], a, b) < 0 <==> a.score > b.score
    ensures Compare(ctx, [], a, b) == 0 <==> a.score == b.score
  {
  }

  /** A result missing the field sorts before one that has it, unless the field asks for
      missing values last; descending order reverses both. */
  lemma MissingValuesFirst(ctx: SortContext, fs: FieldSort, i: nat, a: ScoredResult, b: ScoredResult)
    requires QueryParser.RewriteLengthFields(ctx.naming, fs.sortField).Ok?
    requires i < |a.sortValues| && i < |b.sortValues|
    requires fs.sortField != ctx.scoreField
    requires !a.sortValues[i].hasValue && b.sortValues[i].hasValue
    ensures FieldCompare(ctx, fs, i, a, b) < 0 <==> (!fs.missingLast <==> fs.direction == ASCENDING)
  {
  }

  /** DESCENDING negates the comparison of a non-score field. */
  lemma DescendingNegates(ctx: SortContext, fs: FieldSort, i: nat, a: ScoredResult, b: ScoredResult)
    requires QueryParser.RewriteLengthFields(ctx.naming, fs.sortField).Ok?
    requires i < |a.sortValues| && i < |b.sortValues|
    requires fs.sortField != ctx.scoreField
    ensures FieldCompare(ctx, fs.(direction := DESCENDING), i, a, b) == -FieldCompare(ctx, fs.(direction := ASCENDING), i, a, b)
  {
  }

  /** The first field that tells two results apart decides; when none does they are equal. */
  lemma FirstDifferenceDecides(ctx: SortContext, sorts: seq<FieldSort>, a: ScoredResult, b: ScoredResult, k: nat)
    requires Sortable(ctx, sorts, a) && Sortable(ctx, sorts, b)
    requires k <= |sorts| && |sorts| > 0
    requires forall j :: 0 <= j < k ==> FieldCompare(ctx, sorts[j], j, a, b) == 0
    ensures k < |sorts| && FieldCompare(ctx, sorts[k], k, a, b) != 0 ==>
      Compare(ctx, sorts, a, b) == FieldCompare(ctx, sorts[k], k, a, b)
    ensures k == |sorts| ==> Compare(ctx, sorts, a, b) == 0
  {
    TiedFromAll(ctx, sorts, a, b, 0, k);
    EqualPrefixSkipped(ctx, sorts, a, b, 0, k);
  }

  /** None of the fields from position i up to k tells the two results apart. */
  predicate TiedFrom(ctx: SortContext, sorts: seq<FieldSort>, a: ScoredResult, b: ScoredResult, i: nat, k: nat)
    requires Sortable(ctx, sorts, a) && Sortable(ctx, sorts, b) && i <= k <= |sorts|
    decreases k - i
  {
    i == k || (FieldCompare(ctx, sorts[i], i, a, b) == 0 && TiedFrom(ctx, sorts, a, b, i + 1, k))
  }

  lemma {:induction false} TiedFromAll(ctx: SortContext, sorts: seq<FieldSort>, a: ScoredResult, b: ScoredResult, i: nat, k: nat)
    requires Sortable(ctx, sorts, a) && Sortable(ctx, sorts, b) && i <= k <= |sorts|
    requires forall j :: i <= j < k ==> FieldCompare(ctx, sorts[j], j, a, b) == 0
    ensures TiedFrom(ctx, sorts, a, b, i, k)
    decreases k - i
  {
    if i < k {
      TiedFromAll(ctx, sorts, a, b, i + 1, k);
    }
  }

  /** Fields on which two results are equal are passed over. */
  lemma {:induction false} EqualPrefixSkipped(ctx: SortContext, sorts: seq<FieldSort>, a: ScoredResult, b: ScoredResult, i: nat, k: nat)
    requires Sortable(ctx, sorts, a) && Sortable(ctx, sorts, b) && i <= k <= |sorts|
    requires TiedFrom(ctx, sorts, a, b, i, k)
    ensures CompareFrom(ctx, sorts, i, a, b) == CompareFrom(ctx, sorts, k, a, b)
    decreases k - i
  {
    if i < k {
      CompareFromStep(ctx, sorts, a, b, i);
      EqualPrefixSkipped(ctx, sorts, a, b, i + 1, k);
    }
  }

  lemma CompareFromStep(ctx: SortContext, sorts: seq<FieldSort>, a: ScoredResult, b: ScoredResult, i: nat)
    requires Sortable(ctx, sorts, a) && Sortable(ctx, sorts, b) && i < |sorts|
    requires FieldCompare(ctx, sorts[i], i, a, b) == 0
    ensures CompareFrom(ctx, sorts, i, a, b) == CompareFrom(ctx, sorts, i + 1, a, b)
  {
  }

  /** A length field is compared by the long values, whatever type is recorded for its name. */
  lemma LengthFieldsAreLongs(ctx: SortContext, fs: FieldSort, i: nat, a: ScoredResult, b: ScoredResult)
    requires QueryParser.RewriteLengthFields(ctx.naming, fs.sortField).Ok?
    requires QueryParser.RewriteLengthFields(ctx.naming, fs.sortField).value != fs.sortField
    requires i < |a.sortValues| && i < |b.sortValues|
    requires fs.sortField != ctx.scoreField && fs.direction == ASCENDING
    requires a.sortValues[i].hasValue && b.sortValues[i].hasValue
    ensures FieldCompare(ctx, fs, i, a, b) == CompareInts(a.sortValues[i].longValue, b.sortValues[i].longValue)
  {
  }

  // ---------------------------------------------------------------------------
  // The comparator is a total preorder, which is what List.sort relies on.

  lemma PresentCompareAntisymmetric(t: Option<FieldType>, x: SortValue, y: SortValue)
    ensures PresentCompare(t, x, y) == -PresentCompare(t, y, x)
  {
    CompareCodePointsAntisymmetric(x.stringValue, y.stringValue);
  }

  lemma PresentCompareTransitive(t: Option<FieldType>, x: SortValue, y: SortValue, z: SortValue)
    requires PresentCompare(t, x, y) <= 0 && PresentCompare(t, y, z) <= 0
    ensures PresentCompare(t, x, z) <= 0
  {
    if !(t == Some(NUMERIC_INT) || t == Some(NUMERIC_LONG) || t == Some(DATE) || t == Some(NUMERIC_FLOAT) || t == Some(NUMERIC_DOUBLE)) {
      CompareCodePointsTransitive(x.stringValue, y.stringValue, z.stringValue);
    }
  }

  lemma FieldCompareAntisymmetric(ctx: SortContext, fs: FieldSort, i: nat, a: ScoredResult, b: ScoredResult)
    requires QueryParser.RewriteLengthFields(ctx.naming, fs.sortField).Ok?
    requires i < |a.sortValues| && i < |b.sortValues|
    ensures FieldCompare(ctx, fs, i, a, b) == -FieldCompare(ctx, fs, i, b, a)
  {
    PresentCompareAntisymmetric(SortTypeOf(ctx, fs.sortField), a.sortValues[i], b.sortValues[i]);
  }

  lemma FieldCompareTransitive(ctx: SortContext, fs: FieldSort, i: nat, a: ScoredResult, b: ScoredResult, c: ScoredResult)
    requires QueryParser.RewriteLengthFields(ctx.naming, fs.sortField).Ok?
    requires i < |a.sortValues| && i < |b.sortValues| && i < |c.sortValues|
    requires FieldCompare(ctx, fs, i, a, b) <= 0 && FieldCompare(ctx, fs, i, b, c) <= 0
    ensures FieldCompare(ctx, fs, i, a, c) <= 0
  {
    if fs.sortField != ctx.scoreField {
      var t := SortTypeOf(ctx, fs.sortField);
      var x, y, z := a.sortValues[i], b.sortValues[i], c.sortValues[i];
      if x.hasValue && y.hasValue && z.hasValue {
        if fs.direction == DESCENDING {
          PresentCompareAntisymmetric(t, x, y);
          PresentCompareAntisymmetric(t, y, z);
          PresentCompareAntisymmetric(t, x, z);
          PresentCompareTransitive(t, z, y, x);
        } else {
          PresentCompareTransitive(t, x, y, z);
        }
      }
    }
  }

  /** A field that puts a strictly before b and b no later than c puts a strictly before c. */
  lemma FieldCompareStrict(ctx: SortContext, fs: FieldSort, i: nat, a: ScoredResult, b: ScoredResult, c: ScoredResult)
    requires QueryParser.RewriteLengthFields(ctx.naming, fs.sortField).Ok?
    requires i < |a.sortValues| && i < |b.sortValues| && i < |c.sortValues|
    requires FieldCompare(ctx, fs, i, a, b) <= 0 && FieldCompare(ctx, fs, i, b, c) <= 0
    requires FieldCompare(ctx, fs, i, a, b) < 0 || FieldCompare(ctx, fs, i, b, c) < 0
    ensures FieldCompare(ctx, fs, i, a, c) < 0
  {
    FieldCompareTransitive(ctx, fs, i, a, b, c);
    if FieldCompare(ctx, fs, i, a, c) == 0 {
      FieldCompareAntisymmetric(ctx, fs, i, a, c);
      if FieldCompare(ctx, fs, i, a, b) < 0 {
        FieldCompareTransitive(ctx, fs, i, b, c, a);
        FieldCompareAntisymmetric(ctx, fs, i, a, b);
      } else {
        FieldCompareTransitive(ctx, fs, i, c, a, b);
        FieldCompareAntisymmetric(ctx, fs, i, b, c);
      }
    }
  }

  lemma {:induction false} CompareFromAntisymmetric(ctx: SortContext, sorts: seq<FieldSort>, i: nat, a: ScoredResult, b: ScoredResult)
    requires i <= |sorts| && Sortable(ctx, sorts, a) && Sortable(ctx, sorts, b)
    ensures CompareFrom(ctx, sorts, i, a, b) == -CompareFrom(ctx, sorts, i, b, a)
    decreases |sorts| - i
  {
    if i < |sorts| {
      FieldCompareAntisymmetric(ctx, sorts[i], i, a, b);
      CompareFromAntisymmetric(ctx, sorts, i + 1, a, b);
    }
  }

  lemma {:induction false} CompareFromTransitive(ctx: SortContext, sorts: seq<FieldSort>, i: nat, a: ScoredResult, b: ScoredResult, c: ScoredResult)
    requires i <= |sorts| && Sortable(ctx, sorts, a) && Sortable(ctx, sorts, b) && Sortable(ctx, sorts, c)
    requires CompareFrom(ctx, sorts, i, a, b) <= 0 && CompareFrom(ctx, sorts, i, b, c) <= 0
    ensures CompareFrom(ctx, sorts, i, a, c) <= 0
    decreases |sorts| - i
  {
    if i < |sorts| {
      var x := FieldCompare(ctx, sorts[i], i, a, b);
      var y := FieldCompare(ctx, sorts[i], i, b, c);
      if x < 0 || y < 0 {
        FieldCompareStrict(ctx, sorts[i], i, a, b, c);
      } else {
        FieldCompareTransitive(ctx, sorts[i], i, a, b, c);
        FieldCompareTransitive(ctx, sorts[i], i, c, b, a) by {
          FieldCompareAntisymmetric(ctx, sorts[i], i, a, b);
          FieldCompareAntisymmetric(ctx, sorts[i], i, b, c);
        }
        FieldCompareAntisymmetric(ctx, sorts[i], i, a, c);
        CompareFromTransitive(ctx, sorts, i + 1, a, b, c);
      }
    }
  }

  /** Swapping the arguments flips the verdict. */
  lemma CompareAntisymmetric(ctx: SortContext, sorts: seq<FieldSort>, a: ScoredResult, b: ScoredResult)
    requires Sortable(ctx, sorts, a) && Sortable(ctx, sorts, b)
    ensures Compare(ctx, sorts, a, b) == -Compare(ctx, sorts, b, a)
  {
    if |sorts| > 0 {
      CompareFromAntisymmetric(ctx, sorts, 0, a, b);
    }
  }

  /** "Not after" is transitive. */
  lemma CompareTransitive(ctx: SortContext, sorts: seq<FieldSort>, a: ScoredResult, b: ScoredResult, c: ScoredResult)
    requires Sortable(ctx, sorts, a) && Sortable(ctx, sorts, b) && Sortable(ctx, sorts, c)
    requires Compare(ctx, sorts, a, b) <= 0 && Compare(ctx, sorts, b, c) <= 0
    ensures Compare(ctx, sorts, a, c) <= 0
  {
    if |sorts| > 0 {
      CompareFromTransitive(ctx, sorts, 0, a, b, c);
    }
  }
}
