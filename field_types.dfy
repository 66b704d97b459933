/** Field types of an index and the names under which a field is indexed and sorted
    (FieldTypeUtil). The naming constants of the server (the list-length and
    character-length prefixes, the sort suffix) are not part of this model: they are
    carried by a `Naming` value. */
module FieldTypes {

  datatype FieldType =
    | STRING | NUMERIC_INT | NUMERIC_LONG | NUMERIC_FLOAT | NUMERIC_DOUBLE
    | DATE | BOOL | VECTOR | UNIT_VECTOR

  /** The enum constant's name, which is what string concatenation prints for it. */
  function TypeName(t: FieldType): string
  {
    match t
    case STRING => "STRING"
    case NUMERIC_INT => "NUMERIC_INT"
    case NUMERIC_LONG => "NUMERIC_LONG"
    case NUMERIC_FLOAT => "NUMERIC_FLOAT"
    case NUMERIC_DOUBLE => "NUMERIC_DOUBLE"
    case DATE => "DATE"
    case BOOL => "BOOL"
    case VECTOR => "VECTOR"
    case UNIT_VECTOR => "UNIT_VECTOR"
  }

  predicate IsNumericInt(t: FieldType) { t == NUMERIC_INT }
  predicate IsNumericLong(t: FieldType) { t == NUMERIC_LONG }
  predicate IsNumericFloat(t: FieldType) { t == NUMERIC_FLOAT }
  predicate IsNumericDouble(t: FieldType) { t == NUMERIC_DOUBLE }
  predicate IsDate(t: FieldType) { t == DATE }
  predicate IsBoolean(t: FieldType) { t == BOOL }
  predicate IsString(t: FieldType) { t == STRING }
  predicate IsVector(t: FieldType) { t == VECTOR || t == UNIT_VECTOR }

  predicate IsStoredAsInt(t: FieldType) { IsNumericInt(t) || IsBoolean(t) }
  predicate IsStoredAsLong(t: FieldType) { IsNumericLong(t) || IsDate(t) }
  predicate IsNumeric(t: FieldType)
  {
    IsNumericInt(t) || IsNumericLong(t) || IsNumericFloat(t) || IsNumericDouble(t)
  }
  predicate IsFloatingPoint(t: FieldType) { IsNumericFloat(t) || IsNumericDouble(t) }
  predicate IsHandledAsNumeric(t: FieldType) { IsNumeric(t) || IsDate(t) || IsBoolean(t) }
  predicate IsNumericOrDate(t: FieldType) { IsNumeric(t) || IsDate(t) }

  /** Every type handled as a number is stored in exactly one way: as an int, as a long,
      or as a floating-point value; strings and vectors are none of these. */
  lemma StorageClasses(t: FieldType)
    ensures IsStoredAsInt(t) <==> t in {NUMERIC_INT, BOOL}
    ensures IsStoredAsLong(t) <==> t in {NUMERIC_LONG, DATE}
    ensures IsNumeric(t) <==> t in {NUMERIC_INT, NUMERIC_LONG, NUMERIC_FLOAT, NUMERIC_DOUBLE}
    ensures IsHandledAsNumeric(t) <==>
      (IsStoredAsInt(t) && !IsStoredAsLong(t) && !IsFloatingPoint(t)) ||
      (!IsStoredAsInt(t) && IsStoredAsLong(t) && !IsFloatingPoint(t)) ||
      (!IsStoredAsInt(t) && !IsStoredAsLong(t) && IsFloatingPoint(t))
    ensures IsString(t) || IsVector(t) <==> !IsHandledAsNumeric(t)
  {
  }

  lemma TypeNameInjective(t1: FieldType, t2: FieldType)
    requires TypeName(t1) == TypeName(t2)
    ensures t1 == t2
  {
  }

  datatype Naming = Naming(listLengthPrefix: string, charLengthPrefix: string, sortSuffix: string)

  predicate StartsWith(s: string, prefix: string)
  {
    |prefix| <= |s| && s[..|prefix|] == prefix
  }

  predicate EndsWith(s: string, suffix: string)
  {
    |suffix| <= |s| && s[|s| - |suffix|..] == suffix
  }

  function ListLengthIndexField(n: Naming, field: string): (r: string)
    ensures IsListLengthField(n, r)
    ensures r[|n.listLengthPrefix|..] == field
  {
    n.listLengthPrefix + field
  }

  function ListLengthSortField(n: Naming, field: string): (r: string)
    ensures IsListLengthField(n, r)
    ensures r == ListLengthIndexField(n, field) + n.sortSuffix
  {
    n.listLengthPrefix + field + n.sortSuffix
  }

  predicate IsListLengthField(n: Naming, field: string)
  {
    StartsWith(field, n.listLengthPrefix)
  }

  function CharLengthIndexField(n: Naming, field: string): (r: string)
    ensures IsCharLengthField(n, r)
    ensures r[|n.charLengthPrefix|..] == field
  {
    n.charLengthPrefix + field
  }

  function CharLengthSortField(n: Naming, field: string): (r: string)
    ensures IsCharLengthField(n, r)
    ensures r == CharLengthIndexField(n, field) + n.sortSuffix
  {
    n.charLengthPrefix + field + n.sortSuffix
  }

  predicate IsCharLengthField(n: Naming, field: string)
  {
    StartsWith(field, n.charLengthPrefix)
  }

  /** The name of the doc-values field a field is sorted on: the field name, the sort
      suffix and the type name. */
  function SortField(n: Naming, name: string, t: FieldType): string
  {
    name + n.sortSuffix + TypeName(t)
  }

  /** A sort field's name starts with the field's name and ends with its type's name. */
  lemma SortFieldShape(n: Naming, name: string, t: FieldType)
    ensures StartsWith(SortField(n, name, t), name) && EndsWith(SortField(n, name, t), TypeName(t))
  {
    var r := SortField(n, name, t);
    assert r[..|name|] == name;
    assert r[|r| - |TypeName(t)|..] == TypeName(t);
  }

  /** The name a field is indexed under: strings keep their name, every other type adds
      an underscore and its type name. */
  function IndexField(name: string, t: FieldType): (r: string)
    ensures IsString(t) ==> r == name
    ensures !IsString(t) ==> StartsWith(r, name + "_") && EndsWith(r, TypeName(t))
  {
    if IsString(t) then name else name + "_" + TypeName(t)
  }

  function CharLengthWrap(field: string): (r: string)
    ensures |r| == |field| + 2 && r[0] == '|' && r[|r| - 1] == '|'
    ensures r[1..|r| - 1] == field
  {
    "|" + field + "|"
  }

  function ListLengthWrap(field: string): (r: string)
    ensures |r| == |field| + 6 && StartsWith(r, "|||") && EndsWith(r, "|||")
    ensures r[3..|r| - 3] == field
  {
    "|||" + field + "|||"
  }

  /** A field name cannot be indexed under the same name with two different non-string types. */
  lemma {:induction false} IndexFieldTypesDistinct(name: string, t1: FieldType, t2: FieldType)
    requires !IsString(t1) && !IsString(t2) && t1 != t2
    ensures IndexField(name, t1) != IndexField(name, t2)
  {
    if IndexField(name, t1) == IndexField(name, t2) {
      var k := |name| + 1;
      assert IndexField(name, t1)[k..] == TypeName(t1);
      assert IndexField(name, t2)[k..] == TypeName(t2);
      TypeNameInjective(t1, t2);
    }
  }

  /** The same holds of sort fields: one field sorted as two types uses two names. */
  lemma SortFieldTypesDistinct(n: Naming, name: string, t1: FieldType, t2: FieldType)
    requires t1 != t2
    ensures SortField(n, name, t1) != SortField(n, name, t2)
  {
    var k := |name| + |n.sortSuffix|;
    assert SortField(n, name, t1)[k..] == TypeName(t1);
    assert SortField(n, name, t2)[k..] == TypeName(t2);
  }
}
