/** Value walking and the weighted edit distance of ZuliaUtil.

    handleLists hands every value of a document field to a consumer: the members of a
    collection, recursively through nested collections, the elements of an object array,
    or the object itself, skipping nulls and counting what it hands over.
    computeLevenshteinDistance is an edit distance over the strings' UTF-16 code units whose
    costs favour case changes and, when the first string is the shorter, insertions;
    Character.toLowerCase, a JDK table, is its parameter `toLower`. */
module ZuliaUtility {
  import opened JavaInt

  /** The objects a document field can hold. */
  datatype Obj =
    | Null
    | Scalar(text: string)
    | Collection(members: seq<Obj>)
    | ObjectArray(elements: seq<Obj>)

  /** What the consumer is handed: an object, or the consumer itself. */
  datatype Accepted = Value(o: Obj) | TheConsumer

  /** What the consumer receives for each non-null member of a collection. */
  function MemberVisits(x: Obj): seq<Obj>
  {
    match x
    case Null => []
    case Collection(members) => MembersVisits(members)
    case _ => [x]
  }

  function MembersVisits(members: seq<Obj>): seq<Obj>
    decreases members
  {
    if |members| == 0 then []
    else MembersVisits(members[..|members| - 1]) + MemberVisits(members[|members| - 1])
  }

  function NonNull(elements: seq<Obj>): seq<Obj>
  {
    if |elements| == 0 then []
    else NonNull(elements[..|elements| - 1]) + (if elements[|elements| - 1].Null? then [] else [elements[|elements| - 1]])
  }

  /** handleLists, with the elements of an object array handed over one by one. */
  function Visits(o: Obj): seq<Obj>
  {
    match o
    case Null => []
    case Collection(members) => MembersVisits(members)
    case ObjectArray(elements) => NonNull(elements)
    case Scalar(_) => [o]
  }

  /** handleLists as written: for each non-null element of an object array the consumer is
      handed the consumer itself, not the element. */
  function VisitsAsWritten(o: Obj): seq<Accepted>
  {
    match o
    case ObjectArray(elements) => seq(|NonNull(elements)|, _ => TheConsumer)
    case _ => seq(|Visits(o)|, i requires 0 <= i < |Visits(o)| => Value(Visits(o)[i]))
  }

  /** An array holding one string hands over the consumer, where the string was meant; the
      count is right. */
  lemma ArrayHandsOverConsumer()
    ensures VisitsAsWritten(ObjectArray([Scalar("a")])) == [TheConsumer]
    ensures Visits(ObjectArray([Scalar("a")])) == [Scalar("a")]
  {
    assert NonNull([Scalar("a")]) == NonNull([]) + [Scalar("a")];
  }

  /** Whatever o is, the two versions count the same objects, and they hand over the same
      ones except inside an object array. */
  lemma AsWrittenAgrees(o: Obj)
    ensures |VisitsAsWritten(o)| == |Visits(o)|
    ensures !o.ObjectArray? ==> forall i :: 0 <= i < |Visits(o)| ==> VisitsAsWritten(o)[i] == Value(Visits(o)[i])
  {
  }

  /** What the walk can reach: a collection is opened, recursively; anything else is a leaf. */
  predicate Reaches(o: Obj, x: Obj)
    decreases o
  {
    match o
    case Collection(members) => exists i :: 0 <= i < |members| && (members[i] == x || (members[i].Collection? && Reaches(members[i], x)))
    case _ => false
  }

  /** What can be handed over: neither null nor a collection. */
  predicate Leaf(x: Obj)
  {
    !x.Null? && !x.Collection?
  }

  /** The objects handed over for a collection are exactly the leaves it reaches through
      nested collections. */
  lemma {:induction false} VisitsAreReachedLeaves(o: Obj, x: Obj)
    requires o.Collection?
    ensures x in Visits(o) <==> Leaf(x) && Reaches(o, x)
    decreases o, 1
  {
    MembersVisitsAreReachedLeaves(o.members, x);
  }

  lemma {:induction false} MembersVisitsAreReachedLeaves(members: seq<Obj>, x: Obj)
    ensures x in MembersVisits(members) <==> Leaf(x) && exists i :: 0 <= i < |members| && (members[i] == x || (members[i].Collection? && Reaches(members[i], x)))
    decreases members, 0
  {
    if |members| > 0 {
      var init := members[..|members| - 1];
      var last := members[|members| - 1];
      MembersVisitsAreReachedLeaves(init, x);
      if last.Collection? {
        VisitsAreReachedLeaves(last, x);
      }
      if x in MembersVisits(members) {
        if x in MembersVisits(init) {
          var i :| 0 <= i < |init| && (init[i] == x || (init[i].Collection? && Reaches(init[i], x)));
          assert members[i] == init[i];
        } else {
          assert x in MemberVisits(last);
          assert members[|members| - 1] == last;
        }
      } else if Leaf(x) {
        forall i | 0 <= i < |members|
          ensures !(members[i] == x || (members[i].Collection? && Reaches(members[i], x)))
        {
          if i < |init| {
            assert members[i] == init[i];
          }
        }
      }
    }
  }

  /** A non-null scalar is handed over once, null never, and an array hands over its non-null
      elements in order. */
  lemma VisitsFacts(o: Obj)
    ensures o.Scalar? ==> Visits(o) == [o]
    ensures o.Null? ==> Visits(o) == []
    ensures o.ObjectArray? ==> forall x :: x in Visits(o) <==> x in o.elements && !x.Null?
  {
    if o.ObjectArray? {
      NonNullFacts(o.elements);
    }
  }

  lemma {:induction false} NonNullFacts(elements: seq<Obj>)
    ensures forall x :: x in NonNull(elements) <==> x in elements && !x.Null?
    ensures |NonNull(elements)| <= |elements|
  {
    if |elements| > 0 {
      var init := elements[..|elements| - 1];
      NonNullFacts(init);
      assert elements == init + [elements[|elements| - 1]];
    }
  }

  /** The AtomicInteger the walk counts with. */
  class Counter {
    var value: int

    constructor ()
      ensures value == 0
    {
      value := 0;
    }
  }

  /** handleLists(o, action, listSize): the objects handed to the consumer, in order, with
      the counter raised by their number. */
  method HandleLists(o: Obj, listSize: Counter) returns (accepted: seq<Obj>)
    modifies listSize
    ensures accepted == Visits(o)
    ensures listSize.value == old(listSize.value) + |accepted|
    decreases o, 1
  {
    accepted := [];
    match o {
      case Collection(members) =>
        var k := 0;
        while k < |members|
          invariant 0 <= k <= |members|
          invariant accepted == MembersVisits(members[..k])
          invariant listSize.value == old(listSize.value) + |accepted|
        {
          var obj := members[k];
          assert members[..k + 1][..k] == members[..k];
          if obj.Collection? {
            var inner := HandleLists(obj, listSize);
            accepted := accepted + inner;
          } else if !obj.Null? {
            listSize.value := listSize.value + 1;
            accepted := accepted + [obj];
          }
          k := k + 1;
        }
        assert members[..k] == members;
      case ObjectArray(elements) =>
        var k := 0;
        while k < |elements|
          invariant 0 <= k <= |elements|
          invariant accepted == NonNull(elements[..k])
          invariant listSize.value == old(listSize.value) + |accepted|
        {
          assert elements[..k + 1][..k] == elements[..k];
          if !elements[k].Null? {
            listSize.value := listSize.value + 1;
            accepted := accepted + [elements[k]];
          }
          k := k + 1;
        }
        assert elements[..k] == elements;
      case Null =>
      case Scalar(_) =>
        listSize.value := listSize.value + 1;
        accepted := [o];
    }
  }

  /** The values of xs without repeats, each where it first occurs (a LinkedHashSet). */
  function Unique(xs: seq<Obj>): seq<Obj>
  {
    if |xs| == 0 then []
    else
      var u := Unique(xs[..|xs| - 1]);
      if xs[|xs| - 1] in u then u else u + [xs[|xs| - 1]]
  }

  predicate NoRepeats(xs: seq<Obj>)
  {
    forall i, j :: 0 <= i < j < |xs| ==> xs[i] != xs[j]
  }

  /** Unique keeps every value once and invents none, in the order of their first
      occurrences. */
  lemma {:induction false} UniqueFacts(xs: seq<Obj>)
    ensures NoRepeats(Unique(xs))
    ensures forall x :: x in Unique(xs) <==> x in xs
    ensures |Unique(xs)| <= |xs|
    ensures forall i, j :: 0 <= i < j < |Unique(xs)| ==> FirstAt(xs, Unique(xs)[i]) < FirstAt(xs, Unique(xs)[j])
  {
    if |xs| > 0 {
      var init := xs[..|xs| - 1];
      var last := xs[|xs| - 1];
      UniqueFacts(init);
      assert xs == init + [last];
      forall x | x in init
        ensures FirstAt(xs, x) == FirstAt(init, x)
      {
        FirstAtPrefix(init, last, x);
      }
      if last !in init {
        FirstAtLast(init, last);
      }
    }
  }

  /** The index of the first occurrence of x in xs. */
  function FirstAt(xs: seq<Obj>, x: Obj): (r: nat)
    requires x in xs
    ensures r < |xs| && xs[r] == x && x !in xs[..r]
  {
    if xs[0] == x then 0 else FirstAt(xs[1..], x) + 1
  }

  lemma {:induction false} FirstAtPrefix(init: seq<Obj>, last: Obj, x: Obj)
    requires x in init
    ensures FirstAt(init + [last], x) == FirstAt(init, x)
  {
    if init[0] != x {
      assert (init + [last])[1..] == init[1..] + [last];
      FirstAtPrefix(init[1..], last, x);
    }
  }

  lemma FirstAtLast(init: seq<Obj>, last: Obj)
    requires last !in init
    ensures FirstAt(init + [last], last) == |init|
  {
  }

  /** handleListsUniqueValues: the walk's objects go into a LinkedHashSet, whose values are
      then handed over in insertion order; listSize counts every object the walk met, setSize
      the distinct ones. */
  method HandleListsUniqueValues(o: Obj, listSize: Counter, setSize: Counter) returns (accepted: seq<Obj>)
    requires listSize != setSize
    modifies listSize, setSize
    ensures accepted == Unique(Visits(o))
    ensures listSize.value == old(listSize.value) + |Visits(o)|
    ensures setSize.value == old(setSize.value) + |accepted|
  {
    var all := HandleLists(o, listSize);
    var objects: seq<Obj> := [];
    var k := 0;
    while k < |all|
      invariant 0 <= k <= |all|
      invariant objects == Unique(all[..k])
    {
      assert all[..k + 1][..k] == all[..k];
      if all[k] !in objects {
        objects := objects + [all[k]];
      }
      k := k + 1;
    }
    assert all[..k] == all;
    accepted := [];
    k := 0;
    while k < |objects|
      invariant 0 <= k <= |objects|
      invariant accepted == objects[..k]
      invariant setSize.value == old(setSize.value) + k
      invariant listSize.value == old(listSize.value) + |all|
    {
      setSize.value := setSize.value + 1;
      accepted := accepted + [objects[k]];
      k := k + 1;
    }
  }

  // ---------------------------------------------------------------------------------
  // computeLevenshteinDistance

  const DELETE: int := 40
  const SUBSTITUTE: int := 40
  const SUBSTITUTE_CASE: int := 1

  /** The insertion cost: 2 when the first string has fewer UTF-16 code units, 40 otherwise. */
  function InsertCost(str1: seq<int>, str2: seq<int>): (r: int)
    ensures r == 2 <==> |str1| < |str2|
    ensures r == 2 || r == 40
  {
    if |str1| < |str2| then 2 else 40
  }

  /** The cost of putting b where a was: nothing for the same code unit, 1 when only the case
      differs, 40 otherwise. `toLower` is Character.toLowerCase on one code unit. */
  function SubstitutionCost(a: int, b: int, toLower: int -> int): (r: int)
    ensures r == 0 <==> a == b
    ensures r == 1 <==> a != b && toLower(a) == toLower(b)
    ensures 0 <= r <= SUBSTITUTE
  {
    if a == b then 0 else if toLower(a) == toLower(b) then SUBSTITUTE_CASE else SUBSTITUTE
  }

  /** minimum: the least of its three arguments. */
  function Minimum(a: int, b: int, c: int): (r: int)
    ensures r <= a && r <= b && r <= c
    ensures r == a || r == b || r == c
  {
    if a <= b && a <= c then a
    else if b <= a && b <= c then b
    else c
  }

  /** The cheapest way to edit the first i code units of str1 into the first j of str2. */
  function Cost(str1: seq<int>, str2: seq<int>, toLower: int -> int, i: nat, j: nat): int
    requires i <= |str1| && j <= |str2|
    decreases i + j
  {
    if i == 0 then j * InsertCost(str1, str2)
    else if j == 0 then i * DELETE
    else
      Minimum(Cost(str1, str2, toLower, i - 1, j) + DELETE,
              Cost(str1, str2, toLower, i, j - 1) + InsertCost(str1, str2),
              Cost(str1, str2, toLower, i - 1, j - 1) + SubstitutionCost(str1[i - 1], str2[j - 1], toLower))
  }

  /** The distance between two character arrays (`toCharArray`: UTF-16 code units). */
  function Distance(str1: seq<int>, str2: seq<int>, toLower: int -> int): int
  {
    Cost(str1, str2, toLower, |str1|, |str2|)
  }

  /** Every partial cost is non-negative. */
  lemma {:induction false} CostNonNegative(str1: seq<int>, str2: seq<int>, toLower: int -> int, i: nat, j: nat)
    requires i <= |str1| && j <= |str2|
    ensures Cost(str1, str2, toLower, i, j) >= 0
    decreases i + j
  {
    if i > 0 && j > 0 {
      CostNonNegative(str1, str2, toLower, i - 1, j);
      CostNonNegative(str1, str2, toLower, i, j - 1);
      CostNonNegative(str1, str2, toLower, i - 1, j - 1);
    }
  }

  /** A partial cost is 0 only for two equal prefixes. */
  lemma {:induction false} CostZero(str1: seq<int>, str2: seq<int>, toLower: int -> int, i: nat, j: nat)
    requires i <= |str1| && j <= |str2|
    ensures Cost(str1, str2, toLower, i, j) == 0 <==> i == j && str1[..i] == str2[..j]
    decreases i + j
  {
    if i > 0 && j > 0 {
      CostLast(str1, str2, toLower, i, j);
      CostZero(str1, str2, toLower, i - 1, j - 1);
      PrefixesStep(str1, str2, i, j);
    }
  }

  /** Two non-empty prefixes are equal exactly when they agree without their last units and
      on those units. */
  lemma PrefixesStep(str1: seq<int>, str2: seq<int>, i: nat, j: nat)
    requires 0 < i <= |str1| && 0 < j <= |str2|
    ensures (i == j && str1[..i] == str2[..j]) <==>
      (i - 1 == j - 1 && str1[..i - 1] == str2[..j - 1] && str1[i - 1] == str2[j - 1])
  {
    assert str1[..i] == str1[..i - 1] + [str1[i - 1]];
    assert str2[..j] == str2[..j - 1] + [str2[j - 1]];
    if i == j && str1[..i] == str2[..j] {
      assert str1[..i - 1] == str1[..i][..i - 1];
      assert str1[i - 1] == str1[..i][i - 1];
    }
  }

  /** The cost of two non-empty prefixes is 0 exactly when their last units agree and the
      cost without them is 0. */
  lemma CostLast(str1: seq<int>, str2: seq<int>, toLower: int -> int, i: nat, j: nat)
    requires 0 < i <= |str1| && 0 < j <= |str2|
    ensures Cost(str1, str2, toLower, i, j) == 0 <==>
      Cost(str1, str2, toLower, i - 1, j - 1) == 0 && str1[i - 1] == str2[j - 1]
  {
    CostNonNegative(str1, str2, toLower, i - 1, j);
    CostNonNegative(str1, str2, toLower, i, j - 1);
    CostNonNegative(str1, str2, toLower, i - 1, j - 1);
  }

  /** Along the diagonal the cost never exceeds the number of case-only differences met so
      far, when all the other units agree. */
  lemma {:induction false} DiagonalCost(str1: seq<int>, str2: seq<int>, toLower: int -> int, i: nat)
    requires i <= |str1| && i <= |str2|
    requires forall k :: 0 <= k < i ==> toLower(str1[k]) == toLower(str2[k])
    ensures Cost(str1, str2, toLower, i, i) <= CaseDifferences(str1[..i], str2[..i])
  {
    if i > 0 {
      DiagonalCost(str1, str2, toLower, i - 1);
      assert str1[..i][..i - 1] == str1[..i - 1];
      assert str2[..i][..i - 1] == str2[..i - 1];
    }
  }

  /** How many positions of two equally long unit sequences differ. */
  function CaseDifferences(s: seq<int>, t: seq<int>): nat
    requires |s| == |t|
  {
    if |s| == 0 then 0
    else CaseDifferences(s[..|s| - 1], t[..|t| - 1]) + (if s[|s| - 1] == t[|t| - 1] then 0 else 1)
  }

  lemma {:induction false} CaseDifferencesOne(p: seq<int>, c1: int, c2: int, q: seq<int>, i: nat)
    requires c1 != c2 && i <= |p| + 1 + |q|
    ensures CaseDifferences((p + [c1] + q)[..i], (p + [c2] + q)[..i]) == (if i <= |p| then 0 else 1)
  {
    var s := p + [c1] + q;
    var t := p + [c2] + q;
    if i > 0 {
      CaseDifferencesOne(p, c1, c2, q, i - 1);
      assert s[..i][..i - 1] == s[..i - 1];
      assert t[..i][..i - 1] == t[..i - 1];
    }
  }

  /** The weighted distance: 0 from a string to itself; 40 per unit to the empty string; 2 per
      unit from the empty string; 1 for a single case-only difference. */
  lemma DistanceFacts(s: seq<int>, p: seq<int>, c1: int, c2: int, q: seq<int>, toLower: int -> int)
    ensures Distance(s, s, toLower) == 0
    ensures Distance(s, [], toLower) == 40 * |s|
    ensures |s| > 0 ==> Distance([], s, toLower) == 2 * |s|
    ensures s != [] ==> Distance(s, s, toLower) < Distance(s, [], toLower)
    ensures c1 != c2 && toLower(c1) == toLower(c2) ==> Distance(p + [c1] + q, p + [c2] + q, toLower) == 1
  {
    CostZero(s, s, toLower, |s|, |s|);
    if c1 != c2 && toLower(c1) == toLower(c2) {
      var a := p + [c1] + q;
      var b := p + [c2] + q;
      forall k | 0 <= k < |a|
        ensures toLower(a[k]) == toLower(b[k])
      {
        if k < |p| {
          assert a[k] == p[k] == b[k];
        } else if k > |p| {
          assert a[k] == q[k - |p| - 1] == b[k];
        }
      }
      DiagonalCost(a, b, toLower, |a|);
      CaseDifferencesOne(p, c1, c2, q, |a|);
      assert a[..|a|] == a && b[..|b|] == b;
      CostZero(a, b, toLower, |a|, |b|);
      CostNonNegative(a, b, toLower, |a|, |b|);
      assert a[|p|] != b[|p|];
    }
  }

  /** The rows before i of the table hold the partial costs. */
  ghost predicate Filled(str1: seq<int>, str2: seq<int>, toLower: int -> int, distance: array2<int>, i: int)
    reads distance
    requires distance.Length0 == |str1| + 1 && distance.Length1 == |str2| + 1 && 0 <= i <= |str1| + 1
  {
    forall i', j' :: 0 <= i' < i && 0 <= j' <= |str2| ==> distance[i', j'] == Cost(str1, str2, toLower, i', j')
  }

  /** The columns before j of row i hold the partial costs. */
  ghost predicate RowFilled(str1: seq<int>, str2: seq<int>, toLower: int -> int, distance: array2<int>, i: int, j: int)
    reads distance
    requires distance.Length0 == |str1| + 1 && distance.Length1 == |str2| + 1
    requires 0 <= i <= |str1| && 0 <= j <= |str2| + 1
  {
    forall j' :: 0 <= j' < j ==> distance[i, j'] == Cost(str1, str2, toLower, i, j')
  }

  /** One pass of the outer loop: row i from its first column on. */
  method FillRow(str1: seq<int>, str2: seq<int>, toLower: int -> int, distance: array2<int>, i: int, insert: int)
    requires distance.Length0 == |str1| + 1 && distance.Length1 == |str2| + 1 && 1 <= i <= |str1|
    requires insert == InsertCost(str1, str2)
    requires Filled(str1, str2, toLower, distance, i) && distance[i, 0] == i * DELETE
    modifies distance
    ensures Filled(str1, str2, toLower, distance, i + 1)
    ensures forall i' :: i < i' <= |str1| ==> distance[i', 0] == old(distance[i', 0])
  {
    var j := 1;
    while j <= |str2|
      invariant 1 <= j <= |str2| + 1
      invariant Filled(str1, str2, toLower, distance, i)
      invariant RowFilled(str1, str2, toLower, distance, i, j)
      invariant forall i' :: i < i' <= |str1| ==> distance[i', 0] == old(distance[i', 0])
    {
      var subPen := SubstitutionCost(str1[i - 1], str2[j - 1], toLower);
      var above, left, diagonal := distance[i - 1, j], distance[i, j - 1], distance[i - 1, j - 1];
      assert above == Cost(str1, str2, toLower, i - 1, j);
      assert diagonal == Cost(str1, str2, toLower, i - 1, j - 1);
      assert left == Cost(str1, str2, toLower, i, j - 1);
      distance[i, j] := Minimum(above + DELETE, left + insert, diagonal + subPen);
      assert distance[i, j] == Cost(str1, str2, toLower, i, j);
      assert RowFilled(str1, str2, toLower, distance, i, j + 1);
      j := j + 1;
    }
  }

  /** computeLevenshteinDistance: fills the (length1+1) x (length2+1) table over the two
      strings' UTF-16 code units, row by row. */
  method ComputeLevenshteinDistance(string1: string, string2: string, toLower: int -> int) returns (r: int)
    ensures r == Distance(Utf16(string1), Utf16(string2), toLower)
  {
    var str1, str2 := Utf16(string1), Utf16(string2);
    var insert := 40;
    var delete := 40;
    if |str1| < |str2| {
      insert := 2;
    }
    var distance := new int[|str1| + 1, |str2| + 1];
    var i := 0;
    while i <= |str1|
      invariant 0 <= i <= |str1| + 1
      invariant forall i' :: 0 <= i' < i ==> distance[i', 0] == i' * delete
    {
      distance[i, 0] := i * delete;
      i := i + 1;
    }
    var j := 0;
    while j <= |str2|
      invariant 0 <= j <= |str2| + 1
      invariant forall j' :: 0 <= j' < j ==> distance[0, j'] == j' * insert
      invariant forall i' :: 1 <= i' <= |str1| ==> distance[i', 0] == i' * delete
    {
      distance[0, j] := j * insert;
      j := j + 1;
    }
    i := 1;
    while i <= |str1|
      invariant 1 <= i <= |str1| + 1
      invariant Filled(str1, str2, toLower, distance, i)
      invariant forall i' :: i <= i' <= |str1| ==> distance[i', 0] == i' * delete
    {
      FillRow(str1, str2, toLower, distance, i, insert);
      i := i + 1;
    }
    return distance[|str1|, |str2|];
  }
}
