/** Merging the term lists of every node (GetTermsRequestFederator.getResponse): the document
    frequency, term frequency and score of each term are added up over all responses, the
    terms are visited in ascending order, those below the minimum frequencies are dropped, at
    most `amount` are returned (0 meaning no limit), and the last term visited is reported. */
module TermsFederating {
  import opened Wrappers
  import opened JavaInt

  /** One term with its statistics; docFreq and termFreq are Java longs, the score a double
      (an exact real here). */
  datatype Term = Term(value: string, docFreq: int, termFreq: int, score: real)

  datatype GetTermsResponse = GetTermsResponse(terms: seq<Term>, lastTerm: Option<Term>)

  datatype InternalGetTermsResponse = InternalGetTermsResponse(getTermsResponses: seq<GetTermsResponse>)

  datatype GetTermsRequest = GetTermsRequest(amount: int, minDocFreq: int, minTermFreq: int)

  // ---------------------------------------------------------------------------------------
  // Adding up

  /** Every term of every response, in the order the loops visit them. */
  function ResponseTerms(gtrs: seq<GetTermsResponse>): seq<Term>
  {
    if |gtrs| == 0 then [] else ResponseTerms(gtrs[..|gtrs| - 1]) + gtrs[|gtrs| - 1].terms
  }

  function AllTerms(responses: seq<InternalGetTermsResponse>): seq<Term>
  {
    if |responses| == 0 then []
    else AllTerms(responses[..|responses| - 1]) + ResponseTerms(responses[|responses| - 1].getTermsResponses)
  }

  /** The builder of a term starts at zero and has each occurrence added to it. */
  function Add(m: map<string, Term>, t: Term): map<string, Term>
  {
    var b := if t.value in m then m[t.value] else Term(t.value, 0, 0, 0.0);
    m[t.value := b.(docFreq := b.docFreq + t.docFreq, termFreq := b.termFreq + t.termFreq, score := b.score + t.score)]
  }

  function Totals(ts: seq<Term>): map<string, Term>
  {
    if |ts| == 0 then map[] else Add(Totals(ts[..|ts| - 1]), ts[|ts| - 1])
  }

  /** The independent reference: the sums over the occurrences of one term. */
  function DocFreqOf(ts: seq<Term>, key: string): int
  {
    if |ts| == 0 then 0
    else DocFreqOf(ts[..|ts| - 1], key) + (if ts[|ts| - 1].value == key then ts[|ts| - 1].docFreq else 0)
  }

  function TermFreqOf(ts: seq<Term>, key: string): int
  {
    if |ts| == 0 then 0
    else TermFreqOf(ts[..|ts| - 1], key) + (if ts[|ts| - 1].value == key then ts[|ts| - 1].termFreq else 0)
  }

  function ScoreOf(ts: seq<Term>, key: string): real
  {
    if |ts| == 0 then 0.0
    else ScoreOf(ts[..|ts| - 1], key) + (if ts[|ts| - 1].value == key then ts[|ts| - 1].score else 0.0)
  }

  predicate Occurs(ts: seq<Term>, key: string)
  {
    exists k :: 0 <= k < |ts| && ts[k].value == key
  }

  lemma {:induction false} AbsentSumsZero(ts: seq<Term>, key: string)
    requires !Occurs(ts, key)
    ensures DocFreqOf(ts, key) == 0 && TermFreqOf(ts, key) == 0 && ScoreOf(ts, key) == 0.0
  {
    if |ts| > 0 {
      AbsentSumsZero(ts[..|ts| - 1], key);
    }
  }

  /** Each term that occurs has one entry, holding the sums of its occurrences; nothing else
      has an entry. */
  lemma {:induction false} TotalsAreSums(ts: seq<Term>)
    ensures forall key :: key in Totals(ts) <==> Occurs(ts, key)
    ensures forall key :: key in Totals(ts) ==>
      Totals(ts)[key] == Term(key, DocFreqOf(ts, key), TermFreqOf(ts, key), ScoreOf(ts, key))
  {
    if |ts| > 0 {
      var init := ts[..|ts| - 1];
      TotalsAreSums(init);
      forall key
        ensures key in Totals(ts) <==> Occurs(ts, key)
        ensures key in Totals(ts) ==>
          Totals(ts)[key] == Term(key, DocFreqOf(ts, key), TermFreqOf(ts, key), ScoreOf(ts, key))
      {
        if Occurs(ts, key) && ts[|ts| - 1].value != key {
          var k :| 0 <= k < |ts| && ts[k].value == key;
          assert init[k] == ts[k];
        }
        if Occurs(init, key) {
          var k :| 0 <= k < |init| && init[k].value == key;
          assert ts[k] == init[k];
        }
        if key !in Totals(init) {
          AbsentSumsZero(init, key);
        }
      }
    }
  }

  /** The terms in the order they first occur: the keys of the term map. */
  function FirstOccurrences(ts: seq<Term>): (r: seq<string>)
    ensures forall key :: key in r <==> key in Totals(ts)
  {
    if |ts| == 0 then []
    else
      var prev := FirstOccurrences(ts[..|ts| - 1]);
      if ts[|ts| - 1].value in prev then prev else prev + [ts[|ts| - 1].value]
  }

  predicate Distinct(keys: seq<string>)
  {
    forall i, j :: 0 <= i < j < |keys| ==> keys[i] != keys[j]
  }

  lemma {:induction false} FirstOccurrencesDistinct(ts: seq<Term>)
    ensures Distinct(FirstOccurrences(ts))
  {
    if |ts| > 0 {
      FirstOccurrencesDistinct(ts[..|ts| - 1]);
    }
  }

  /** The map's entries, one per key, in the map's order. */
  function Entries(m: map<string, Term>, keys: seq<string>): (r: seq<Term>)
    requires forall k :: 0 <= k < |keys| ==> keys[k] in m
    ensures |r| == |keys| && forall k :: 0 <= k < |keys| ==> r[k] == m[keys[k]]
  {
    seq(|keys|, k requires 0 <= k < |keys| => m[keys[k]])
  }

  // The inner loops

  lemma TotalsSnoc(ts: seq<Term>, t: Term)
    ensures Totals(ts + [t]) == Add(Totals(ts), t)
  {
    assert (ts + [t])[..|ts|] == ts;
  }

  method AddTerms(m: map<string, Term>, ghost before: seq<Term>, ts: seq<Term>) returns (out: map<string, Term>)
    requires m == Totals(before)
    ensures out == Totals(before + ts)
  {
    out := m;
    var i := 0;
    assert before + ts[..0] == before;
    while i < |ts|
      invariant 0 <= i <= |ts|
      invariant out == Totals(before + ts[..i])
    {
      var term := ts[i];
      var b := if term.value in out then out[term.value] else Term(term.value, 0, 0, 0.0);
      b := b.(docFreq := b.docFreq + term.docFreq, termFreq := b.termFreq + term.termFreq, score := b.score + term.score);
      ghost var seen := before + ts[..i];
      assert out[term.value := b] == Add(Totals(seen), term);
      out := out[term.value := b];
      assert out == Totals(before + ts[..i + 1]) by {
        assert before + ts[..i + 1] == seen + [term];
        TotalsSnoc(seen, term);
      }
      i := i + 1;
    }
    assert ts[..i] == ts;
  }

  method AddResponses(m: map<string, Term>, ghost before: seq<Term>, gtrs: seq<GetTermsResponse>) returns (out: map<string, Term>)
    requires m == Totals(before)
    ensures out == Totals(before + ResponseTerms(gtrs))
  {
    out := m;
    var i := 0;
    assert before + ResponseTerms(gtrs[..0]) == before;
    while i < |gtrs|
      invariant 0 <= i <= |gtrs|
      invariant out == Totals(before + ResponseTerms(gtrs[..i]))
    {
      assert gtrs[..i + 1][..i] == gtrs[..i];
      assert before + ResponseTerms(gtrs[..i + 1]) == (before + ResponseTerms(gtrs[..i])) + gtrs[i].terms;
      out := AddTerms(out, before + ResponseTerms(gtrs[..i]), gtrs[i].terms);
      i := i + 1;
    }
    assert gtrs[..i] == gtrs;
  }

  /** The three nested loops filling the term map. */
  method AddAll(responses: seq<InternalGetTermsResponse>) returns (terms: map<string, Term>)
    ensures terms == Totals(AllTerms(responses))
  {
    terms := map[];
    var i := 0;
    while i < |responses|
      invariant 0 <= i <= |responses|
      invariant terms == Totals(AllTerms(responses[..i]))
    {
      assert responses[..i + 1][..i] == responses[..i];
      terms := AddResponses(terms, AllTerms(responses[..i]), responses[i].getTermsResponses);
      i := i + 1;
    }
    assert responses[..i] == responses;
  }

  // ---------------------------------------------------------------------------------------
  // Ascending key order

  predicate Ascending(ts: seq<Term>)
  {
    forall i, j :: 0 <= i < j < |ts| ==> CompareStrings(ts[i].value, ts[j].value) < 0
  }

  /** `t` placed before the first entry whose key is greater. */
  function InsertByKey(t: Term, ts: seq<Term>): (r: seq<Term>)
    ensures multiset(r) == multiset(ts) + multiset{t}
  {
    if |ts| == 0 then [t]
    else if CompareStrings(t.value, ts[0].value) < 0 then [t] + ts
    else
      assert ts == [ts[0]] + ts[1..];
      [ts[0]] + InsertByKey(t, ts[1..])
  }

  /** entries.sort(Map.Entry.comparingByKey()). */
  function SortByKey(ts: seq<Term>): (r: seq<Term>)
    ensures multiset(r) == multiset(ts)
  {
    if |ts| == 0 then []
    else
      assert ts == ts[..|ts| - 1] + [ts[|ts| - 1]];
      InsertByKey(ts[|ts| - 1], SortByKey(ts[..|ts| - 1]))
  }

  lemma {:induction false} InsertByKeyAscending(t: Term, ts: seq<Term>)
    requires Ascending(ts) && forall k :: 0 <= k < |ts| ==> ts[k].value != t.value
    ensures Ascending(InsertByKey(t, ts))
  {
    if |ts| > 0 && CompareStrings(t.value, ts[0].value) < 0 {
      HeadBelowAll(t, ts);
      AscendingCons(t, ts);
    } else if |ts| > 0 {
      var rest := ts[1..];
      assert Ascending(rest);
      InsertByKeyAscending(t, rest);
      CompareStringsAntisymmetric(t.value, ts[0].value);
      BelowInserted(ts[0], t, rest);
      AscendingCons(ts[0], InsertByKey(t, rest));
    }
  }

  /** A key below every key of an ascending list keeps it ascending when put first. */
  lemma AscendingCons(x: Term, ts: seq<Term>)
    requires Ascending(ts) && forall j :: 0 <= j < |ts| ==> CompareStrings(x.value, ts[j].value) < 0
    ensures Ascending([x] + ts)
  {
    var r := [x] + ts;
    forall i, j | 0 <= i < j < |r|
      ensures CompareStrings(r[i].value, r[j].value) < 0
    {
      assert r[j] == ts[j - 1];
      if i > 0 {
        assert r[i] == ts[i - 1];
      }
    }
  }

  /** A key below the first of an ascending list is below all of it. */
  lemma HeadBelowAll(t: Term, ts: seq<Term>)
    requires Ascending(ts) && |ts| > 0 && CompareStrings(t.value, ts[0].value) < 0
    ensures forall j :: 0 <= j < |ts| ==> CompareStrings(t.value, ts[j].value) < 0
  {
    forall j | 0 < j < |ts|
      ensures CompareStrings(t.value, ts[j].value) < 0
    {
      CompareStringsLessTransitive(t.value, ts[0].value, ts[j].value);
    }
  }

  /** A key below t and below every key of rest is below every key of the insertion. */
  lemma BelowInserted(x: Term, t: Term, rest: seq<Term>)
    requires CompareStrings(x.value, t.value) < 0
    requires forall k :: 0 <= k < |rest| ==> CompareStrings(x.value, rest[k].value) < 0
    ensures forall j :: 0 <= j < |InsertByKey(t, rest)| ==> CompareStrings(x.value, InsertByKey(t, rest)[j].value) < 0
  {
    var r := InsertByKey(t, rest);
    forall j | 0 <= j < |r|
      ensures CompareStrings(x.value, r[j].value) < 0
    {
      assert r[j] in multiset(r);
      if r[j] != t {
        assert r[j] in multiset(rest);
        var k :| 0 <= k < |rest| && rest[k] == r[j];
      }
    }
  }

  /** With distinct keys, sorting by key gives strictly ascending keys. */
  lemma {:induction false} SortByKeyAscending(ts: seq<Term>)
    requires forall i, j :: 0 <= i < j < |ts| ==> ts[i].value != ts[j].value
    ensures Ascending(SortByKey(ts))
  {
    if |ts| > 0 {
      var init := ts[..|ts| - 1];
      SortByKeyAscending(init);
      var sorted := SortByKey(init);
      forall k | 0 <= k < |sorted|
        ensures sorted[k].value != ts[|ts| - 1].value
      {
        assert sorted[k] in multiset(init);
        var j :| 0 <= j < |init| && init[j] == sorted[k];
        assert ts[j] == init[j];
      }
      InsertByKeyAscending(ts[|ts| - 1], sorted);
    }
  }

  // ---------------------------------------------------------------------------------------
  // The counted filtering loop

  predicate Passes(t: Term, minDocFreq: int, minTermFreq: int)
  {
    t.docFreq >= minDocFreq && t.termFreq >= minTermFreq
  }

  /** The entries that meet both minimum frequencies. */
  function Filtered(ts: seq<Term>, minDocFreq: int, minTermFreq: int): seq<Term>
  {
    if |ts| == 0 then []
    else
      Filtered(ts[..|ts| - 1], minDocFreq, minTermFreq) +
        (if Passes(ts[|ts| - 1], minDocFreq, minTermFreq) then [ts[|ts| - 1]] else [])
  }

  /** The loop stops after entry `j` (counted from 1) once `amount` is non-zero and the count
      has reached it. */
  predicate StopsAt(ts: seq<Term>, j: nat, amount: int, minDocFreq: int, minTermFreq: int)
    requires j <= |ts|
  {
    amount != 0 && |Filtered(ts[..j], minDocFreq, minTermFreq)| >= amount
  }

  function VisitedFrom(ts: seq<Term>, j: nat, amount: int, minDocFreq: int, minTermFreq: int): (v: nat)
    requires 1 <= j <= |ts|
    ensures j <= v <= |ts|
    decreases |ts| - j
  {
    if j == |ts| || StopsAt(ts, j, amount, minDocFreq, minTermFreq) then j
    else VisitedFrom(ts, j + 1, amount, minDocFreq, minTermFreq)
  }

  /** How many entries the loop visits. */
  function Visited(ts: seq<Term>, amount: int, minDocFreq: int, minTermFreq: int): (v: nat)
    ensures v <= |ts|
  {
    if |ts| == 0 then 0 else VisitedFrom(ts, 1, amount, minDocFreq, minTermFreq)
  }

  /** The terms output and the last term visited. */
  function Select(ts: seq<Term>, amount: int, minDocFreq: int, minTermFreq: int): GetTermsResponse
  {
    var v := Visited(ts, amount, minDocFreq, minTermFreq);
    GetTermsResponse(Filtered(ts[..v], minDocFreq, minTermFreq), if v == 0 then None else Some(ts[v - 1]))
  }

  lemma {:induction false} FilteredFacts(ts: seq<Term>, minDocFreq: int, minTermFreq: int)
    ensures |Filtered(ts, minDocFreq, minTermFreq)| <= |ts|
    ensures forall x :: x in Filtered(ts, minDocFreq, minTermFreq) <==> x in ts && Passes(x, minDocFreq, minTermFreq)
  {
    if |ts| > 0 {
      FilteredFacts(ts[..|ts| - 1], minDocFreq, minTermFreq);
      assert ts == ts[..|ts| - 1] + [ts[|ts| - 1]];
    }
  }

  /** The stop point is the first entry after which the count reached a non-zero amount. */
  lemma {:induction false} VisitedFromFacts(ts: seq<Term>, j: nat, amount: int, minDocFreq: int, minTermFreq: int)
    requires 1 <= j <= |ts|
    ensures var v := VisitedFrom(ts, j, amount, minDocFreq, minTermFreq);
      (forall i :: j <= i < v ==> !StopsAt(ts, i, amount, minDocFreq, minTermFreq)) &&
      (v < |ts| ==> StopsAt(ts, v, amount, minDocFreq, minTermFreq))
    decreases |ts| - j
  {
    if !(j == |ts| || StopsAt(ts, j, amount, minDocFreq, minTermFreq)) {
      VisitedFromFacts(ts, j + 1, amount, minDocFreq, minTermFreq);
    }
  }

  lemma FilteredStep(ts: seq<Term>, j: nat, minDocFreq: int, minTermFreq: int)
    requires j < |ts|
    ensures |Filtered(ts[..j + 1], minDocFreq, minTermFreq)| <= |Filtered(ts[..j], minDocFreq, minTermFreq)| + 1
  {
    assert ts[..j + 1][..j] == ts[..j];
  }

  /** When amount is positive, at most `amount` terms are output. */
  lemma SelectAtMostAmount(ts: seq<Term>, amount: int, minDocFreq: int, minTermFreq: int)
    requires amount > 0
    ensures |Select(ts, amount, minDocFreq, minTermFreq).terms| <= amount
  {
    var v := Visited(ts, amount, minDocFreq, minTermFreq);
    if v > 0 {
      VisitedFromFacts(ts, 1, amount, minDocFreq, minTermFreq);
      if v > 1 {
        assert !StopsAt(ts, v - 1, amount, minDocFreq, minTermFreq);
        FilteredStep(ts, v - 1, minDocFreq, minTermFreq);
      } else {
        FilteredFacts(ts[..1], minDocFreq, minTermFreq);
      }
    }
  }

  /** With no limit, every entry is visited: the output is every passing term and the last
      term is the last entry. */
  lemma SelectUnlimited(ts: seq<Term>, minDocFreq: int, minTermFreq: int)
    ensures Select(ts, 0, minDocFreq, minTermFreq) ==
      GetTermsResponse(Filtered(ts, minDocFreq, minTermFreq), if |ts| == 0 then None else Some(ts[|ts| - 1]))
  {
    if |ts| > 0 {
      VisitedFromFacts(ts, 1, 0, minDocFreq, minTermFreq);
      assert ts[..|ts|] == ts;
    }
  }

  /** Every output term meets both minimum frequencies and comes from the entries; the last
      term is an entry, whether or not it passed, and there is one exactly when some entry
      was visited. */
  lemma SelectSound(ts: seq<Term>, amount: int, minDocFreq: int, minTermFreq: int)
    ensures var r := Select(ts, amount, minDocFreq, minTermFreq);
      (forall x :: x in r.terms ==> x in ts && Passes(x, minDocFreq, minTermFreq)) &&
      (r.lastTerm.Some? <==> |ts| > 0) && (r.lastTerm.Some? ==> r.lastTerm.value in ts)
  {
    var v := Visited(ts, amount, minDocFreq, minTermFreq);
    FilteredFacts(ts[..v], minDocFreq, minTermFreq);
    if |ts| > 0 {
      assert ts[v - 1] in ts;
    }
  }

  /** The loop over the sorted entries, leaving when the count reaches a non-zero amount. */
  method SelectTerms(ts: seq<Term>, amount: int, minDocFreq: int, minTermFreq: int) returns (r: GetTermsResponse)
    ensures r == Select(ts, amount, minDocFreq, minTermFreq)
  {
    var out: seq<Term> := [];
    var value: Option<Term> := None;
    var count := 0;
    var i := 0;
    while i < |ts|
      invariant 0 <= i <= |ts|
      invariant out == Filtered(ts[..i], minDocFreq, minTermFreq) && count == |out|
      invariant value == if i == 0 then None else Some(ts[i - 1])
      invariant i >= 1 ==> !StopsAt(ts, i, amount, minDocFreq, minTermFreq)
      invariant i >= 1 ==> VisitedFrom(ts, i, amount, minDocFreq, minTermFreq) == Visited(ts, amount, minDocFreq, minTermFreq)
    {
      assert ts[..i + 1][..i] == ts[..i];
      value := Some(ts[i]);
      if ts[i].docFreq >= minDocFreq && ts[i].termFreq >= minTermFreq {
        out := out + [ts[i]];
        count := count + 1;
      }
      if amount != 0 && count >= amount {
        assert StopsAt(ts, i + 1, amount, minDocFreq, minTermFreq);
        i := i + 1;
        break;
      }
      i := i + 1;
    }
    r := GetTermsResponse(out, value);
  }

  // ---------------------------------------------------------------------------------------
  // getResponse

  /** getResponse on the responses of every node. */
  function Federate(request: GetTermsRequest, responses: seq<InternalGetTermsResponse>): GetTermsResponse
  {
    var ts := AllTerms(responses);
    var m := Totals(ts);
    var entries := SortByKey(Entries(m, FirstOccurrences(ts)));
    Select(entries, request.amount, request.minDocFreq, request.minTermFreq)
  }

  /** The output terms are in strictly ascending order, each meets both minimum frequencies
      and holds the sums of its occurrences over all responses. */
  lemma FederateFacts(request: GetTermsRequest, responses: seq<InternalGetTermsResponse>)
    ensures var r := Federate(request, responses);
      var ts := AllTerms(responses);
      Ascending(r.terms) &&
      forall x :: x in r.terms ==> (Passes(x, request.minDocFreq, request.minTermFreq) && Occurs(ts, x.value) &&
        x == Term(x.value, DocFreqOf(ts, x.value), TermFreqOf(ts, x.value), ScoreOf(ts, x.value)))
  {
    var ts := AllTerms(responses);
    var entries := Entries(Totals(ts), FirstOccurrences(ts));
    EntriesFacts(ts);
    SortByKeyAscending(entries);
    var sorted := SortByKey(entries);
    var v := Visited(sorted, request.amount, request.minDocFreq, request.minTermFreq);
    FilteredFacts(sorted[..v], request.minDocFreq, request.minTermFreq);
    FilteredAscending(sorted[..v], request.minDocFreq, request.minTermFreq);
    forall x | x in Federate(request, responses).terms
      ensures Occurs(ts, x.value) && x == Term(x.value, DocFreqOf(ts, x.value), TermFreqOf(ts, x.value), ScoreOf(ts, x.value))
    {
      assert x in sorted;
      assert x in multiset(entries);
    }
  }

  /** The totals listed in first-occurrence order have distinct terms, each the sums of its
      occurrences. */
  lemma EntriesFacts(ts: seq<Term>)
    ensures forall k :: k in FirstOccurrences(ts) ==> k in Totals(ts)
    ensures var entries := Entries(Totals(ts), FirstOccurrences(ts));
      (forall i, j :: 0 <= i < j < |entries| ==> entries[i].value != entries[j].value) &&
      forall x :: x in entries ==> Occurs(ts, x.value) && x == Term(x.value, DocFreqOf(ts, x.value), TermFreqOf(ts, x.value), ScoreOf(ts, x.value))
  {
    var m := Totals(ts);
    var keys := FirstOccurrences(ts);
    FirstOccurrencesDistinct(ts);
    TotalsAreSums(ts);
    var entries := Entries(m, keys);
    forall i, j | 0 <= i < j < |entries|
      ensures entries[i].value != entries[j].value
    {
      assert entries[i].value == keys[i] && entries[j].value == keys[j];
    }
    forall x | x in entries
      ensures Occurs(ts, x.value) && x == Term(x.value, DocFreqOf(ts, x.value), TermFreqOf(ts, x.value), ScoreOf(ts, x.value))
    {
      var k :| 0 <= k < |entries| && entries[k] == x;
      assert m[keys[k]].value == keys[k];
    }
  }

  lemma {:induction false} FilteredAscending(ts: seq<Term>, minDocFreq: int, minTermFreq: int)
    requires Ascending(ts)
    ensures Ascending(Filtered(ts, minDocFreq, minTermFreq))
  {
    if |ts| > 0 {
      var init := ts[..|ts| - 1];
      assert Ascending(init);
      FilteredAscending(init, minDocFreq, minTermFreq);
      FilteredFacts(init, minDocFreq, minTermFreq);
      var f := Filtered(init, minDocFreq, minTermFreq);
      forall i | 0 <= i < |f|
        ensures CompareStrings(f[i].value, ts[|ts| - 1].value) < 0
      {
        assert f[i] in init;
      }
    }
  }

  /** The same, step by step: the nested loops fill the map, the entries are sorted, and the
      counted loop selects. */
  method GetResponse(request: GetTermsRequest, responses: seq<InternalGetTermsResponse>) returns (r: GetTermsResponse)
    ensures r == Federate(request, responses)
  {
    var terms := AddAll(responses);
    var keys := KeysInOrder(responses);
    var entries := SortByKey(Entries(terms, keys));
    r := SelectTerms(entries, request.amount, request.minDocFreq, request.minTermFreq);
  }

  /** The map's key order: the order in which keys were first added. */
  method KeysInOrder(responses: seq<InternalGetTermsResponse>) returns (keys: seq<string>)
    ensures keys == FirstOccurrences(AllTerms(responses))
  {
    var ts := AllTerms(responses);
    keys := [];
    var i := 0;
    while i < |ts|
      invariant 0 <= i <= |ts|
      invariant keys == FirstOccurrences(ts[..i])
    {
      assert ts[..i + 1][..i] == ts[..i];
      if ts[i].value !in keys {
        keys := keys + [ts[i].value];
      }
      i := i + 1;
    }
    assert ts[..i] == ts;
  }
}
