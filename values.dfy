/** The client's Values builder: a list of values searched in some fields, rendered as a
    query string ("-f1,f2:(a OR b)~2") or turned into a filter or scored query. Value
    handlers are total functions on strings; the query objects are records of what the
    builder sets on them. */
module QueryValues {
  import opened Wrappers
  import Calendar
  import JavaInt

  // ---------------------------------------------------------------------------------
  // String.trim and VALUE_QUOTER

  /** Characters String.trim removes: every code point up to and including the space. */
  predicate IsTrimmable(c: char) { c <= ' ' }

  /** How many trimmable characters s starts with. */
  function Leading(s: string): (n: nat)
    ensures n <= |s|
  {
    if |s| > 0 && IsTrimmable(s[0]) then 1 + Leading(s[1..]) else 0
  }

  /** How many trimmable characters s ends with. */
  function Trailing(s: string): (n: nat)
    ensures n <= |s|
  {
    if |s| > 0 && IsTrimmable(s[|s| - 1]) then 1 + Trailing(s[..|s| - 1]) else 0
  }

  /** String.trim: the whitespace and control characters at both ends are removed. */
  function Trim(s: string): string
  {
    var t := s[Leading(s)..];
    t[..|t| - Trailing(t)]
  }

  lemma {:induction false} LeadingFacts(s: string)
    ensures forall k :: 0 <= k < Leading(s) ==> IsTrimmable(s[k])
    ensures Leading(s) < |s| ==> !IsTrimmable(s[Leading(s)])
  {
    if |s| > 0 && IsTrimmable(s[0]) {
      LeadingFacts(s[1..]);
      forall k | 1 <= k < Leading(s)
        ensures IsTrimmable(s[k])
      {
        assert s[k] == s[1..][k - 1];
      }
    }
  }

  lemma {:induction false} TrailingFacts(s: string)
    ensures forall k :: |s| - Trailing(s) <= k < |s| ==> IsTrimmable(s[k])
    ensures Trailing(s) < |s| ==> !IsTrimmable(s[|s| - Trailing(s) - 1])
  {
    if |s| > 0 && IsTrimmable(s[|s| - 1]) {
      TrailingFacts(s[..|s| - 1]);
    }
  }

  /** What trim leaves is one slice of the input, with only trimmable characters before and
      after it, and its own ends not trimmable. */
  lemma TrimFacts(s: string)
    ensures var i := Leading(s);
      var r := Trim(s);
      i + |r| <= |s| && r == s[i..i + |r|] &&
      (forall k :: 0 <= k < i ==> IsTrimmable(s[k])) &&
      (forall k :: i + |r| <= k < |s| ==> IsTrimmable(s[k])) &&
      (|r| > 0 ==> !IsTrimmable(r[0]) && !IsTrimmable(r[|r| - 1]))
  {
    LeadingFacts(s);
    TrimSlice(s);
    TrimEnds(s);
  }

  lemma TrimSlice(s: string)
    ensures Leading(s) + |Trim(s)| <= |s| && Trim(s) == s[Leading(s)..Leading(s) + |Trim(s)|]
    ensures forall k :: Leading(s) + |Trim(s)| <= k < |s| ==> IsTrimmable(s[k])
  {
    var i := Leading(s);
    var t := s[i..];
    var r := Trim(s);
    TrailingFacts(t);
    assert r == t[..|r|];
    assert t[..|r|] == s[i..i + |r|];
    forall k | i + |r| <= k < |s|
      ensures IsTrimmable(s[k])
    {
      assert s[k] == t[k - i];
    }
  }

  lemma TrimEnds(s: string)
    ensures |Trim(s)| > 0 ==> !IsTrimmable(Trim(s)[0]) && !IsTrimmable(Trim(s)[|Trim(s)| - 1])
  {
    var i := Leading(s);
    var t := s[i..];
    var r := Trim(s);
    if |r| > 0 {
      LeadingFacts(s);
      TrailingFacts(t);
      assert r[0] == t[0] == s[i];
      assert r[|r| - 1] == t[|t| - Trailing(t) - 1];
    }
  }

  /** A string whose ends are not trimmable is its own trim. */
  lemma TrimUnchanged(s: string)
    requires |s| > 0 ==> !IsTrimmable(s[0]) && !IsTrimmable(s[|s| - 1])
    ensures Trim(s) == s
  {
    assert Leading(s) == 0;
    assert s[0..] == s;
    assert Trailing(s) == 0;
  }

  /** startsWith("\"") && endsWith("\""): a lone quote counts too. */
  predicate IsQuoted(t: string)
  {
    |t| > 0 && t[0] == '"' && t[|t| - 1] == '"'
  }

  /** VALUE_QUOTER: the trimmed value, put in quotes when it holds a space or a '-' and is
      not quoted already. */
  function Quote(s: string): (r: string)
    ensures r == Trim(s) || r == "\"" + Trim(s) + "\""
  {
    var t := Trim(s);
    if IsQuoted(t) then t
    else if ' ' in t || '-' in t then "\"" + t + "\""
    else t
  }

  /** A value gains quotes exactly when, trimmed, it is unquoted and holds a space or a '-';
      otherwise it is only trimmed. */
  lemma QuoteFacts(s: string)
    ensures Quote(s) == "\"" + Trim(s) + "\"" <==> !IsQuoted(Trim(s)) && (' ' in Trim(s) || '-' in Trim(s))
    ensures Quote(s) != "\"" + Trim(s) + "\"" ==> Quote(s) == Trim(s)
  {
    var t := Trim(s);
    assert |"\"" + t + "\""| != |t|;
  }

  /** Quoting twice quotes once. */
  lemma QuoteIdempotent(s: string)
    ensures Quote(Quote(s)) == Quote(s)
  {
    var t := Trim(s);
    var q := Quote(s);
    TrimFacts(s);
    if q == t {
      TrimUnchanged(t);
    } else {
      assert q == "\"" + t + "\"";
      assert q[0] == '"' && q[|q| - 1] == '"';
      TrimUnchanged(q);
    }
  }

  /** A quoted value keeps no space or '-' outside quotes. */
  lemma QuoteProtects(s: string)
    ensures (' ' in Quote(s) || '-' in Quote(s)) ==> IsQuoted(Quote(s))
  {
    var t := Trim(s);
    if Quote(s) != t {
      var q := "\"" + t + "\"";
      assert Quote(s) == q && q[0] == '"' && q[|q| - 1] == '"';
    }
  }

  // ---------------------------------------------------------------------------------
  // Joiner and a splitter to read a joined list back

  /** Joiner.on(sep).join: the items with sep between neighbours. */
  function Join(xs: seq<string>, sep: string): string
  {
    if |xs| == 0 then ""
    else if |xs| == 1 then xs[0]
    else xs[0] + sep + Join(xs[1..], sep)
  }

  /** The first position of c in s, if any. */
  function Find(s: string, c: char): (r: Option<nat>)
    ensures r.Some? ==> r.value < |s|
  {
    if |s| == 0 then None
    else if s[0] == c then Some(0)
    else match Find(s[1..], c)
      case Some(i) => Some(i + 1)
      case None => None
  }

  lemma {:induction false} FindFirst(s: string, c: char, i: nat)
    requires i < |s| && s[i] == c && forall k :: 0 <= k < i ==> s[k] != c
    ensures Find(s, c) == Some(i)
  {
    if i > 0 {
      FindFirst(s[1..], c, i - 1);
    }
  }

  lemma {:induction false} FindNone(s: string, c: char)
    requires forall k :: 0 <= k < |s| ==> s[k] != c
    ensures Find(s, c) == None
  {
    if |s| > 0 {
      FindNone(s[1..], c);
    }
  }

  /** The pieces of s between the occurrences of c. */
  function Split(s: string, c: char): seq<string>
    decreases |s|
  {
    match Find(s, c)
    case None => [s]
    case Some(i) => [s[..i]] + Split(s[i + 1..], c)
  }

  /** Items free of the separator character are read back by splitting on it. */
  lemma {:induction false} SplitJoin(xs: seq<string>, c: char)
    requires |xs| > 0 && forall i :: 0 <= i < |xs| ==> c !in xs[i]
    ensures Split(Join(xs, [c]), c) == xs
  {
    if |xs| == 1 {
      FindNone(xs[0], c);
    } else {
      var rest := Join(xs[1..], [c]);
      var s := Join(xs, [c]);
      assert s == xs[0] + [c] + rest;
      assert s[..|xs[0]|] == xs[0];
      FindFirst(s, c, |xs[0]|);
      assert s[|xs[0]| + 1..] == rest;
      SplitJoin(xs[1..], c);
    }
  }

  /** A character in none of the items and not in the separator is not in their join. */
  lemma {:induction false} JoinAvoids(xs: seq<string>, sep: string, c: char)
    requires c !in sep && forall i :: 0 <= i < |xs| ==> c !in xs[i]
    ensures c !in Join(xs, sep)
  {
    if |xs| > 1 {
      JoinAvoids(xs[1..], sep, c);
    }
  }

  // ---------------------------------------------------------------------------------
  // Integer.toString

  function ParseInt(s: string): int
  {
    if |s| > 0 && s[0] == '-' then 0 - (Calendar.DigitsValue(s[1..]) as int) else Calendar.DigitsValue(s) as int
  }

  /** The value read back from a digit string is the number written. */
  lemma {:induction false} DigitsRoundTrip(n: nat)
    ensures Calendar.DigitsValue(JavaInt.Digits(n)) == n
  {
    if n >= 10 {
      DigitsRoundTrip(n / 10);
      var r := JavaInt.Digits(n);
      assert r[..|r| - 1] == JavaInt.Digits(n / 10);
    }
  }

  /** The text of an int reads back as the same int. */
  lemma IntToStringRoundTrip(n: int)
    ensures ParseInt(JavaInt.IntToString(n)) == n
  {
    if n < 0 {
      DigitsRoundTrip(-n);
      assert JavaInt.IntToString(n)[1..] == JavaInt.Digits(-n);
    } else {
      DigitsRoundTrip(n);
    }
  }

  // ---------------------------------------------------------------------------------
  // asString

  datatype QueryType = ANY | ALL | AT_LEAST

  /** The fields given, none when null. */
  function FieldList(fields: Option<seq<string>>): seq<string>
  {
    if fields.Some? then fields.value else []
  }

  function Separator(t: QueryType): string
  {
    if t == ALL then " AND " else " OR "
  }

  /** "~n" for AT_LEAST (StringBuilder.append writes a null Integer as "null"). */
  function Suffix(t: QueryType, minimumShouldMatch: Option<int>): string
  {
    if t == AT_LEAST then "~" + (if minimumShouldMatch.Some? then JavaInt.IntToString(minimumShouldMatch.value) else "null") else ""
  }

  /** asString over the handled values. */
  function Render(exclude: bool, fields: Option<seq<string>>, handled: seq<string>, t: QueryType, minimumShouldMatch: Option<int>): string
  {
    Header(exclude, fields) + "(" + Join(handled, Separator(t)) + ")" + Suffix(t, minimumShouldMatch)
  }

  /** The exclusion mark and the "f1,f2:" field list. */
  function Header(exclude: bool, fields: Option<seq<string>>): string
  {
    (if exclude then "-" else "") + (if |FieldList(fields)| > 0 then Join(FieldList(fields), ",") + ":" else "")
  }

  /** A field name the header can be read back from: non-empty, without ',' or ':', and not
      starting with '-' or '('. */
  predicate PlainFieldName(f: string)
  {
    |f| > 0 && ',' !in f && ':' !in f && f[0] != '-' && f[0] != '('
  }

  /** Reads the exclusion mark and the field list text off the front of a query string:
      the text before the first ':' unless the values part starts right away. */
  function ParseHeader(r: string): (bool, Option<string>, string)
  {
    var exclude := |r| > 0 && r[0] == '-';
    var s := if exclude then r[1..] else r;
    if |s| > 0 && s[0] == '(' then (exclude, None, s)
    else match Find(s, ':')
      case Some(i) => (exclude, Some(s[..i]), s[i + 1..])
      case None => (exclude, None, s)
  }

  /** The query string starts with '-' exactly when the values are excluded, then lists the
      fields (when any are given) before the parenthesised values: reading the header back
      gives the exclusion, the fields, and the values part. */
  lemma RenderHeader(exclude: bool, fields: Option<seq<string>>, handled: seq<string>, t: QueryType, minimumShouldMatch: Option<int>)
    requires forall i :: 0 <= i < |FieldList(fields)| ==> PlainFieldName(FieldList(fields)[i])
    ensures var h := ParseHeader(Render(exclude, fields, handled, t, minimumShouldMatch));
      h.0 == exclude && h.2 == "(" + Join(handled, Separator(t)) + ")" + Suffix(t, minimumShouldMatch) &&
      (h.1.None? <==> |FieldList(fields)| == 0) &&
      (h.1.Some? ==> Split(h.1.value, ',') == FieldList(fields))
  {
    var fs := FieldList(fields);
    var body := "(" + Join(handled, Separator(t)) + ")" + Suffix(t, minimumShouldMatch);
    assert Render(exclude, fields, handled, t, minimumShouldMatch) == Header(exclude, fields) + body;
    HeaderParses(exclude, fields, body);
    if |fs| > 0 {
      SplitJoin(fs, ',');
    }
  }

  lemma HeaderParses(exclude: bool, fields: Option<seq<string>>, body: string)
    requires forall i :: 0 <= i < |FieldList(fields)| ==> PlainFieldName(FieldList(fields)[i])
    requires |body| > 0 && body[0] == '('
    ensures ParseHeader(Header(exclude, fields) + body) ==
      (exclude, if |FieldList(fields)| > 0 then Some(Join(FieldList(fields), ",")) else None, body)
  {
    var fs := FieldList(fields);
    var mark := if exclude then "-" else "";
    if |fs| > 0 {
      var joined := Join(fs, ",");
      assert Header(exclude, fields) + body == mark + joined + ":" + body;
      assert |joined| > 0 && joined[0] != '-' && joined[0] != '(' && ':' !in joined by {
        JoinAvoids(fs, ",", ':');
        JoinFirst(fs, ",");
      }
      ParseHeaderFields(exclude, joined, body);
    } else {
      assert Header(exclude, fields) + body == mark + body;
      ParseHeaderPlain(exclude, body);
    }
  }

  lemma ParseHeaderFields(exclude: bool, joined: string, body: string)
    requires |joined| > 0 && joined[0] != '-' && joined[0] != '(' && ':' !in joined
    ensures ParseHeader((if exclude then "-" else "") + joined + ":" + body) == (exclude, Some(joined), body)
  {
    var r := (if exclude then "-" else "") + joined + ":" + body;
    var s := joined + ":" + body;
    assert (if exclude then r[1..] else r) == s;
    FindFirst(s, ':', |joined|);
    assert s[..|joined|] == joined && s[|joined| + 1..] == body;
  }

  lemma ParseHeaderPlain(exclude: bool, body: string)
    requires |body| > 0 && body[0] == '('
    ensures ParseHeader((if exclude then "-" else "") + body) == (exclude, None, body)
  {
    var r := (if exclude then "-" else "") + body;
    assert (if exclude then r[1..] else r) == body;
  }

  lemma JoinFirst(xs: seq<string>, sep: string)
    requires |xs| > 0 && |xs[0]| > 0
    ensures |Join(xs, sep)| > 0 && Join(xs, sep)[0] == xs[0][0]
  {
  }

  /** With AT_LEAST and a minimum the query string ends in '~' and the minimum, which reads
      back; the other types end with the closing parenthesis. */
  lemma RenderSuffix(exclude: bool, fields: Option<seq<string>>, handled: seq<string>, t: QueryType, minimumShouldMatch: Option<int>)
    ensures var r := Render(exclude, fields, handled, t, minimumShouldMatch);
      (t == AT_LEAST && minimumShouldMatch.Some? ==>
        var k := |JavaInt.IntToString(minimumShouldMatch.value)|;
        |r| > k && r[|r| - k - 1] == '~' && ParseInt(r[|r| - k..]) == minimumShouldMatch.value) &&
      (t != AT_LEAST ==> r[|r| - 1] == ')')
  {
    var pre := Header(exclude, fields) + "(" + Join(handled, Separator(t)) + ")";
    var r := Render(exclude, fields, handled, t, minimumShouldMatch);
    assert r == pre + Suffix(t, minimumShouldMatch);
    if t == AT_LEAST && minimumShouldMatch.Some? {
      var x := JavaInt.IntToString(minimumShouldMatch.value);
      assert r == (pre + "~") + x;
      SuffixAfter(pre + "~", x);
      IntToStringRoundTrip(minimumShouldMatch.value);
    } else if t != AT_LEAST {
      assert r == pre;
    }
  }

  lemma SuffixAfter(a: string, b: string)
    ensures (a + b)[|a|..] == b
    ensures |a| > 0 ==> (a + b)[|a| - 1] == a[|a| - 1]
  {
  }

  /** One value renders the same whatever the type joins with: ANY and ALL differ only in
      the separator. */
  lemma SingleValue(exclude: bool, fields: Option<seq<string>>, v: string)
    ensures Render(exclude, fields, [v], ANY, None) == Render(exclude, fields, [v], ALL, None)
    ensures Render(exclude, fields, [v], ANY, None) ==
      (if exclude then "-" else "") + (if |FieldList(fields)| > 0 then Join(FieldList(fields), ",") + ":" else "") + "(" + v + ")"
  {
  }

  // ---------------------------------------------------------------------------------
  // asQuery

  datatype QueryKind = FILTER | SCORED
  datatype Operator = AND | OR

  /** What asQuery sets on the query it builds. */
  datatype StandardQuery = StandardQuery(kind: QueryKind, query: string, defaultOperator: Operator,
    queryFields: seq<string>, excluded: bool, minShouldMatch: Option<int>)

  function Handled(vs: seq<string>, h: string -> string): seq<string>
  {
    seq(|vs|, i requires 0 <= i < |vs| => h(vs[i]))
  }

  class Values {
    const queryType: QueryType
    const minimumShouldMatch: Option<int>
    var values: Option<seq<string>>
    var fields: Option<seq<string>>
    var exclude: bool
    var valueHandler: string -> string

    /** Only atLeast carries a minimum. */
    predicate Valid()
      reads this
    {
      queryType == AT_LEAST <==> minimumShouldMatch.Some?
    }

    /** Values.any() */
    constructor Any()
      ensures Valid() && queryType == ANY && minimumShouldMatch == None
      ensures values == None && fields == None && !exclude && valueHandler == Quote
    {
      queryType := ANY;
      minimumShouldMatch := None;
      values := None;
      fields := None;
      exclude := false;
      valueHandler := Quote;
    }

    /** Values.all() */
    constructor All()
      ensures Valid() && queryType == ALL && minimumShouldMatch == None
      ensures values == None && fields == None && !exclude && valueHandler == Quote
    {
      queryType := ALL;
      minimumShouldMatch := None;
      values := None;
      fields := None;
      exclude := false;
      valueHandler := Quote;
    }

    /** Values.atLeast(n) */
    constructor AtLeast(n: int)
      ensures Valid() && queryType == AT_LEAST && minimumShouldMatch == Some(n)
      ensures values == None && fields == None && !exclude && valueHandler == Quote
    {
      queryType := AT_LEAST;
      minimumShouldMatch := Some(n);
      values := None;
      fields := None;
      exclude := false;
      valueHandler := Quote;
    }

    /** of(values) */
    method Of(vs: seq<string>) returns (r: Values)
      modifies this
      ensures r == this && values == Some(vs)
      ensures fields == old(fields) && exclude == old(exclude) && valueHandler == old(valueHandler)
    {
      values := Some(vs);
      return this;
    }

    /** exclude() */
    method Exclude() returns (r: Values)
      modifies this
      ensures r == this && exclude
      ensures values == old(values) && fields == old(fields) && valueHandler == old(valueHandler)
    {
      exclude := true;
      return this;
    }

    /** include() */
    method Include() returns (r: Values)
      modifies this
      ensures r == this && !exclude
      ensures values == old(values) && fields == old(fields) && valueHandler == old(valueHandler)
    {
      exclude := false;
      return this;
    }

    /** withFields(fields) */
    method WithFields(fs: seq<string>) returns (r: Values)
      modifies this
      ensures r == this && fields == Some(fs)
      ensures values == old(values) && exclude == old(exclude) && valueHandler == old(valueHandler)
    {
      fields := Some(fs);
      return this;
    }

    /** valueHandler(handler) */
    method ValueHandler(h: string -> string) returns (r: Values)
      modifies this
      ensures r == this && valueHandler == h
      ensures values == old(values) && fields == old(fields) && exclude == old(exclude)
    {
      valueHandler := h;
      return this;
    }

    /** asString: a NullPointerException when no values were given. */
    function AsString(): (r: Result<string>)
      reads this
      ensures r.Err? <==> values.None?
      ensures r.Ok? ==> r.value == Render(exclude, fields, Handled(values.value, valueHandler), queryType, minimumShouldMatch)
    {
      if values.None? then Err("NullPointerException")
      else Ok(Render(exclude, fields, Handled(values.value, valueHandler), queryType, minimumShouldMatch))
    }

    /** asQuery: the values, handled and joined by spaces, searched in the given fields with
        AND for ALL and OR otherwise; a filter query takes the exclusion, a scored query
        refuses it. Unset values or fields end in a NullPointerException. */
    function AsQuery(kind: QueryKind): (r: Result<StandardQuery>)
      reads this
      ensures r.Ok? <==> values.Some? && fields.Some? && !(exclude && kind == SCORED)
      ensures values.Some? && fields.Some? && exclude && kind == SCORED ==>
        r == Err("IllegalStateException: Exclude cannot be used with ScoredQuery")
      ensures r.Ok? ==> (r.value.kind == kind && r.value.excluded == exclude && r.value.queryFields == fields.value &&
        (r.value.defaultOperator == AND <==> queryType == ALL) && r.value.minShouldMatch == minimumShouldMatch)
      ensures r.Ok? && r.value.kind == SCORED ==> !r.value.excluded
      ensures Valid() && r.Ok? ==> (r.value.minShouldMatch.Some? <==> queryType == AT_LEAST)
    {
      if values.None? || fields.None? then Err("NullPointerException")
      else if exclude && kind == SCORED then Err("IllegalStateException: Exclude cannot be used with ScoredQuery")
      else
        var query := Join(Handled(values.value, valueHandler), " ");
        Ok(StandardQuery(kind, query, if queryType == ALL then AND else OR, fields.value, exclude, minimumShouldMatch))
    }
  }

  /** The query string starts with '-' exactly when the values are excluded or the first
      field itself starts with '-'. */
  lemma RenderExclusion(exclude: bool, fields: Option<seq<string>>, handled: seq<string>, t: QueryType, minimumShouldMatch: Option<int>)
    ensures var r := Render(exclude, fields, handled, t, minimumShouldMatch);
      |r| > 0 && (r[0] == '-' <==> exclude || DashFirst(fields))
  {
    var fs := FieldList(fields);
    if !exclude && |fs| > 0 {
      if |fs[0]| > 0 {
        JoinFirst(fs, ",");
      } else if |fs| > 1 {
        assert Join(fs, ",")[0] == ',';
      }
    }
  }

  /** The first field given starts with '-'. */
  predicate DashFirst(fields: Option<seq<string>>)
  {
    |FieldList(fields)| > 0 && |FieldList(fields)[0]| > 0 && FieldList(fields)[0][0] == '-'
  }
}
