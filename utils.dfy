/** audition/utils.py: the SQL list serializer and the metric-direction lookup. */
module Utils {
  import opened Results

  /** One value wrapped in single quotes; quotes inside the value are not
      escaped. */
  function Quote(v: string): string {
    "'" + v + "'"
  }

  function TotalLength(values: seq<string>): nat {
    if |values| == 0 then 0 else |values[0]| + TotalLength(values[1..])
  }

  /** `str_in_sql`: the values, each in single quotes, separated by commas.
      The text is empty exactly for no values, otherwise it starts and ends
      with a quote; each value costs its length plus two quotes, and n values
      need n - 1 separating commas. */
  function StrInSql(values: seq<string>): (s: string)
    ensures s == "" <==> |values| == 0
    ensures |values| > 0 ==> s[0] == '\'' && s[|s| - 1] == '\''
    ensures |s| == TotalLength(values) + 2 * |values| + (if |values| > 0 then |values| - 1 else 0)
  {
    if |values| == 0 then ""
    else if |values| == 1 then Quote(values[0])
    else Quote(values[0]) + "," + StrInSql(values[1..])
  }

  /** Joining two non-empty lists puts one comma between their serializations:
      the values appear in input order. */
  lemma {:induction false} StrInSqlAppend(a: seq<string>, b: seq<string>)
    requires |a| > 0 && |b| > 0
    ensures StrInSql(a + b) == StrInSql(a) + "," + StrInSql(b)
  {
    assert (a + b)[0] == a[0];
    if |a| == 1 {
      assert (a + b)[1..] == b;
    } else {
      assert (a + b)[1..] == a[1..] + b;
      StrInSqlAppend(a[1..], b);
      var head, rest, tail := Quote(a[0]) + ",", StrInSql(a[1..]), StrInSql(b);
      assert StrInSql(a + b) == head + (rest + "," + tail);
      assert StrInSql(a) == head + rest;
      JoinRegroup(head, rest, tail);
    }
  }

  lemma JoinRegroup(head: string, rest: string, tail: string)
    ensures head + (rest + "," + tail) == (head + rest) + "," + tail
  {
  }

  /** The text before the first quote of `s`, and the rest of `s` from that
      quote on (empty when there is none). */
  function SplitAtQuote(s: string): (r: (string, string))
    ensures |r.1| <= |s|
    ensures r.1 == "" || r.1[0] == '\''
  {
    if |s| == 0 then ("", "")
    else if s[0] == '\'' then ("", s)
    else
      var (v, rest) := SplitAtQuote(s[1..]);
      ([s[0]] + v, rest)
  }

  /** Reads back a non-empty list written by StrInSql. */
  function ParseQuotedItems(s: string): Option<seq<string>>
    decreases |s|
  {
    if |s| < 2 || s[0] != '\'' then None
    else
      var (v, rest) := SplitAtQuote(s[1..]);
      if |rest| == 0 then None
      else if |rest| == 1 then Some([v])
      else if rest[1] != ',' then None
      else match ParseQuotedItems(rest[2..])
        case None => None
        case Some(vs) => Some([v] + vs)
  }

  /** The inverse of StrInSql on values without quotes. */
  function ParseInList(s: string): Option<seq<string>> {
    if s == "" then Some([]) else ParseQuotedItems(s)
  }

  lemma {:induction false} SplitAtQuoteOf(v: string, tail: string)
    requires '\'' !in v
    ensures SplitAtQuote(v + "'" + tail) == (v, "'" + tail)
  {
    if |v| > 0 {
      var s := v + "'" + tail;
      assert s[0] == v[0] && v[0] in v;
      assert s[1..] == v[1..] + "'" + tail;
      assert forall c :: c in v[1..] ==> c in v;
      SplitAtQuoteOf(v[1..], tail);
      assert [v[0]] + v[1..] == v;
    } else {
      assert v + "'" + tail == "'" + tail;
    }
  }

  /** A single quoted value without quotes reads back as itself. */
  lemma ParseQuotedOne(v: string)
    requires '\'' !in v
    ensures ParseQuotedItems(Quote(v)) == Some([v])
  {
    var s := Quote(v);
    assert s[1..] == v + "'" + "";
    SplitAtQuoteOf(v, "");
    assert "'" + "" == "'";
  }

  /** A quoted value without quotes, a comma and more text read back as the
      value followed by what the rest reads back as. */
  lemma ParseQuotedCons(v: string, rest: string)
    requires '\'' !in v
    ensures ParseQuotedItems(Quote(v) + "," + rest) ==
      match ParseQuotedItems(rest)
      case None => None
      case Some(vs) => Some([v] + vs)
  {
    var s := Quote(v) + "," + rest;
    assert s[1..] == v + "'" + ("," + rest);
    SplitAtQuoteOf(v, "," + rest);
    assert ("'" + ("," + rest))[2..] == rest;
  }

  /** Round trip: values without embedded quotes are recovered from their
      SQL list text. */
  lemma {:induction false} StrInSqlRoundTrip(values: seq<string>)
    requires forall v :: v in values ==> '\'' !in v
    ensures ParseInList(StrInSql(values)) == Some(values)
  {
    if |values| == 1 {
      assert values[0] in values;
      ParseQuotedOne(values[0]);
      assert values == [values[0]];
    } else if |values| > 1 {
      var rest := StrInSql(values[1..]);
      assert values[0] in values;
      assert forall v :: v in values[1..] ==> v in values;
      StrInSqlRoundTrip(values[1..]);
      assert rest != "";
      ParseQuotedCons(values[0], rest);
      assert values == [values[0]] + values[1..];
    }
  }

  /** Embedded quotes are not escaped, so two different lists can give the
      same SQL text. */
  lemma QuoteIsNotEscaped()
    ensures StrInSql(["a','b"]) == StrInSql(["a", "b"])
  {
    var two := ["a", "b"];
    assert two[1..] == ["b"];
    assert StrInSql(two) == Quote("a") + "," + Quote("b");
    assert StrInSql(["a','b"]) == Quote("a','b");
  }

  /** `greater_is_better` in this file: the registry's flag for a known
      metric, and True for an unknown one. */
  function GreaterIsBetter(availableMetrics: map<string, bool>, metric: string): (r: bool)
    ensures metric in availableMetrics ==> r == availableMetrics[metric]
    ensures metric !in availableMetrics ==> r
  {
    if metric in availableMetrics then availableMetrics[metric] else true
  }
}
