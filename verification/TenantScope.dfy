// The guarantees of the query compiler: round trips of whole queries, isolation
// of tenants, agreement with the passes that run before it.
module TenantScope {
  import opened Wrappers
  import opened Text
  import opened PromLex
  import opened Query
  import opened PromQL
  import opened Compiler
  import opened QueryMeaning
  import PartitionRegex

  // ---------- whole texts parse to the intended trees ----------

  /** An instant query reads back as its tree, an instant vector, and is rejected exactly when not well formed. */
  lemma ScalarRoundTrip(dialect: Dialect, q: MetricQuery, f: TenantFilter, dur: int, g: FloatFormat)
    requires GoodFormat(g)
    ensures ParseText(dialect, BuildScalarPromQL(q, f, dur, g))
         == if WellFormed(dialect, q, f) then Some(Compile(q, f, dur, g)) else None
    ensures KindOf(Compile(q, f, dur, g)).Instant?
  {
    hide Lex, WellFormed;
    var s := BuildScalarPromQL(q, f, dur, g);
    LexEnd();
    ScalarReads(dialect, q, f, dur, g, "");
    CompileIsInstant(q, f, dur, g);
    assert s + "" == s;
  }

  lemma PrimaryIsExpr(dialect: Dialect, t: Toks)
    requires ParsePrimary(dialect, t).Done? ==> ParsePrimary(dialect, t).rest == Nil
    ensures ParseExpr(dialect, t) == ParsePrimary(dialect, t)
  {
  }

  lemma RateRoundTrip(dialect: Dialect, q: MetricQuery, f: TenantFilter, step: int)
    ensures ParseText(dialect, BuildRatePromQL(q, f, step))
         == if GoodSelector(dialect, q.metric, q, f) then Some(CompileRate(q, f, step)) else None
  {
    hide Lex, GoodSelector;
    var s := BuildRatePromQL(q, f, step);
    LexEnd();
    assert s + "" == s;
    FormatDurationIsNumber(step);
    if q.aggregation == Gauge {
      GaugeAggregateReads(dialect, "", q, f, "");
    } else {
      AggregateOfWindowReads(dialect, "sum", "increase", "", q.metric, q, f, FormatDuration(step), "");
    }
    PrimaryIsExpr(dialect, Lex(s));
  }

  lemma IntTextIsNumber(n: int)
    ensures IsNumberText(IntText(n))
  {
  }

  lemma TopNShape(k: string, inner: string)
    ensures "topk(" + k + ", " + inner + ")" == "topk" + "(" + (k + ([','] + (" " + (inner + ([')'] + "")))))
  {
  }

  lemma TopKToksRead(dialect: Dialect, k: string, inner: Toks)
    ensures ParsePrimary(dialect, Cons(Ident("topk"), Cons(Sym('('), Cons(Number(k), Cons(Sym(','), inner))))) ==
            match ParseClosed(dialect, inner)
            case Done(e, rest) => if KindOf(e).Instant? then Done(TopK(k, e), rest) else Fail
            case Fail => Fail
  {
  }

  lemma TopNRoundTrip(dialect: Dialect, q: MetricQuery, f: TenantFilter, dur: int, groupBy: string, limit: int,
                      g: FloatFormat)
    requires GoodFormat(g)
    ensures var grouped, text := q.(groupBy := groupBy), BuildTopNPromQL(q, f, dur, groupBy, limit, g);
            ParseText(dialect, text) ==
            if WellFormed(dialect, grouped, f) then Some(TopK(IntText(limit), Compile(grouped, f, dur, g))) else None
  {
    hide Lex, IntText, BuildScalarPromQL, WellFormed;
    var grouped := q.(groupBy := groupBy);
    var inner := BuildScalarPromQL(grouped, f, dur, g);
    var t := inner + ([')'] + "");
    TopNShape(IntText(limit), inner);
    LexEnd();
    LexSym(')', "");
    LexSpace(t);
    LexSym(',', " " + t);
    IntTextIsNumber(limit);
    LexNumber(IntText(limit), [','] + (" " + t));
    assert IsName("topk", IsMetricChar);
    LexOpen("topk", IntText(limit) + ([','] + (" " + t)));
    ScalarReads(dialect, grouped, f, dur, g, [')'] + "");
    CompileIsInstant(grouped, f, dur, g);
    TopKToksRead(dialect, IntText(limit), Lex(t));
    PrimaryIsExpr(dialect, Lex(BuildTopNPromQL(q, f, dur, groupBy, limit, g)));
  }

  /** The text of any request is well formed exactly when this holds. */
  predicate Accepted(dialect: Dialect, r: Request, q: MetricQuery, f: TenantFilter) {
    match r
    case Scalar => WellFormed(dialect, q, f)
    case TimeSeries(_) => GoodSelector(dialect, q.metric, q, f)
    case Grouped(groupBy) => WellFormed(dialect, q.(groupBy := groupBy), f)
    case TopN(groupBy, _) => WellFormed(dialect, q.(groupBy := groupBy), f)
  }

  lemma AcceptedExactly(dialect: Dialect, r: Request, q: MetricQuery, f: TenantFilter, dur: int, g: FloatFormat)
    requires GoodFormat(g)
    ensures ParseText(dialect, TextFor(r, q, f, dur, g)).Some? <==> Accepted(dialect, r, q, f)
  {
    hide ParseText, WellFormed, GoodSelector, BuildScalarPromQL, BuildRatePromQL, BuildTopNPromQL;
    match r
    case Scalar => ScalarRoundTrip(dialect, q, f, dur, g);
    case TimeSeries(step) => RateRoundTrip(dialect, q, f, step);
    case Grouped(groupBy) => ScalarRoundTrip(dialect, q.(groupBy := groupBy), f, dur, g);
    case TopN(groupBy, limit) => TopNRoundTrip(dialect, q, f, dur, groupBy, limit, g);
  }

  // ---------- the ways of being malformed ----------

  function Leaf(metric: string, filters: map<string, string>, groupBy: string): MetricQuery {
    AnalyticsRequest(metric, Sum, filters, groupBy, None, None).ToMetricQuery()
  }

  function RatioOf(leaf: MetricQuery, filters: map<string, string>): MetricQuery {
    AnalyticsRequest("", Sum, filters, "", Some(leaf), Some(leaf)).ToMetricQuery()
  }

  /** A filter with an empty key. */
  lemma EmptyKeyMalformed(dialect: Dialect, f: TenantFilter, dur: int, g: FloatFormat)
    requires GoodFormat(g)
    ensures ParseMatcherList(dialect, LabelText(Leaf("ops_up", map["" := "x"], ""), f)) == None
    ensures ParseText(dialect, BuildScalarPromQL(Leaf("ops_up", map["" := "x"], ""), f, dur, g)) == None
  {
    hide ParseText, ParseMatcherList, Compile, BuildScalarPromQL;
    LabelMatchersRoundTrip(dialect, Leaf("ops_up", map["" := "x"], ""), f);
    ScalarRoundTrip(dialect, Leaf("ops_up", map["" := "x"], ""), f, dur, g);
  }

  /** A client filter on the metric name beside a metric. */
  lemma SecondNameMalformed(dialect: Dialect, f: TenantFilter, dur: int, g: FloatFormat)
    requires GoodFormat(g)
    ensures ParseText(dialect, BuildScalarPromQL(Leaf("ops_up", map["__name__" := "x"], ""), f, dur, g)) == None
  {
    hide ParseText, Compile, BuildScalarPromQL;
    SanitizeLabelNameSpec("__name__");
    SanitizeMetricNameSpec("ops_up");
    assert IsName("__name__", IsLabelChar);
    ScalarRoundTrip(dialect, Leaf("ops_up", map["__name__" := "x"], ""), f, dur, g);
  }

  /** A time series of a ratio, unscoped and without filters: nothing is left between the braces. */
  lemma EmptySelectorMalformed(dialect: Dialect, leaf: MetricQuery, step: int)
    ensures ParseText(dialect, BuildRatePromQL(RatioOf(leaf, map[]), TenantFilter("", [], false), step)) == None
  {
    hide ParseText;
    RateRoundTrip(dialect, RatioOf(leaf, map[]), TenantFilter("", [], false), step);
  }

  /** A filter value with a character that the backend's lexer refuses. */
  lemma UnreadableValueMalformed(dialect: Dialect, f: TenantFilter, c: char, dur: int, g: FloatFormat)
    requires GoodFormat(g) && c as int >= 128 && dialect.unreadable(c)
    ensures ParseText(dialect, BuildScalarPromQL(Leaf("ops_up", map["region" := [c]], ""), f, dur, g)) == None
  {
    hide ParseText, Compile, BuildScalarPromQL;
    var q := Leaf("ops_up", map["region" := [c]], "");
    SanitizeLabelNameSpec("region");
    SanitizeMetricNameSpec("ops_up");
    assert IsName("region", IsLabelChar);
    ScalarRoundTrip(dialect, q, f, dur, g);
    assert !Readable(dialect, q.filters["region"]) by { assert c in [c]; }
  }

  /** A metric or a grouping label that the backend's grammar keeps for itself. */
  lemma ReservedWordMalformed(dialect: Dialect, f: TenantFilter, dur: int, g: FloatFormat)
    requires GoodFormat(g)
    ensures dialect.reservedMetric("inf") ==>
              ParseText(dialect, BuildScalarPromQL(Leaf("inf", map[], ""), f, dur, g)) == None
    ensures dialect.reservedLabel("inf") ==>
              ParseText(dialect, BuildScalarPromQL(Leaf("ops_up", map[], "inf"), f, dur, g)) == None
  {
    hide ParseText, Compile, BuildScalarPromQL;
    SanitizeMetricNameSpec("inf");
    SanitizeLabelNameSpec("inf");
    assert IsName("inf", IsMetricChar) && IsName("inf", IsLabelChar);
    ScalarRoundTrip(dialect, Leaf("inf", map[], ""), f, dur, g);
    ScalarRoundTrip(dialect, Leaf("ops_up", map[], "inf"), f, dur, g);
  }

  // ---------- the scope, in plain terms ----------

  predicate InScope(s: Series, f: TenantFilter) {
    Label(s, "tenant_id") == f.tenantId && (f.partitionIds != [] ==> Label(s, "partition_id") in f.partitionIds)
  }

  lemma SatisfiesAllConcat(s: Series, a: seq<Matcher>, b: seq<Matcher>)
    ensures SatisfiesAll(s, a + b) <==> SatisfiesAll(s, a) && SatisfiesAll(s, b)
  {
  }

  /** One id or many, the generated partition matcher accepts exactly the listed partitions. */
  lemma PartitionMatchersExact(ids: seq<string>, s: Series)
    ensures SatisfiesAll(s, PartitionMatchers(ids)) <==> (ids == [] || Label(s, "partition_id") in ids)
  {
    var ms := PartitionMatchers(ids);
    if |ids| > 0 {
      assert ms == [ms[0]] && ms[0] in ms;
      PartitionRegex.PartitionRegexExact(ids, Label(s, "partition_id"));
      assert |ids| == 1 ==> ids == [ids[0]];
    }
  }

  lemma ScopeMatchersExact(f: TenantFilter, s: Series)
    ensures SatisfiesAll(s, ScopeMatchers(f)) <==> (f.scoped ==> InScope(s, f))
  {
    if f.scoped {
      var tenant := [Eq("tenant_id", f.tenantId)];
      assert tenant[0] in tenant;
      SatisfiesAllConcat(s, tenant, PartitionMatchers(f.partitionIds));
      PartitionMatchersExact(f.partitionIds, s);
    }
  }

  lemma {:induction false} FilterMatchersExact(keys: seq<string>, filters: map<string, string>, s: Series)
    requires forall k :: k in keys ==> k in filters
    ensures SatisfiesAll(s, FilterMatchers(keys, filters)) <==>
            forall k :: k in keys && !IsReservedKey(k) ==> Label(s, SanitizeLabelName(k)) == filters[k]
  {
    if keys != [] {
      var k0 := keys[0];
      FilterMatchersExact(keys[1..], filters, s);
      assert keys == [k0] + keys[1..];
      if !IsReservedKey(k0) {
        var m := [Eq(SanitizeLabelName(k0), filters[k0])];
        assert m[0] in m;
        SatisfiesAllConcat(s, m, FilterMatchers(keys[1..], filters));
      } else {
        assert FilterMatchers(keys, filters) == FilterMatchers(keys[1..], filters);
      }
    }
  }

  /** A compiled selector keeps exactly the in-scope series that meet every non-tenancy filter of the client. */
  lemma SelectionExact(q: MetricQuery, f: TenantFilter, s: Series)
    ensures SatisfiesAll(s, QueryMatchers(q, f)) <==>
            && (f.scoped ==> InScope(s, f))
            && forall k :: k in q.filters && !IsReservedKey(k) ==> Label(s, SanitizeLabelName(k)) == q.filters[k]
  {
    var keys := KeysOf(q.filters);
    SatisfiesAllConcat(s, ScopeMatchers(f), FilterMatchers(keys, q.filters));
    ScopeMatchersExact(f, s);
    FilterMatchersExact(keys, q.filters, s);
  }

  // ---------- non-interference ----------

  function EvalText<V>(dialect: Dialect, text: string, ops: Operators<V>, store: set<Series>): Option<V> {
    match ParseText(dialect, text)
    case None => None
    case Some(e) => Some(Eval(e, ops, store))
  }

  /** Some selector of the text, as parsed, picks s. */
  predicate TextReads(dialect: Dialect, text: string, s: Series) {
    ParseText(dialect, text).Some? && Reads(ParseText(dialect, text).value, s)
  }

  /** Every selector in the text, as parsed, carries the scope of f. */
  predicate Confined(dialect: Dialect, text: string, f: TenantFilter) {
    ParseText(dialect, text).Some? ==> EverySelectorCarries(ParseText(dialect, text).value, ScopeMatchers(f))
  }

  lemma WindowShape(fn: string, metric: string, ms: seq<Matcher>, w: string, scope: seq<Matcher>)
    ensures EverySelectorCarries(Window(fn, metric, ms, w), scope) <==> scope <= ms
    ensures MetricNames(Window(fn, metric, ms, w)) == {SanitizeMetricName(metric)}
  {
  }

  lemma {:induction false} CompileCarriesScope(q: MetricQuery, f: TenantFilter, dur: int, g: FloatFormat)
    ensures EverySelectorCarries(Compile(q, f, dur, g), ScopeMatchers(f))
  {
    hide Window, ScopeMatchers, FilterMatchers, FormatDuration, SanitizeMetricName, SanitizeLabelName;
    if q.IsRatio() {
      CompileCarriesScope(q.numerator.value, f, dur, g);
      CompileCarriesScope(q.denominator.value, f, dur, g);
    } else {
      var ms, w := QueryMatchers(q, f), FormatDuration(dur);
      assert ScopeMatchers(f) <= ms;
      WindowShape("rate", q.durationMetric, ms, w, ScopeMatchers(f));
      WindowShape("rate", q.durationCountMetric, ms, w, ScopeMatchers(f));
      WindowShape("increase", q.metric, ms, w, ScopeMatchers(f));
      assert q.IsDuration() ==> EverySelectorCarries(Compile(q, f, dur, g).left, ScopeMatchers(f));
    }
  }

  lemma RateCarriesScope(q: MetricQuery, f: TenantFilter, step: int)
    ensures EverySelectorCarries(CompileRate(q, f, step), ScopeMatchers(f))
    ensures MetricNames(CompileRate(q, f, step)) == {SanitizeMetricName(q.metric)}
  {
    var ms, w := QueryMatchers(q, f), FormatDuration(step);
    assert ScopeMatchers(f) <= ms;
    WindowShape("increase", q.metric, ms, w, ScopeMatchers(f));
  }

  lemma EveryTextConfined(dialect: Dialect, r: Request, q: MetricQuery, f: TenantFilter, dur: int, g: FloatFormat)
    requires GoodFormat(g)
    ensures Confined(dialect, TextFor(r, q, f, dur, g), f)
  {
    hide ParseText, Compile, BuildScalarPromQL, BuildRatePromQL, CompileRate, ScopeMatchers, WellFormed, GoodSelector;
    match r
    case Scalar =>
      ScalarRoundTrip(dialect, q, f, dur, g);
      CompileCarriesScope(q, f, dur, g);
    case TimeSeries(step) =>
      RateRoundTrip(dialect, q, f, step);
      RateCarriesScope(q, f, step);
    case Grouped(groupBy) =>
      ScalarRoundTrip(dialect, q.(groupBy := groupBy), f, dur, g);
      CompileCarriesScope(q.(groupBy := groupBy), f, dur, g);
    case TopN(groupBy, limit) =>
      TopNRoundTrip(dialect, q, f, dur, groupBy, limit, g);
      CompileCarriesScope(q.(groupBy := groupBy), f, dur, g);
  }

  ghost predicate AgreeInScope(a: set<Series>, b: set<Series>, f: TenantFilter) {
    forall s :: InScope(s, f) ==> (s in a <==> s in b)
  }

  lemma ConfinedReads(dialect: Dialect, text: string, f: TenantFilter, s: Series)
    requires f.scoped && Confined(dialect, text, f) && TextReads(dialect, text, s)
    ensures InScope(s, f)
  {
    ReadsWithinScope(ParseText(dialect, text).value, ScopeMatchers(f), s);
    ScopeMatchersExact(f, s);
  }

  /** The value of a text depends on no series it does not read. */
  lemma TextDependsOnReads<V>(dialect: Dialect, text: string, ops: Operators<V>, a: set<Series>, b: set<Series>)
    requires forall s :: TextReads(dialect, text, s) ==> (s in a <==> s in b)
    ensures EvalText(dialect, text, ops, a) == EvalText(dialect, text, ops, b)
  {
    if ParseText(dialect, text).Some? {
      var e := ParseText(dialect, text).value;
      assert forall s :: Reads(e, s) ==> TextReads(dialect, text, s);
      EvalDependsOnReads(e, ops, a, b);
    }
  }

  /**
   * Tenant isolation: whatever kind of request it is, whatever the scoped query contains,
   * and whatever the PromQL operators compute, its answer is the same on any two stores that agree on the
   * series of the filter's tenant and partitions.
   */
  lemma TenantIsolation<V>(dialect: Dialect, r: Request, q: MetricQuery, f: TenantFilter, dur: int, g: FloatFormat,
                           ops: Operators<V>, a: set<Series>, b: set<Series>)
    requires GoodFormat(g)
    requires f.scoped && AgreeInScope(a, b, f)
    ensures var text := TextFor(r, q, f, dur, g);
            EvalText(dialect, text, ops, a) == EvalText(dialect, text, ops, b)
  {
    hide TextFor, Confined, EvalText, TextReads, InScope;
    EveryTextConfined(dialect, r, q, f, dur, g);
    var text := TextFor(r, q, f, dur, g);
    forall s | TextReads(dialect, text, s) ensures s in a <==> s in b { ConfinedReads(dialect, text, f, s); }
    TextDependsOnReads(dialect, text, ops, a, b);
  }

  // ---------- agreement with the filter sanitizer ----------

  function Unreserved(keys: seq<string>): seq<string> {
    if keys == [] then [] else (if IsReservedKey(keys[0]) then [] else [keys[0]]) + Unreserved(keys[1..])
  }

  lemma {:induction false} UnreservedAscending(keys: seq<string>)
    requires Ascending(keys)
    ensures Ascending(Unreserved(keys))
    ensures forall k :: k in Unreserved(keys) ==> k in keys
  {
    if keys != [] {
      UnreservedAscending(keys[1..]);
      forall k | k in keys[1..] ensures LexLeq(keys[0], k) {
        var i :| 0 <= i < |keys| - 1 && keys[i + 1] == k;
      }
    }
  }

  lemma {:induction false} UnreservedCount(keys: seq<string>, k: string)
    ensures multiset(Unreserved(keys))[k] == if IsReservedKey(k) then 0 else multiset(keys)[k]
  {
    if keys != [] {
      UnreservedCount(keys[1..], k);
      assert keys == [keys[0]] + keys[1..];
    }
  }

  lemma {:induction false} FilterMatchersUnreserved(keys: seq<string>, filters: map<string, string>)
    requires forall k :: k in keys ==> k in filters
    ensures forall k :: k in Unreserved(keys) ==> k in CleanFilters(filters)
    ensures FilterMatchers(keys, filters) == FilterMatchers(Unreserved(keys), CleanFilters(filters))
  {
    if keys != [] {
      FilterMatchersUnreserved(keys[1..], filters);
      if !IsReservedKey(keys[0]) {
        assert Unreserved(keys)[1..] == Unreserved(keys[1..]);
      } else {
        assert Unreserved(keys) == Unreserved(keys[1..]);
      }
    }
  }

  /** The matchers skipped while compiling are exactly the ones the sanitizer removes beforehand. */
  lemma CleanFiltersSameMatchers(filters: map<string, string>)
    ensures FilterMatchers(KeysOf(CleanFilters(filters)), CleanFilters(filters))
         == FilterMatchers(KeysOf(filters), filters)
  {
    var keys, clean := KeysOf(filters), CleanFilters(filters);
    SortedKeysAscending(filters.Keys);
    SortedKeysAscending(clean.Keys);
    UnreservedAscending(keys);
    forall k ensures multiset(Unreserved(keys))[k] == multiset(clean.Keys)[k] { UnreservedCount(keys, k); }
    FilterMatchersUnreserved(keys, filters);
    assert multiset(Unreserved(keys)) == multiset(clean.Keys);
    LexIsTotalOrder();
    SortedIsUnique(LexLeq, Unreserved(keys), KeysOf(clean));
  }

  lemma SanitizeSameLabels(q: MetricQuery, f: TenantFilter)
    ensures LabelText(SanitizeQueryFilters(q), f) == LabelText(q, f)
  {
    CleanFiltersSameMatchers(q.filters);
  }

  /** Sanitizing first never changes the text, at any ratio depth, for either builder. */
  lemma {:induction false} SanitizeSameText(q: MetricQuery, f: TenantFilter, dur: int, g: FloatFormat)
    ensures BuildScalarPromQL(SanitizeQueryFilters(q), f, dur, g) == BuildScalarPromQL(q, f, dur, g)
    ensures BuildRatePromQL(SanitizeQueryFilters(q), f, dur) == BuildRatePromQL(q, f, dur)
    decreases q
  {
    hide LabelText, FormatDuration, SanitizeMetricName, SanitizeLabelName, CleanFilters;
    SanitizeSameLabels(q, f);
    if q.IsRatio() {
      SanitizeSameText(q.numerator.value, f, dur, g);
      SanitizeSameText(q.denominator.value, f, dur, g);
    }
  }

  // ---------- windows ----------

  /** The printed window is the longest whole number of its unit not exceeding the duration, and 1m below a minute. */
  lemma FormatDurationRoundsDown(d: int) returns (n: nat, c: char)
    ensures n >= 1 && c in {'d', 'h', 'm'} && FormatDuration(d) == IntText(n) + [c]
    ensures d >= 86_400_000_000_000 ==> c == 'd' && n * 86_400_000_000_000 <= d < (n + 1) * 86_400_000_000_000
    ensures 3_600_000_000_000 <= d < 86_400_000_000_000 ==>
              c == 'h' && n * 3_600_000_000_000 <= d < (n + 1) * 3_600_000_000_000
    ensures 60_000_000_000 <= d < 3_600_000_000_000 ==> c == 'm' && n * 60_000_000_000 <= d < (n + 1) * 60_000_000_000
    ensures d < 60_000_000_000 ==> n == 1 && c == 'm'
  {
    assert HOUR == 3_600_000_000_000;
    var hours, minutes := Whole(d, HOUR), Whole(d, MINUTE);
    if hours >= 24 {
      n, c := hours / 24, 'd';
    } else if hours > 0 {
      n, c := hours, 'h';
    } else if minutes > 0 {
      n, c := minutes, 'm';
    } else {
      n, c := 1, 'm';
      assert NatText(1) == "1";
    }
  }
}
