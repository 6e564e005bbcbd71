// Agreement of the query compiler with the metric allowlist: which series a
// validated query can read.
module AllowedNames {
  import opened Wrappers
  import opened Text
  import opened PromLex
  import opened Query
  import opened PromQL
  import opened Compiler
  import opened QueryMeaning
  import opened TenantScope

  // ---------- the names in the text ----------

  lemma {:induction false} CompiledNames(q: MetricQuery, f: TenantFilter, dur: int, g: FloatFormat)
    ensures forall m :: m in MetricNames(Compile(q, f, dur, g)) <==>
                        exists n :: n in ReadNames(q) && m == SanitizeMetricName(n)
  {
    if q.IsRatio() {
      CompiledNames(q.numerator.value, f, dur, g);
      CompiledNames(q.denominator.value, f, dur, g);
      var l, r := Compile(q.numerator.value, f, dur, g), Compile(q.denominator.value, f, dur, g);
      assert MetricNames(Bin('/', l, r)) == MetricNames(l) + MetricNames(r);
      assert MetricNames(Compile(q, f, dur, g)) == MetricNames(l) + MetricNames(r);
    } else {
      LeafNames(q, f, dur, g);
    }
  }

  lemma LeafNames(q: MetricQuery, f: TenantFilter, dur: int, g: FloatFormat)
    requires !q.IsRatio()
    ensures MetricNames(Compile(q, f, dur, g)) ==
            if q.IsDuration() then {SanitizeMetricName(q.durationMetric), SanitizeMetricName(q.durationCountMetric)}
            else {SanitizeMetricName(q.metric)}
  {
    hide Window, QueryMatchers, FormatDuration, SanitizeMetricName, SanitizeLabelName;
    var ms, w := QueryMatchers(q, f), FormatDuration(dur);
    WindowShape("increase", q.metric, ms, w, []);
    if q.IsDuration() {
      var a, b := Window("rate", q.durationMetric, ms, w), Window("rate", q.durationCountMetric, ms, w);
      WindowShape("rate", q.durationMetric, ms, w, []);
      WindowShape("rate", q.durationCountMetric, ms, w, []);
      assert MetricNames(Bin('/', Aggr("sum", None, a), Aggr("sum", None, b))) == MetricNames(a) + MetricNames(b);
    }
  }

  /** Every metric name in a validated instant query's text is the sanitized form of a non-empty allowed name. */
  lemma OnlyAllowedNamesCompiled(dialect: Dialect, allows: Allowlist, q: MetricQuery, f: TenantFilter, dur: int,
                                 g: FloatFormat)
    requires GoodFormat(g)
    requires Validate(allows, q).None?
    ensures var parsed := ParseText(dialect, BuildScalarPromQL(q, f, dur, g));
            parsed.Some? ==>
              forall m :: m in MetricNames(parsed.value) ==>
                exists n :: n != "" && allows(n) && m == SanitizeMetricName(n)
  {
    ValidateExact(allows, q);
    CompiledNames(q, f, dur, g);
    ScalarRoundTrip(dialect, q, f, dur, g);
  }

  // ---------- the series read ----------

  /** The series bears the stored form of an allowed name. */
  ghost predicate BearsAllowedName(s: Series, allows: Allowlist) {
    exists n :: n != "" && allows(n) && Label(s, "__name__") == SanitizeMetricName(n)
  }

  /** The series a tenant filter and an allowlist together leave readable. */
  ghost predicate Permitted(s: Series, f: TenantFilter, allows: Allowlist) {
    (f.scoped ==> InScope(s, f)) && BearsAllowedName(s, allows)
  }

  lemma CompiledReadsAllowed(allows: Allowlist, q: MetricQuery, f: TenantFilter, dur: int, g: FloatFormat, s: Series)
    requires Validate(allows, q).None?
    requires Reads(Compile(q, f, dur, g), s)
    ensures BearsAllowedName(s, allows)
  {
    hide Compile, Reads, SanitizeMetricName;
    var e := Compile(q, f, dur, g);
    ValidateExact(allows, q);
    CompiledNames(q, f, dur, g);
    forall n | n in ReadNames(q) ensures SanitizeMetricName(n) != "" { SanitizeMetricNameSpec(n); }
    ReadsBearName(e, s);
  }

  lemma RateReadsItsName(q: MetricQuery, f: TenantFilter, step: int, s: Series)
    ensures Reads(CompileRate(q, f, step), s) <==> Picks(SanitizeMetricName(q.metric), QueryMatchers(q, f), s)
  {
    hide QueryMatchers, SanitizeMetricName, FormatDuration, Picks;
    var metric, ms, w := SanitizeMetricName(q.metric), QueryMatchers(q, f), FormatDuration(step);
    assert Reads(Range(metric, ms, w), s) <==> Picks(metric, ms, s);
    assert Reads(Call("increase", Range(metric, ms, w)), s) <==> Picks(metric, ms, s);
  }

  lemma ValidatedReadsPermitted(dialect: Dialect, allows: Allowlist, r: Request, q: MetricQuery, f: TenantFilter,
                               dur: int, g: FloatFormat, s: Series)
    requires GoodFormat(g) && Validate(allows, q).None?
    requires r.TimeSeries? ==> IsPlain(q)
    requires TextReads(dialect, TextFor(r, q, f, dur, g), s)
    ensures Permitted(s, f, allows)
  {
    hide ParseText, Compile, BuildScalarPromQL, BuildRatePromQL, CompileRate, WellFormed, GoodSelector, Reads,
         BearsAllowedName, InScope, Confined;
    EveryTextConfined(dialect, r, q, f, dur, g);
    if f.scoped { ConfinedReads(dialect, TextFor(r, q, f, dur, g), f, s); }
    match r
    case Scalar =>
      ScalarRoundTrip(dialect, q, f, dur, g);
      CompiledReadsAllowed(allows, q, f, dur, g, s);
    case Grouped(groupBy) =>
      ScalarRoundTrip(dialect, q.(groupBy := groupBy), f, dur, g);
      GroupingNotValidated(allows, q, groupBy);
      CompiledReadsAllowed(allows, q.(groupBy := groupBy), f, dur, g, s);
    case TopN(groupBy, limit) =>
      TopNRoundTrip(dialect, q, f, dur, groupBy, limit, g);
      GroupingNotValidated(allows, q, groupBy);
      TopKReads(IntText(limit), Compile(q.(groupBy := groupBy), f, dur, g), s);
      CompiledReadsAllowed(allows, q.(groupBy := groupBy), f, dur, g, s);
    case TimeSeries(step) =>
      RateRoundTrip(dialect, q, f, step);
      RateReadsItsName(q, f, step, s);
      SanitizeMetricNameSpec(q.metric);
      NamedIsAllowed(s, q.metric, allows);
  }

  lemma TopKReads(k: string, e: Expr, s: Series)
    ensures Reads(TopK(k, e), s) <==> Reads(e, s)
  {
  }

  lemma NamedIsAllowed(s: Series, n: string, allows: Allowlist)
    requires n != "" && allows(n) && Label(s, "__name__") == SanitizeMetricName(n)
    ensures BearsAllowedName(s, allows)
  {
  }

  lemma GroupingNotValidated(allows: Allowlist, q: MetricQuery, groupBy: string)
    ensures Validate(allows, q.(groupBy := groupBy)) == Validate(allows, q)
  {
  }

  /**
   * The allowlist means what it says: the answer to a validated instant query, and to a validated plain range
   * query, is the same on any two stores that agree on the series of the scope that bear an allowed name.
   */
  lemma AllowlistIsolation<V>(dialect: Dialect, allows: Allowlist, r: Request, q: MetricQuery, f: TenantFilter,
                              dur: int, g: FloatFormat, ops: Operators<V>, a: set<Series>, b: set<Series>)
    requires GoodFormat(g) && Validate(allows, q).None?
    requires r.TimeSeries? ==> IsPlain(q)
    requires forall s :: Permitted(s, f, allows) ==> (s in a <==> s in b)
    ensures var text := TextFor(r, q, f, dur, g);
            EvalText(dialect, text, ops, a) == EvalText(dialect, text, ops, b)
  {
    hide TextFor, EvalText, TextReads, Permitted;
    var text := TextFor(r, q, f, dur, g);
    forall s | TextReads(dialect, text, s) ensures s in a <==> s in b {
      ValidatedReadsPermitted(dialect, allows, r, q, f, dur, g, s);
    }
    TextDependsOnReads(dialect, text, ops, a, b);
  }

  // ---------- range queries ----------

  function Exactly(names: set<string>): Allowlist {
    n => n in names
  }

  /** The range builder reads q.metric alone; that name has been checked exactly when it is among the names read. */
  lemma RateNameCheckedExactly(q: MetricQuery)
    requires "" !in ReadNames(q)
    ensures (forall allowed: set<string> :: Validate(Exactly(allowed), q).None? ==> q.metric in allowed)
            <==> q.metric in ReadNames(q)
  {
    forall allowed: set<string> {
      ValidateExact(Exactly(allowed), q);
    }
    var names := ReadNames(q);
    ValidateExact(Exactly(names), q);
    if q.metric !in names {
      assert Validate(Exactly(names), q).None?;
    }
  }

  /** On queries that are neither ratios nor durations, validation covers the range builder too. */
  lemma PlainRateNameChecked(allows: Allowlist, q: MetricQuery, f: TenantFilter, step: int)
    requires IsPlain(q) && Validate(allows, q).None?
    ensures allows(q.metric) && MetricNames(CompileRate(q, f, step)) == {SanitizeMetricName(q.metric)}
  {
    RateCarriesScope(q, f, step);
  }

  /** Client filters that can hold together: no two ask one label for different values. */
  predicate Consistent(q: MetricQuery) {
    forall j, k | j in q.filters && k in q.filters && SanitizeLabelName(j) == SanitizeLabelName(k) ::
      IsReservedKey(j) || q.filters[j] == q.filters[k]
  }

  /** The stored form of some name in names is the only metric name the range selector can meet. */
  predicate PinnedWithin(q: MetricQuery, names: set<string>) {
    if q.metric != "" then exists n :: n in names && SanitizeMetricName(q.metric) == SanitizeMetricName(n)
    else exists n, k :: n in names && k in q.filters && SanitizeLabelName(k) == "__name__"
                        && q.filters[k] == SanitizeMetricName(n)
  }

  /** One key per label, for the labels asked for. */
  function AskedLabels(q: MetricQuery): set<string> {
    set k | k in q.filters && !IsReservedKey(k) :: SanitizeLabelName(k)
  }

  ghost function KeyFor(q: MetricQuery, name: string): (k: string)
    requires name in AskedLabels(q)
    ensures k in q.filters && !IsReservedKey(k) && SanitizeLabelName(k) == name
  {
    var k :| k in q.filters && !IsReservedKey(k) && SanitizeLabelName(k) == name; k
  }

  /** A series the range selector picks, with the given metric name where the filters leave it open. */
  ghost function Witness(q: MetricQuery, f: TenantFilter, name: string): Series {
    var partition := if f.partitionIds == [] then "" else f.partitionIds[0];
    Series(map["__name__" := name] + (map l | l in AskedLabels(q) :: q.filters[KeyFor(q, l)])
           + map["tenant_id" := f.tenantId, "partition_id" := partition], [])
  }

  lemma WitnessLabels(q: MetricQuery, f: TenantFilter, name: string, l: string)
    ensures var s := Witness(q, f, name);
            && Label(s, "tenant_id") == f.tenantId
            && (f.partitionIds != [] ==> Label(s, "partition_id") == f.partitionIds[0])
            && (l in AskedLabels(q) ==> Label(s, l) == q.filters[KeyFor(q, l)])
            && ("__name__" !in AskedLabels(q) ==> Label(s, "__name__") == name)
  {
    hide SanitizeLabelName;
  }

  lemma WitnessPicked(q: MetricQuery, f: TenantFilter, name: string)
    requires Consistent(q)
    ensures SatisfiesAll(Witness(q, f, name), QueryMatchers(q, f))
  {
    hide SatisfiesAll, QueryMatchers, SanitizeLabelName, Witness, Label;
    var s := Witness(q, f, name);
    SelectionExact(q, f, s);
    WitnessLabels(q, f, name, "__name__");
    assert InScope(s, f);
    forall k | k in q.filters && !IsReservedKey(k) ensures Label(s, SanitizeLabelName(k)) == q.filters[k] {
      assert SanitizeLabelName(k) in AskedLabels(q);
      WitnessLabels(q, f, name, SanitizeLabelName(k));
    }
  }

  /** Every series the range text reads bears a name of the given allowlist. */
  ghost predicate RateReadsOnly(dialect: Dialect, q: MetricQuery, f: TenantFilter, step: int, allowed: set<string>) {
    forall s :: TextReads(dialect, BuildRatePromQL(q, f, step), s) ==> BearsAllowedName(s, Exactly(allowed))
  }

  /** The conditions under which passing validation protects a range query. */
  predicate RateProtected(dialect: Dialect, q: MetricQuery, f: TenantFilter) {
    || "" in ReadNames(q)
    || !GoodSelector(dialect, q.metric, q, f)
    || !Consistent(q)
    || PinnedWithin(q, ReadNames(q))
  }

  lemma PinnedReadsChecked(q: MetricQuery, f: TenantFilter, s: Series)
    requires PinnedWithin(q, ReadNames(q)) && "" !in ReadNames(q)
    requires Picks(SanitizeMetricName(q.metric), QueryMatchers(q, f), s)
    ensures BearsAllowedName(s, Exactly(ReadNames(q)))
  {
    hide SanitizeMetricName, SanitizeLabelName, QueryMatchers, SatisfiesAll, Label;
    SanitizeMetricNameSpec(q.metric);
    SelectionExact(q, f, s);
  }

  lemma UnpinnedReadsUnchecked(dialect: Dialect, q: MetricQuery, f: TenantFilter) returns (s: Series)
    requires !RateProtected(dialect, q, f)
    ensures Picks(SanitizeMetricName(q.metric), QueryMatchers(q, f), s)
    ensures !BearsAllowedName(s, Exactly(ReadNames(q)))
  {
    hide SanitizeMetricName, SanitizeLabelName, QueryMatchers, SatisfiesAll, Label, Witness, HasNonEmptyMatcher;
    s := Witness(q, f, SanitizeMetricName(q.metric));
    WitnessPicked(q, f, SanitizeMetricName(q.metric));
    WitnessLabels(q, f, SanitizeMetricName(q.metric), "__name__");
    SanitizeMetricNameSpec(q.metric);
    forall n | n in ReadNames(q) ensures SanitizeMetricName(n) != "" { SanitizeMetricNameSpec(n); }
  }

  /**
   * Over all queries: validation limits a range query to allowed names exactly when nothing is read at all, or
   * the one name the selector can meet is the stored form of a name that was checked.
   */
  lemma RateReadsCheckedExactly(dialect: Dialect, q: MetricQuery, f: TenantFilter, step: int)
    ensures (forall allowed :: Validate(Exactly(allowed), q).None? ==> RateReadsOnly(dialect, q, f, step, allowed))
            <==> RateProtected(dialect, q, f)
  {
    hide ParseText, BuildRatePromQL, CompileRate, Reads, Picks, GoodSelector, BearsAllowedName, Validate, Consistent,
         PinnedWithin;
    var names := ReadNames(q);
    RateRoundTrip(dialect, q, f, step);
    forall allowed: set<string> { ValidateExact(Exactly(allowed), q); }
    forall s { RateReadsItsName(q, f, step, s); }
    if !RateProtected(dialect, q, f) {
      var s := UnpinnedReadsUnchecked(dialect, q, f);
      assert TextReads(dialect, BuildRatePromQL(q, f, step), s);
      assert !RateReadsOnly(dialect, q, f, step, names);
    } else {
      forall allowed | Validate(Exactly(allowed), q).None? ensures RateReadsOnly(dialect, q, f, step, allowed) {
        forall s | TextReads(dialect, BuildRatePromQL(q, f, step), s) ensures BearsAllowedName(s, Exactly(allowed)) {
          RateProtectedReads(dialect, q, f, s);
          MoreAllowed(s, names, allowed);
        }
      }
    }
  }

  lemma RateProtectedReads(dialect: Dialect, q: MetricQuery, f: TenantFilter, s: Series)
    requires RateProtected(dialect, q, f) && "" !in ReadNames(q) && GoodSelector(dialect, q.metric, q, f)
    requires Picks(SanitizeMetricName(q.metric), QueryMatchers(q, f), s)
    ensures BearsAllowedName(s, Exactly(ReadNames(q)))
  {
    hide GoodSelector, PinnedWithin, SanitizeMetricName, SanitizeLabelName, QueryMatchers, SatisfiesAll, Label,
         BearsAllowedName;
    SelectionExact(q, f, s);
    assert Consistent(q);
    PinnedReadsChecked(q, f, s);
  }

  lemma MoreAllowed(s: Series, names: set<string>, allowed: set<string>)
    requires names <= allowed && BearsAllowedName(s, Exactly(names))
    ensures BearsAllowedName(s, Exactly(allowed))
  {
  }

  /**
   * The time series of a ratio request names no metric: for a tenant, and unless its matchers cannot be read, it
   * reads every in-scope series that meets the request's own filters, whatever the numerator and the denominator are.
   */
  lemma RatioSeriesReadsEveryName(dialect: Dialect, request: AnalyticsRequest, f: TenantFilter, step: int, s: Series)
    requires request.numerator.Some? && request.denominator.Some?
    requires f.scoped && f.tenantId != ""
    ensures TextReads(dialect, BuildRatePromQL(request.ToMetricQuery(), f, step), s) <==>
            && "" !in request.filters && ReadableValues(dialect, request.ToMetricQuery(), f)
            && InScope(s, f) && forall k :: k in request.filters && !IsReservedKey(k) ==>
                               Label(s, SanitizeLabelName(k)) == request.filters[k]
  {
    hide ParseText, BuildRatePromQL, CompileRate, Reads, SatisfiesAll, QueryMatchers, SanitizeLabelName,
         SanitizeMetricName, InScope;
    var q := request.ToMetricQuery();
    SanitizeMetricNameSpec("");
    RateRoundTrip(dialect, q, f, step);
    RateReadsItsName(q, f, step, s);
    SelectionExact(q, f, s);
  }

  /** A ratio over an allowed metric, as a request can ask for it, with a client filter on the metric name. */
  function SampleRatio(): MetricQuery {
    RatioOf(Leaf("ops_up", map[], ""), map["__name__" := "secret"])
  }

  /** It passes validation, and its time series reads every in-scope series of a metric that was never checked. */
  lemma RateOfRatioReadsUncheckedName(dialect: Dialect, tenant: string, step: int, s: Series)
    requires tenant != "" && Label(s, "tenant_id") == tenant && Label(s, "__name__") == "secret"
    ensures Validate(Exactly({"ops_up"}), SampleRatio()).None?
    ensures var f := TenantFilter(tenant, [], true);
            && (TextReads(dialect, BuildRatePromQL(SampleRatio(), f, step), s) <==> Readable(dialect, tenant))
            && MetricNames(CompileRate(SampleRatio(), f, step)) == {""}
    ensures !BearsAllowedName(s, Exactly({"ops_up"}))
  {
    hide ParseText, BuildRatePromQL, CompileRate, Reads, SatisfiesAll, QueryMatchers, SanitizeLabelName,
         SanitizeMetricName;
    var q, f := SampleRatio(), TenantFilter(tenant, [], true);
    SanitizeMetricNameSpec("");
    SanitizeMetricNameSpec("ops_up");
    SanitizeLabelNameSpec("__name__");
    assert IsName("__name__", IsLabelChar) && IsName("ops_up", IsMetricChar);
    RateCarriesScope(q, f, step);
    var request := AnalyticsRequest("", Sum, q.filters, "", q.numerator, q.denominator);
    RatioSeriesReadsEveryName(dialect, request, f, step, s);
  }
}
