// What the text of each kind of query evaluates to, in terms of the operators
// and of the series a client can name.
module QueryValues {
  import opened Wrappers
  import opened Text
  import opened PromLex
  import opened Query
  import opened PromQL
  import opened Compiler
  import opened QueryMeaning
  import opened TenantScope

  /**
   * The series of a metric a query is about: of the filter's tenant and partitions when scoped, bearing the metric's
   * stored name, and meeting the query's filters, of which those on the two tenancy labels do not count.
   */
  function About(metric: string, q: MetricQuery, f: TenantFilter, store: set<Series>): set<Series> {
    set s | s in store
      && (f.scoped ==> Label(s, "tenant_id") == f.tenantId
                       && (f.partitionIds == [] || Label(s, "partition_id") in f.partitionIds))
      && (metric == "" || Label(s, "__name__") == SanitizeMetricName(metric))
      && forall k :: k in q.filters && SanitizeLabelName(k) != "tenant_id" && SanitizeLabelName(k) != "partition_id" ==>
           Label(s, SanitizeLabelName(k)) == q.filters[k]
  }

  function GroupLabel(q: MetricQuery): Option<string> {
    if q.groupBy == "" then None else Some(SanitizeLabelName(q.groupBy))
  }

  lemma SelectedIsAbout(metric: string, q: MetricQuery, f: TenantFilter, store: set<Series>)
    ensures Selected(SanitizeMetricName(metric), QueryMatchers(q, f), store) == About(metric, q, f, store)
  {
    hide QueryMatchers, SanitizeLabelName, SanitizeMetricName, SatisfiesAll;
    SanitizeMetricNameSpec(metric);
    forall s { SelectionExact(q, f, s); }
  }

  lemma ValueOfWindow<V>(fn: string, metric: string, q: MetricQuery, f: TenantFilter, w: string, ops: Operators<V>,
                         store: set<Series>)
    ensures Eval(Window(fn, metric, QueryMatchers(q, f), w), ops, store)
         == ops.call(fn, ops.window(w, About(metric, q, f, store)))
  {
    hide QueryMatchers, SanitizeMetricName, Selected, About;
    SelectedIsAbout(metric, q, f, store);
  }

  lemma ValueOfGauge<V>(metric: string, q: MetricQuery, f: TenantFilter, ops: Operators<V>, store: set<Series>)
    ensures Eval(Select(SanitizeMetricName(metric), QueryMatchers(q, f)), ops, store)
         == ops.instant(About(metric, q, f, store))
  {
    hide QueryMatchers, SanitizeMetricName, Selected, About;
    SelectedIsAbout(metric, q, f, store);
  }

  lemma ValueOfQuotient<V>(a: Expr, b: Expr, n: string, ops: Operators<V>, store: set<Series>)
    ensures Eval(Bin('*', Bin('/', a, b), Num(n)), ops, store)
         == ops.bin('*', ops.bin('/', Eval(a, ops, store), Eval(b, ops, store)), ops.number(n))
  {
    assert Eval(Bin('/', a, b), ops, store) == ops.bin('/', Eval(a, ops, store), Eval(b, ops, store));
    assert Eval(Num(n), ops, store) == ops.number(n);
  }

  // ---------- one aggregation at a time ----------

  /** A query with a metric of its own: no ratio, and not both metrics of a duration. */
  predicate NamesOneMetric(q: MetricQuery) {
    (q.numerator.None? || q.denominator.None?) && (q.durationMetric == "" || q.durationCountMetric == "")
  }

  lemma GaugeValue<V>(dialect: Dialect, q: MetricQuery, f: TenantFilter, dur: int, g: FloatFormat, ops: Operators<V>,
                      store: set<Series>)
    requires GoodFormat(g) && WellFormed(dialect, q, f) && NamesOneMetric(q) && q.aggregation == Gauge
    ensures EvalText(dialect, TextFor(Scalar, q, f, dur, g), ops, store)
         == Some(ops.aggr("sum", GroupLabel(q), ops.instant(About(q.metric, q, f, store))))
  {
    hide ParseText, WellFormed, BuildScalarPromQL, QueryMatchers, SanitizeMetricName, SanitizeLabelName, About,
         Selected;
    ScalarRoundTrip(dialect, q, f, dur, g);
    ValueOfGauge(q.metric, q, f, ops, store);
  }

  lemma CountValue<V>(dialect: Dialect, q: MetricQuery, f: TenantFilter, dur: int, g: FloatFormat, ops: Operators<V>,
                      store: set<Series>)
    requires GoodFormat(g) && WellFormed(dialect, q, f) && NamesOneMetric(q) && q.aggregation == Count
    ensures EvalText(dialect, TextFor(Scalar, q, f, dur, g), ops, store) ==
            Some(ops.aggr("sum", GroupLabel(q),
                          ops.call("increase", ops.window(FormatDuration(dur), About(q.metric, q, f, store)))))
  {
    hide ParseText, WellFormed, BuildScalarPromQL, QueryMatchers, SanitizeLabelName, About, Window, FormatDuration;
    ScalarRoundTrip(dialect, q, f, dur, g);
    ValueOfWindow("increase", q.metric, q, f, FormatDuration(dur), ops, store);
  }

  lemma SumValue<V>(dialect: Dialect, q: MetricQuery, f: TenantFilter, dur: int, g: FloatFormat, ops: Operators<V>,
                    store: set<Series>)
    requires GoodFormat(g) && WellFormed(dialect, q, f) && NamesOneMetric(q) && q.aggregation == Sum
    ensures EvalText(dialect, TextFor(Scalar, q, f, dur, g), ops, store) ==
            Some(ops.aggr("sum", GroupLabel(q),
                          ops.call("increase", ops.window(FormatDuration(dur), About(q.metric, q, f, store)))))
  {
    hide ParseText, WellFormed, BuildScalarPromQL, QueryMatchers, SanitizeLabelName, About, Window, FormatDuration;
    ScalarRoundTrip(dialect, q, f, dur, g);
    ValueOfWindow("increase", q.metric, q, f, FormatDuration(dur), ops, store);
  }

  lemma AvgValue<V>(dialect: Dialect, q: MetricQuery, f: TenantFilter, dur: int, g: FloatFormat, ops: Operators<V>,
                    store: set<Series>)
    requires GoodFormat(g) && WellFormed(dialect, q, f) && NamesOneMetric(q) && q.aggregation == Avg
    ensures EvalText(dialect, TextFor(Scalar, q, f, dur, g), ops, store) ==
            Some(ops.aggr("avg", GroupLabel(q),
                          ops.call("increase", ops.window(FormatDuration(dur), About(q.metric, q, f, store)))))
  {
    hide ParseText, WellFormed, BuildScalarPromQL, QueryMatchers, SanitizeLabelName, About, Window, FormatDuration;
    ScalarRoundTrip(dialect, q, f, dur, g);
    ValueOfWindow("increase", q.metric, q, f, FormatDuration(dur), ops, store);
  }

  /** Grouped, it counts the groups there are; ungrouped, the series. */
  lemma CountDistinctValue<V>(dialect: Dialect, q: MetricQuery, f: TenantFilter, dur: int, g: FloatFormat,
                              ops: Operators<V>, store: set<Series>)
    requires GoodFormat(g) && WellFormed(dialect, q, f) && NamesOneMetric(q) && q.aggregation == CountDistinct
    ensures var grown := ops.call("increase", ops.window(FormatDuration(dur), About(q.metric, q, f, store)));
            EvalText(dialect, TextFor(Scalar, q, f, dur, g), ops, store) ==
            Some(ops.aggr("count", None, if q.groupBy == "" then grown else ops.aggr("count", GroupLabel(q), grown)))
  {
    hide ParseText, WellFormed, BuildScalarPromQL, QueryMatchers, SanitizeLabelName, About, Window, FormatDuration;
    ScalarRoundTrip(dialect, q, f, dur, g);
    ValueOfWindow("increase", q.metric, q, f, FormatDuration(dur), ops, store);
    var e := Compile(q, f, dur, g);
    if q.groupBy != "" {
      assert Eval(e.arg, ops, store) == ops.aggr("count", GroupLabel(q), Eval(e.arg.arg, ops, store));
    }
  }

  /** Any other aggregation is a sum over everything: the grouping is not printed. */
  lemma OtherValue<V>(dialect: Dialect, q: MetricQuery, f: TenantFilter, dur: int, g: FloatFormat, ops: Operators<V>,
                      store: set<Series>)
    requires GoodFormat(g) && WellFormed(dialect, q, f) && NamesOneMetric(q) && q.aggregation.Other?
    ensures EvalText(dialect, TextFor(Scalar, q, f, dur, g), ops, store) ==
            Some(ops.aggr("sum", None,
                          ops.call("increase", ops.window(FormatDuration(dur), About(q.metric, q, f, store)))))
  {
    hide ParseText, WellFormed, BuildScalarPromQL, QueryMatchers, SanitizeLabelName, About, Window, FormatDuration;
    ScalarRoundTrip(dialect, q, f, dur, g);
    ValueOfWindow("increase", q.metric, q, f, FormatDuration(dur), ops, store);
  }

  // ---------- durations and ratios ----------

  /** The rate of the duration metric over the rate of its count, times the multiplier, for which 0 stands for 1. */
  lemma DurationValue<V>(dialect: Dialect, q: MetricQuery, f: TenantFilter, dur: int, g: FloatFormat, ops: Operators<V>,
                         store: set<Series>)
    requires GoodFormat(g) && WellFormed(dialect, q, f)
    requires (q.numerator.None? || q.denominator.None?) && q.durationMetric != "" && q.durationCountMetric != ""
    ensures var w := FormatDuration(dur);
            var total := ops.aggr("sum", None, ops.call("rate", ops.window(w, About(q.durationMetric, q, f, store))));
            var counted := ops.window(w, About(q.durationCountMetric, q, f, store));
            var count := ops.aggr("sum", None, ops.call("rate", counted));
            var scale := if q.multiplier == 0.0 then 1.0 else q.multiplier;
            EvalText(dialect, TextFor(Scalar, q, f, dur, g), ops, store) ==
            Some(ops.bin('*', ops.bin('/', total, count), ops.number(g(scale))))
  {
    hide ParseText, WellFormed, BuildScalarPromQL, QueryMatchers, About, Window, FormatDuration;
    ScalarRoundTrip(dialect, q, f, dur, g);
    ValueOfWindow("rate", q.durationMetric, q, f, FormatDuration(dur), ops, store);
    ValueOfWindow("rate", q.durationCountMetric, q, f, FormatDuration(dur), ops, store);
    var ms, w := QueryMatchers(q, f), FormatDuration(dur);
    var a, b := Window("rate", q.durationMetric, ms, w), Window("rate", q.durationCountMetric, ms, w);
    ValueOfQuotient(Aggr("sum", None, a), Aggr("sum", None, b), g(Multiplier(q)), ops, store);
    assert Eval(Aggr("sum", None, a), ops, store) == ops.aggr("sum", None, Eval(a, ops, store));
    assert Eval(Aggr("sum", None, b), ops, store) == ops.aggr("sum", None, Eval(b, ops, store));
  }

  /** A hundred times the value of the numerator's text over that of the denominator's, whatever those are. */
  lemma RatioValue<V>(dialect: Dialect, q: MetricQuery, f: TenantFilter, dur: int, g: FloatFormat, ops: Operators<V>,
                      store: set<Series>)
    requires GoodFormat(g) && q.numerator.Some? && q.denominator.Some?
    ensures var top := EvalText(dialect, TextFor(Scalar, q.numerator.value, f, dur, g), ops, store);
            var bottom := EvalText(dialect, TextFor(Scalar, q.denominator.value, f, dur, g), ops, store);
            EvalText(dialect, TextFor(Scalar, q, f, dur, g), ops, store) ==
            if top.None? || bottom.None? then None
            else Some(ops.bin('*', ops.bin('/', top.value, bottom.value), ops.number("100")))
  {
    var n, d := q.numerator.value, q.denominator.value;
    var a, b := Compile(n, f, dur, g), Compile(d, f, dur, g);
    assert Compile(q, f, dur, g) == Bin('*', Bin('/', a, b), Num("100"));
    assert WellFormed(dialect, q, f) <==> WellFormed(dialect, n, f) && WellFormed(dialect, d, f);
    hide ParseText, BuildScalarPromQL, Compile, WellFormed, Eval;
    ScalarRoundTrip(dialect, q, f, dur, g);
    ScalarRoundTrip(dialect, n, f, dur, g);
    ScalarRoundTrip(dialect, d, f, dur, g);
    ValueOfQuotient(a, b, "100", ops, store);
  }

  // ---------- the other request kinds ----------

  /** A range query sums one metric: its samples for a gauge, else the increase over each step. */
  lemma RangeValue<V>(dialect: Dialect, q: MetricQuery, f: TenantFilter, dur: int, step: int, g: FloatFormat,
                      ops: Operators<V>, store: set<Series>)
    requires GoodSelector(dialect, q.metric, q, f)
    ensures var series := About(q.metric, q, f, store);
            EvalText(dialect, TextFor(TimeSeries(step), q, f, dur, g), ops, store) ==
            Some(ops.aggr("sum", None,
                          if q.aggregation == Gauge then ops.instant(series)
                          else ops.call("increase", ops.window(FormatDuration(step), series))))
  {
    hide ParseText, GoodSelector, BuildRatePromQL, QueryMatchers, About, Window, FormatDuration, Selected,
         SanitizeMetricName;
    RateRoundTrip(dialect, q, f, step);
    ValueOfWindow("increase", q.metric, q, f, FormatDuration(step), ops, store);
    ValueOfGauge(q.metric, q, f, ops, store);
  }

  /** A grouped request is the instant query with the requested label in place of the query's own. */
  lemma GroupedValue<V>(dialect: Dialect, q: MetricQuery, f: TenantFilter, dur: int, groupBy: string, g: FloatFormat,
                        ops: Operators<V>, store: set<Series>)
    ensures EvalText(dialect, TextFor(Grouped(groupBy), q, f, dur, g), ops, store)
         == EvalText(dialect, TextFor(Scalar, q.(groupBy := groupBy), f, dur, g), ops, store)
  {
  }

  /** A top-n request is topk, with the decimal limit, of the grouped request. */
  lemma TopNValue<V>(dialect: Dialect, q: MetricQuery, f: TenantFilter, dur: int, groupBy: string, limit: int,
                     g: FloatFormat, ops: Operators<V>, store: set<Series>)
    requires GoodFormat(g)
    ensures var inner := EvalText(dialect, TextFor(Grouped(groupBy), q, f, dur, g), ops, store);
            EvalText(dialect, TextFor(TopN(groupBy, limit), q, f, dur, g), ops, store) ==
            if inner.None? then None else Some(ops.topk(IntText(limit), inner.value))
  {
    hide ParseText, BuildScalarPromQL, BuildTopNPromQL, Compile, WellFormed, IntText;
    TopNRoundTrip(dialect, q, f, dur, groupBy, limit, g);
    ScalarRoundTrip(dialect, q.(groupBy := groupBy), f, dur, g);
  }

  // ---------- requests ----------

  /** A request with both parts is the ratio of the first over the second. */
  lemma RatioRequestValue<V>(dialect: Dialect, request: AnalyticsRequest, f: TenantFilter, dur: int, g: FloatFormat,
                             ops: Operators<V>, store: set<Series>)
    requires GoodFormat(g) && request.numerator.Some? && request.denominator.Some?
    ensures var top := EvalText(dialect, TextFor(Scalar, request.numerator.value, f, dur, g), ops, store);
            var bottom := EvalText(dialect, TextFor(Scalar, request.denominator.value, f, dur, g), ops, store);
            EvalText(dialect, TextFor(Scalar, request.ToMetricQuery(), f, dur, g), ops, store) ==
            if top.None? || bottom.None? then None
            else Some(ops.bin('*', ops.bin('/', top.value, bottom.value), ops.number("100")))
  {
    RatioValue(dialect, request.ToMetricQuery(), f, dur, g, ops, store);
  }

  /** Any other request asks for its metric, with its aggregation, filters and grouping, and never for a duration. */
  lemma PlainRequestKept(request: AnalyticsRequest)
    requires request.numerator.None? || request.denominator.None?
    ensures var q := request.ToMetricQuery();
            && NamesOneMetric(q) && q.metric == request.metric && q.aggregation == request.aggregation
            && q.filters == request.filters && q.groupBy == request.groupBy
  {
  }
}
