// The PromQL compiler: text builders, and the trees that text must denote.
module Compiler {
  import opened Wrappers
  import opened Text
  import opened PromLex
  import opened Query
  import opened PromQL
  import PartitionRegex

  // ---------- durations, in nanoseconds ----------

  const MINUTE: int := 60_000_000_000
  const HOUR: int := 60 * MINUTE

  /** Conversion to int drops the fraction, towards zero. */
  function Whole(d: int, unit: int): int
    requires unit > 0
  {
    if d >= 0 then d / unit else -((-d) / unit)
  }

  function FormatDuration(d: int): string {
    var hours := Whole(d, HOUR);
    if hours >= 24 then IntText(hours / 24) + "d"
    else if hours > 0 then IntText(hours) + "h"
    else
      var minutes := Whole(d, MINUTE);
      if minutes > 0 then IntText(minutes) + "m" else "1m"
  }

  // ---------- label matchers ----------

  function ScopeMatchers(f: TenantFilter): seq<Matcher> {
    if !f.scoped then [] else [Eq("tenant_id", f.tenantId)] + PartitionMatchers(f.partitionIds)
  }

  function PartitionMatchers(ids: seq<string>): seq<Matcher> {
    if |ids| == 0 then []
    else if |ids| == 1 then [Eq("partition_id", ids[0])]
    else [Re("partition_id", Join(PartitionRegex.Quoted(ids), "|"))]
  }

  function FilterMatchers(keys: seq<string>, filters: map<string, string>): seq<Matcher>
    requires forall k :: k in keys ==> k in filters
  {
    if keys == [] then []
    else
      (if IsReservedKey(keys[0]) then [] else [Eq(SanitizeLabelName(keys[0]), filters[keys[0]])])
      + FilterMatchers(keys[1..], filters)
  }

  function KeysOf(filters: map<string, string>): (keys: seq<string>)
    ensures forall k :: k in keys <==> k in filters
  {
    var keys := SortedKeys(filters.Keys);
    assert forall k :: k in keys <==> k in multiset(keys);
    keys
  }

  /** The matchers a query is compiled with: its scope, then its filters in key order. */
  function QueryMatchers(q: MetricQuery, f: TenantFilter): seq<Matcher> {
    ScopeMatchers(f) + FilterMatchers(KeysOf(q.filters), q.filters)
  }

  function MatcherText(m: Matcher): string {
    match m
    case Eq(n, v) => n + "=\"" + EscapeLabelValue(v) + "\""
    case Re(n, v) => n + "=~\"" + EscapeLabelValue(v) + "\""
  }

  function Texts(ms: seq<Matcher>): (r: seq<string>)
    ensures |r| == |ms|
  {
    seq(|ms|, i requires 0 <= i < |ms| => MatcherText(ms[i]))
  }

  function LabelText(q: MetricQuery, f: TenantFilter): string {
    Join(Texts(QueryMatchers(q, f)), ",")
  }

  lemma {:induction false} FilterMatchersConcat(a: seq<string>, b: seq<string>, filters: map<string, string>)
    requires (forall k :: k in a ==> k in filters) && (forall k :: k in b ==> k in filters)
    ensures FilterMatchers(a + b, filters) == FilterMatchers(a, filters) + FilterMatchers(b, filters)
  {
    if a == [] {
      assert a + b == b;
    } else {
      assert (a + b)[1..] == a[1..] + b;
      FilterMatchersConcat(a[1..], b, filters);
    }
  }

  lemma TextsConcat(a: seq<Matcher>, b: seq<Matcher>)
    ensures Texts(a + b) == Texts(a) + Texts(b)
  {
  }

  method QuoteAll(ids: seq<string>) returns (quoted: seq<string>)
    ensures quoted == PartitionRegex.Quoted(ids)
  {
    quoted := [];
    for i := 0 to |ids|
      invariant quoted == PartitionRegex.Quoted(ids)[..i]
    {
      quoted := quoted + [PartitionRegex.QuoteMeta(ids[i])];
    }
  }

  method CollectKeys(filters: map<string, string>) returns (keys: seq<string>)
    ensures multiset(keys) == multiset(filters.Keys)
  {
    keys := [];
    var rest := filters.Keys;
    while rest != {}
      invariant rest <= filters.Keys
      invariant multiset(keys) + multiset(rest) == multiset(filters.Keys)
    {
      var k :| k in rest;
      keys := keys + [k];
      rest := rest - {k};
    }
  }

  lemma NextFilterText(keys: seq<string>, i: nat, filters: map<string, string>)
    requires i < |keys|
    requires forall k :: k in keys ==> k in filters
    ensures Texts(FilterMatchers(keys[..i + 1], filters)) ==
            Texts(FilterMatchers(keys[..i], filters)) +
            if IsReservedKey(keys[i]) then []
            else [SanitizeLabelName(keys[i]) + "=\"" + EscapeLabelValue(filters[keys[i]]) + "\""]
  {
    var last := [keys[i]];
    assert keys[..i + 1] == keys[..i] + last;
    FilterMatchersConcat(keys[..i], last, filters);
    assert FilterMatchers(last[1..], filters) == [];
    TextsConcat(FilterMatchers(keys[..i], filters), FilterMatchers(last, filters));
  }

  /** Builds the text between the braces, visiting the filter map in whatever order it offers. */
  method BuildLabelMatchers(q: MetricQuery, f: TenantFilter) returns (s: string)
    ensures s == LabelText(q, f)
  {
    var parts := [];
    if f.scoped {
      parts := parts + ["tenant_id=\"" + EscapeLabelValue(f.tenantId) + "\""];
      if |f.partitionIds| == 1 {
        parts := parts + ["partition_id=\"" + EscapeLabelValue(f.partitionIds[0]) + "\""];
      } else if |f.partitionIds| > 1 {
        var quoted := QuoteAll(f.partitionIds);
        parts := parts + ["partition_id=~\"" + EscapeLabelValue(Join(quoted, "|")) + "\""];
      }
      ScopeTexts(f);
    }
    assert parts == Texts(ScopeMatchers(f));
    var filterParts := BuildFilterParts(q.filters);
    TextsConcat(ScopeMatchers(f), FilterMatchers(KeysOf(q.filters), q.filters));
    s := Join(parts + filterParts, ",");
  }

  /** The second half of the same function: collect the keys, sort them, skip the reserved ones. */
  method BuildFilterParts(filters: map<string, string>) returns (parts: seq<string>)
    ensures parts == Texts(FilterMatchers(KeysOf(filters), filters))
  {
    var keys := CollectKeys(filters);
    SortedListing(keys, filters.Keys);
    keys := Sort(keys);
    parts := [];
    for i := 0 to |keys|
      invariant keys == KeysOf(filters)
      invariant parts == Texts(FilterMatchers(keys[..i], filters))
    {
      NextFilterText(keys, i, filters);
      var name := SanitizeLabelName(keys[i]);
      if !IsReservedScopeLabel(name) {
        parts := parts + [name + "=\"" + EscapeLabelValue(filters[keys[i]]) + "\""];
      }
    }
    assert keys[..|keys|] == keys;
  }

  lemma ScopeTexts(f: TenantFilter)
    requires f.scoped
    ensures Texts(ScopeMatchers(f)) ==
            ["tenant_id=\"" + EscapeLabelValue(f.tenantId) + "\""] +
            if |f.partitionIds| == 0 then []
            else if |f.partitionIds| == 1 then ["partition_id=\"" + EscapeLabelValue(f.partitionIds[0]) + "\""]
            else ["partition_id=~\"" + EscapeLabelValue(Join(PartitionRegex.Quoted(f.partitionIds), "|")) + "\""]
  {
    assert "tenant_id" + "=\"" == "tenant_id=\"";
    assert "partition_id" + "=\"" == "partition_id=\"";
    assert "partition_id" + "=~\"" == "partition_id=~\"";
  }

  // ---------- query text ----------

  /** Go's %g for multipliers; any rendering that is a number will do. */
  type FloatFormat = real -> string

  function SelectorText(metric: string, labels: string): string {
    metric + "{" + labels + "}"
  }

  function RangeText(fn: string, selector: string, window: string): string {
    fn + "(" + selector + "[" + window + "])"
  }

  function GroupText(op: string, groupBy: string, inner: string): string {
    if groupBy != "" then op + " by (" + groupBy + ") (" + inner + ")" else op + "(" + inner + ")"
  }

  function BuildScalarPromQL(q: MetricQuery, f: TenantFilter, dur: int, g: FloatFormat): string {
    var w := FormatDuration(dur);
    if q.IsRatio() then
      "(" + BuildScalarPromQL(q.numerator.value, f, dur, g) + ") / ("
      + BuildScalarPromQL(q.denominator.value, f, dur, g) + ") * 100"
    else
      var labels := LabelText(q, f);
      if q.IsDuration() then
        GroupText("sum", "", RangeText("rate", SelectorText(SanitizeMetricName(q.durationMetric), labels), w)) + " / "
        + GroupText("sum", "", RangeText("rate", SelectorText(SanitizeMetricName(q.durationCountMetric), labels), w))
        + " * " + g(Multiplier(q))
      else
        var sel := SelectorText(SanitizeMetricName(q.metric), labels);
        var group := SanitizeLabelName(q.groupBy);
        match q.aggregation
        case Gauge => GroupText("sum", group, sel)
        case Count => GroupText("sum", group, RangeText("increase", sel, w))
        case Sum => GroupText("sum", group, RangeText("increase", sel, w))
        case Avg => GroupText("avg", group, RangeText("increase", sel, w))
        case CountDistinct =>
          if group != "" then GroupText("count", "", GroupText("count", group, RangeText("increase", sel, w)))
          else GroupText("count", "", RangeText("increase", sel, w))
        case Other(_) => GroupText("sum", "", RangeText("increase", sel, w))
  }

  function Multiplier(q: MetricQuery): real {
    if q.multiplier == 0.0 then 1.0 else q.multiplier
  }

  function BuildRatePromQL(q: MetricQuery, f: TenantFilter, step: int): string {
    var sel := SelectorText(SanitizeMetricName(q.metric), LabelText(q, f));
    if q.aggregation == Gauge then GroupText("sum", "", sel)
    else GroupText("sum", "", RangeText("increase", sel, FormatDuration(step)))
  }

  /** QueryGrouped: the query's own grouping is replaced by the requested one. */
  function BuildGroupedPromQL(q: MetricQuery, f: TenantFilter, dur: int, groupBy: string, g: FloatFormat): string {
    BuildScalarPromQL(q.(groupBy := groupBy), f, dur, g)
  }

  function BuildTopNPromQL(q: MetricQuery, f: TenantFilter, dur: int, groupBy: string, limit: int,
                           g: FloatFormat): string {
    "topk(" + IntText(limit) + ", " + BuildScalarPromQL(q.(groupBy := groupBy), f, dur, g) + ")"
  }

  /** What the backend is asked over HTTP for a request over a window. */
  function TextFor(r: Request, q: MetricQuery, f: TenantFilter, dur: int, g: FloatFormat): string {
    match r
    case Scalar => BuildScalarPromQL(q, f, dur, g)
    case TimeSeries(step) => BuildRatePromQL(q, f, step)
    case Grouped(groupBy) => BuildGroupedPromQL(q, f, dur, groupBy, g)
    case TopN(groupBy, limit) => BuildTopNPromQL(q, f, dur, groupBy, limit, g)
  }

  // ---------- the trees ----------

  function Window(fn: string, metric: string, ms: seq<Matcher>, w: string): Expr {
    Call(fn, Range(SanitizeMetricName(metric), ms, w))
  }

  function Grouping(groupBy: string): Option<string> {
    if groupBy == "" then None else Some(SanitizeLabelName(groupBy))
  }

  function Compile(q: MetricQuery, f: TenantFilter, dur: int, g: FloatFormat): Expr {
    var w := FormatDuration(dur);
    if q.IsRatio() then
      Bin('*', Bin('/', Compile(q.numerator.value, f, dur, g), Compile(q.denominator.value, f, dur, g)), Num("100"))
    else
      var ms := QueryMatchers(q, f);
      if q.IsDuration() then
        Bin('*', Bin('/', Aggr("sum", None, Window("rate", q.durationMetric, ms, w)),
                          Aggr("sum", None, Window("rate", q.durationCountMetric, ms, w))),
            Num(g(Multiplier(q))))
      else
        var grown := Window("increase", q.metric, ms, w);
        match q.aggregation
        case Gauge => Aggr("sum", Grouping(q.groupBy), Select(SanitizeMetricName(q.metric), ms))
        case Count => Aggr("sum", Grouping(q.groupBy), grown)
        case Sum => Aggr("sum", Grouping(q.groupBy), grown)
        case Avg => Aggr("avg", Grouping(q.groupBy), grown)
        case CountDistinct =>
          if q.groupBy == "" then Aggr("count", None, grown)
          else Aggr("count", None, Aggr("count", Grouping(q.groupBy), grown))
        case Other(_) => Aggr("sum", None, grown)
  }

  function CompileRate(q: MetricQuery, f: TenantFilter, step: int): Expr {
    var ms := QueryMatchers(q, f);
    if q.aggregation == Gauge then Aggr("sum", None, Select(SanitizeMetricName(q.metric), ms))
    else Aggr("sum", None, Window("increase", q.metric, ms, FormatDuration(step)))
  }
}
