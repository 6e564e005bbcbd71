// Metric queries, the tenant scope they run under, and the two passes made over
// them before compilation: the metric allowlist and the filter sanitizer.
module Query {
  import opened Wrappers
  import opened PromLex

  datatype Aggregation = Sum | Avg | Count | CountDistinct | Gauge | Other(name: string)

  datatype MetricQuery = MetricQuery(
    metric: string,
    aggregation: Aggregation,
    filters: map<string, string>,
    groupBy: string,
    numerator: Option<MetricQuery>,
    denominator: Option<MetricQuery>,
    durationMetric: string,
    durationCountMetric: string,
    multiplier: real)
  {
    predicate IsRatio() {
      numerator.Some? && denominator.Some?
    }

    predicate IsDuration() {
      durationMetric != "" && durationCountMetric != ""
    }
  }

  /** The JSON body of a request, as far as it describes the query itself. */
  datatype AnalyticsRequest = AnalyticsRequest(
    metric: string,
    aggregation: Aggregation,
    filters: map<string, string>,
    groupBy: string,
    numerator: Option<MetricQuery>,
    denominator: Option<MetricQuery>)
  {
    /** A ratio keeps neither the metric nor the aggregation of the request. */
    function ToMetricQuery(): MetricQuery {
      if numerator.Some? && denominator.Some? then
        MetricQuery("", Other(""), filters, groupBy, numerator, denominator, "", "", 0.0)
      else MetricQuery(metric, aggregation, filters, groupBy, None, None, "", "", 0.0)
    }
  }

  /** The four query kinds with the arguments only they have. */
  datatype Request = Scalar | TimeSeries(step: int) | Grouped(groupBy: string) | TopN(groupBy: string, limit: int)

  datatype TenantFilter = TenantFilter(tenantId: string, partitionIds: seq<string>, scoped: bool)

  predicate IsReservedScopeLabel(name: string) {
    name == "tenant_id" || name == "partition_id"
  }

  predicate IsReservedKey(key: string) {
    IsReservedScopeLabel(SanitizeLabelName(key))
  }

  // ---------- allowlist ----------

  datatype Rejection = NameRequired | NotAllowed(name: string)

  /** The names accepted by the configured patterns; the patterns themselves stay abstract. */
  type Allowlist = string -> bool

  function Validate(allows: Allowlist, q: MetricQuery): Option<Rejection> {
    if q.IsRatio() then
      match Validate(allows, q.numerator.value)
      case Some(e) => Some(e)
      case None => Validate(allows, q.denominator.value)
    else if q.IsDuration() then
      if !allows(q.durationMetric) then Some(NotAllowed(q.durationMetric))
      else if !allows(q.durationCountMetric) then Some(NotAllowed(q.durationCountMetric))
      else None
    else if q.metric == "" then Some(NameRequired)
    else if !allows(q.metric) then Some(NotAllowed(q.metric))
    else None
  }

  /** The metric names an instant query of q reads. */
  function ReadNames(q: MetricQuery): set<string> {
    if q.IsRatio() then ReadNames(q.numerator.value) + ReadNames(q.denominator.value)
    else if q.IsDuration() then {q.durationMetric, q.durationCountMetric}
    else {q.metric}
  }

  /** Validation accepts exactly the queries whose every name is present and allowed, and blames a name that is not. */
  lemma {:induction false} ValidateExact(allows: Allowlist, q: MetricQuery)
    ensures Validate(allows, q).None? <==> "" !in ReadNames(q) && forall n :: n in ReadNames(q) ==> allows(n)
    ensures match Validate(allows, q)
            case Some(NotAllowed(n)) => n in ReadNames(q) && !allows(n)
            case Some(NameRequired) => "" in ReadNames(q)
            case None => true
  {
    if q.IsRatio() {
      ValidateExact(allows, q.numerator.value);
      ValidateExact(allows, q.denominator.value);
    }
  }

  /** The names in the order they are checked: a ratio's numerator first, a duration's metric before its count. */
  function NamesInOrder(q: MetricQuery): seq<string> {
    if q.IsRatio() then NamesInOrder(q.numerator.value) + NamesInOrder(q.denominator.value)
    else if q.IsDuration() then [q.durationMetric, q.durationCountMetric]
    else [q.metric]
  }

  predicate Good(allows: Allowlist, name: string) {
    name != "" && allows(name)
  }

  /** The first name that is missing or not allowed is the one blamed. */
  lemma {:induction false} FirstNameBlamed(allows: Allowlist, q: MetricQuery, i: nat)
    requires i < |NamesInOrder(q)| && !Good(allows, NamesInOrder(q)[i])
    requires forall j :: 0 <= j < i ==> Good(allows, NamesInOrder(q)[j])
    ensures var n := NamesInOrder(q)[i]; Validate(allows, q) == Some(if n == "" then NameRequired else NotAllowed(n))
  {
    if q.IsRatio() {
      var a, b := NamesInOrder(q.numerator.value), NamesInOrder(q.denominator.value);
      assert NamesInOrder(q) == a + b;
      assert forall j :: 0 <= j < |a| ==> a[j] == (a + b)[j];
      assert forall j :: 0 <= j < |b| ==> b[j] == (a + b)[|a| + j];
      if i < |a| {
        FirstNameBlamed(allows, q.numerator.value, i);
      } else {
        AllGoodPass(allows, q.numerator.value);
        FirstNameBlamed(allows, q.denominator.value, i - |a|);
      }
    } else if q.IsDuration() {
      if i == 1 { assert Good(allows, NamesInOrder(q)[0]); }
    }
  }

  lemma {:induction false} AllGoodPass(allows: Allowlist, q: MetricQuery)
    requires forall j :: 0 <= j < |NamesInOrder(q)| ==> Good(allows, NamesInOrder(q)[j])
    ensures Validate(allows, q) == None
  {
    if q.IsRatio() {
      var a, b := NamesInOrder(q.numerator.value), NamesInOrder(q.denominator.value);
      assert NamesInOrder(q) == a + b;
      assert forall j :: 0 <= j < |a| ==> a[j] == (a + b)[j];
      assert forall j :: 0 <= j < |b| ==> b[j] == (a + b)[|a| + j];
      AllGoodPass(allows, q.numerator.value);
      AllGoodPass(allows, q.denominator.value);
    } else {
      assert Good(allows, NamesInOrder(q)[0]);
      if q.IsDuration() { assert Good(allows, NamesInOrder(q)[1]); }
    }
  }

  // ---------- sanitizer ----------

  function CleanFilters(filters: map<string, string>): map<string, string> {
    map k | k in filters && !IsReservedKey(k) :: filters[k]
  }

  function SanitizeQueryFilters(q: MetricQuery): MetricQuery {
    q.(filters := CleanFilters(q.filters),
       numerator := match q.numerator case None => None case Some(n) => Some(SanitizeQueryFilters(n)),
       denominator := match q.denominator case None => None case Some(d) => Some(SanitizeQueryFilters(d)))
  }

  /** No filter anywhere in the query, at any ratio depth, names a tenancy label. */
  predicate NoReservedFilters(q: MetricQuery) {
    && (forall k :: k in q.filters ==> !IsReservedKey(k))
    && (q.numerator.Some? ==> NoReservedFilters(q.numerator.value))
    && (q.denominator.Some? ==> NoReservedFilters(q.denominator.value))
  }

  /** The sanitizer reaches every depth and leaves exactly the already clean queries alone. */
  lemma {:induction false} SanitizeReachesEveryDepth(q: MetricQuery)
    ensures NoReservedFilters(SanitizeQueryFilters(q))
    ensures SanitizeQueryFilters(q) == q <==> NoReservedFilters(q)
  {
    if q.numerator.Some? { SanitizeReachesEveryDepth(q.numerator.value); }
    if q.denominator.Some? { SanitizeReachesEveryDepth(q.denominator.value); }
    var c := CleanFilters(q.filters);
    if forall k :: k in q.filters ==> !IsReservedKey(k) {
      assert c == q.filters;
    } else {
      var k :| k in q.filters && IsReservedKey(k);
      assert k !in c;
    }
  }

  lemma SanitizeIdempotent(q: MetricQuery)
    ensures SanitizeQueryFilters(SanitizeQueryFilters(q)) == SanitizeQueryFilters(q)
  {
  }
}
