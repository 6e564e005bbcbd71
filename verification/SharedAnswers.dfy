// What the requests that share a cached answer ask the backend: the cache key
// against the meaning of the generated text.
module SharedAnswers {
  import opened Wrappers
  import opened Text
  import opened Query
  import opened PromQL
  import opened Compiler
  import opened QueryMeaning
  import opened TenantScope
  import opened QueryCache

  function TextOf(r: Request, q: MetricQuery, f: TenantFilter, tr: TimeRange, g: FloatFormat): string {
    TextFor(r, q, f, tr.end - tr.start, g)
  }

  /** Some selector of q's instant text is followed by the window. */
  predicate PrintsWindow(q: MetricQuery) {
    if q.IsRatio() then PrintsWindow(q.numerator.value) || PrintsWindow(q.denominator.value)
    else q.IsDuration() || !q.aggregation.Gauge?
  }

  /** A range query prints its step instead. */
  predicate WindowMatters(r: Request, q: MetricQuery) {
    !r.TimeSeries? && PrintsWindow(q)
  }

  /** The same tenant, and the same partitions in any order. */
  predicate SameTarget(f1: TenantFilter, f2: TenantFilter) {
    f1.scoped == f2.scoped && f1.tenantId == f2.tenantId && multiset(f1.partitionIds) == multiset(f2.partitionIds)
  }

  lemma SamePartitions(f1: TenantFilter, f2: TenantFilter)
    requires SameTarget(f1, f2)
    ensures forall id :: id in f1.partitionIds <==> id in f2.partitionIds
    ensures f1.partitionIds == [] <==> f2.partitionIds == []
  {
    assert forall id :: id in f1.partitionIds <==> id in multiset(f1.partitionIds);
    assert forall id :: id in f2.partitionIds <==> id in multiset(f2.partitionIds);
    assert |f1.partitionIds| == |multiset(f1.partitionIds)| && |f2.partitionIds| == |multiset(f2.partitionIds)|;
  }

  lemma SamePicks(q: MetricQuery, f1: TenantFilter, f2: TenantFilter, metric: string, s: Series)
    requires SameTarget(f1, f2)
    ensures Picks(metric, QueryMatchers(q, f1), s) <==> Picks(metric, QueryMatchers(q, f2), s)
  {
    hide QueryMatchers, SatisfiesAll;
    SamePartitions(f1, f2);
    SelectionExact(q, f1, s);
    SelectionExact(q, f2, s);
  }

  lemma SameSelector(dialect: Dialect, metric: string, q: MetricQuery, f1: TenantFilter, f2: TenantFilter)
    requires SameTarget(f1, f2)
    ensures GoodSelector(dialect, metric, q, f1) <==> GoodSelector(dialect, metric, q, f2)
  {
    hide Readable;
    SamePartitions(f1, f2);
  }

  lemma {:induction false} SameWellFormed(dialect: Dialect, q: MetricQuery, f1: TenantFilter, f2: TenantFilter)
    requires SameTarget(f1, f2)
    ensures WellFormed(dialect, q, f1) <==> WellFormed(dialect, q, f2)
  {
    hide GoodSelector;
    if q.IsRatio() {
      SameWellFormed(dialect, q.numerator.value, f1, f2);
      SameWellFormed(dialect, q.denominator.value, f1, f2);
    } else {
      SameSelector(dialect, q.metric, q, f1, f2);
      SameSelector(dialect, q.durationMetric, q, f1, f2);
      SameSelector(dialect, q.durationCountMetric, q, f1, f2);
    }
  }

  // ---------- trees that mean the same ----------

  /** Equal but for selectors, which pick the same series. */
  ghost predicate Alike(a: Expr, b: Expr) {
    match (a, b)
    case (Num(x), Num(y)) => x == y
    case (Select(m, ms), Select(n, ns)) => forall s :: Picks(m, ms, s) <==> Picks(n, ns, s)
    case (Range(m, ms, v), Range(n, ns, w)) => v == w && forall s :: Picks(m, ms, s) <==> Picks(n, ns, s)
    case (Call(fn, x), Call(gn, y)) => fn == gn && Alike(x, y)
    case (Aggr(o, k, x), Aggr(p, l, y)) => o == p && k == l && Alike(x, y)
    case (TopK(k, x), TopK(l, y)) => k == l && Alike(x, y)
    case (Bin(o, x1, x2), Bin(p, y1, y2)) => o == p && Alike(x1, y1) && Alike(x2, y2)
    case _ => false
  }

  lemma {:induction false} AlikeEval<V>(a: Expr, b: Expr, ops: Operators<V>, store: set<Series>)
    requires Alike(a, b)
    ensures Eval(a, ops, store) == Eval(b, ops, store)
  {
    hide Picks;
    match a
    case Num(_) =>
    case Select(m, ms) => assert Selected(m, ms, store) == Selected(b.metric, b.matchers, store);
    case Range(m, ms, _) => assert Selected(m, ms, store) == Selected(b.metric, b.matchers, store);
    case Call(_, x) => AlikeEval(x, b.arg, ops, store);
    case Aggr(_, _, x) => AlikeEval(x, b.arg, ops, store);
    case TopK(_, x) => AlikeEval(x, b.arg, ops, store);
    case Bin(_, l, r) =>
      AlikeEval(l, b.left, ops, store);
      AlikeEval(r, b.right, ops, store);
  }

  lemma WindowsAlike(fn: string, metric: string, q: MetricQuery, f1: TenantFilter, f2: TenantFilter, w: string)
    requires SameTarget(f1, f2)
    ensures Alike(Window(fn, metric, QueryMatchers(q, f1), w), Window(fn, metric, QueryMatchers(q, f2), w))
  {
    hide QueryMatchers, Picks, SameTarget;
    forall s { SamePicks(q, f1, f2, metric, s); }
    var name := PromLex.SanitizeMetricName(metric);
    forall s { SamePicks(q, f1, f2, name, s); }
    assert Alike(Range(name, QueryMatchers(q, f1), w), Range(name, QueryMatchers(q, f2), w));
  }

  lemma {:induction false} CompileAlike(q: MetricQuery, f1: TenantFilter, f2: TenantFilter, d1: int, d2: int,
                                        g: FloatFormat)
    requires SameTarget(f1, f2)
    requires PrintsWindow(q) ==> FormatDuration(d1) == FormatDuration(d2)
    ensures Alike(Compile(q, f1, d1, g), Compile(q, f2, d2, g))
  {
    hide Window, QueryMatchers, FormatDuration, Picks, SameTarget;
    var a, b := Compile(q, f1, d1, g), Compile(q, f2, d2, g);
    if q.IsRatio() {
      CompileAlike(q.numerator.value, f1, f2, d1, d2, g);
      CompileAlike(q.denominator.value, f1, f2, d1, d2, g);
      assert Alike(a.left, b.left);
    } else {
      var w := FormatDuration(d1);
      WindowsAlike("rate", q.durationMetric, q, f1, f2, w);
      WindowsAlike("rate", q.durationCountMetric, q, f1, f2, w);
      WindowsAlike("increase", q.metric, q, f1, f2, w);
      if q.IsDuration() {
        assert Alike(a.left, b.left);
      } else if q.aggregation.Gauge? {
        forall s { SamePicks(q, f1, f2, PromLex.SanitizeMetricName(q.metric), s); }
        assert Alike(a.arg, b.arg);
      } else {
        assert Alike(a.arg, b.arg);
      }
    }
  }

  lemma RateAlike(q: MetricQuery, f1: TenantFilter, f2: TenantFilter, step: int)
    requires SameTarget(f1, f2)
    ensures Alike(CompileRate(q, f1, step), CompileRate(q, f2, step))
  {
    hide Window, QueryMatchers, FormatDuration, Picks, SameTarget;
    WindowsAlike("increase", q.metric, q, f1, f2, FormatDuration(step));
    forall s { SamePicks(q, f1, f2, PromLex.SanitizeMetricName(q.metric), s); }
    assert Alike(CompileRate(q, f1, step).arg, CompileRate(q, f2, step).arg);
  }

  // ---------- what an answer is shared between ----------

  /** The tree a request compiles to. */
  function TreeOf(r: Request, q: MetricQuery, f: TenantFilter, tr: TimeRange, g: FloatFormat): Expr {
    var dur := tr.end - tr.start;
    match r
    case Scalar => Compile(q, f, dur, g)
    case TimeSeries(step) => CompileRate(q, f, step)
    case Grouped(groupBy) => Compile(q.(groupBy := groupBy), f, dur, g)
    case TopN(groupBy, limit) => TopK(IntText(limit), Compile(q.(groupBy := groupBy), f, dur, g))
  }

  lemma TextReadsAsTree(dialect: Dialect, r: Request, q: MetricQuery, f: TenantFilter, tr: TimeRange, g: FloatFormat)
    requires GoodFormat(g)
    ensures ParseText(dialect, TextOf(r, q, f, tr, g)) ==
            if Accepted(dialect, r, q, f) then Some(TreeOf(r, q, f, tr, g)) else None
  {
    hide ParseText, WellFormed, GoodSelector, Compile, CompileRate, BuildScalarPromQL, BuildRatePromQL, BuildTopNPromQL,
         IntText;
    var dur := tr.end - tr.start;
    match r
    case Scalar => ScalarRoundTrip(dialect, q, f, dur, g);
    case TimeSeries(step) => RateRoundTrip(dialect, q, f, step);
    case Grouped(groupBy) => ScalarRoundTrip(dialect, q.(groupBy := groupBy), f, dur, g);
    case TopN(groupBy, limit) => TopNRoundTrip(dialect, q, f, dur, groupBy, limit, g);
  }

  lemma SameAccepted(dialect: Dialect, r: Request, q: MetricQuery, f1: TenantFilter, f2: TenantFilter)
    requires SameTarget(f1, f2)
    ensures Accepted(dialect, r, q, f1) <==> Accepted(dialect, r, q, f2)
  {
    hide WellFormed, GoodSelector;
    match r
    case Scalar => SameWellFormed(dialect, q, f1, f2);
    case TimeSeries(_) => SameSelector(dialect, q.metric, q, f1, f2);
    case Grouped(groupBy) => SameWellFormed(dialect, q.(groupBy := groupBy), f1, f2);
    case TopN(groupBy, _) => SameWellFormed(dialect, q.(groupBy := groupBy), f1, f2);
  }

  lemma TopKAlike(k: string, a: Expr, b: Expr)
    requires Alike(a, b)
    ensures Alike(TopK(k, a), TopK(k, b))
  {
  }

  lemma GroupedAlike(q: MetricQuery, f1: TenantFilter, f2: TenantFilter, d1: int, d2: int, groupBy: string,
                     g: FloatFormat)
    requires SameTarget(f1, f2)
    requires PrintsWindow(q) ==> FormatDuration(d1) == FormatDuration(d2)
    ensures Alike(Compile(q.(groupBy := groupBy), f1, d1, g), Compile(q.(groupBy := groupBy), f2, d2, g))
  {
    hide Compile, FormatDuration, Alike;
    assert PrintsWindow(q.(groupBy := groupBy)) == PrintsWindow(q);
    CompileAlike(q.(groupBy := groupBy), f1, f2, d1, d2, g);
  }

  lemma TreesAlike(r: Request, q: MetricQuery, f1: TenantFilter, t1: TimeRange, f2: TenantFilter, t2: TimeRange,
                   g: FloatFormat)
    requires SameTarget(f1, f2)
    requires WindowMatters(r, q) ==> FormatDuration(t1.end - t1.start) == FormatDuration(t2.end - t2.start)
    ensures Alike(TreeOf(r, q, f1, t1, g), TreeOf(r, q, f2, t2, g))
  {
    hide Compile, CompileRate, FormatDuration, Alike, SameTarget, PrintsWindow;
    var d1, d2 := t1.end - t1.start, t2.end - t2.start;
    match r
    case Scalar => CompileAlike(q, f1, f2, d1, d2, g);
    case TimeSeries(step) => RateAlike(q, f1, f2, step);
    case Grouped(groupBy) => GroupedAlike(q, f1, f2, d1, d2, groupBy, g);
    case TopN(groupBy, limit) =>
      GroupedAlike(q, f1, f2, d1, d2, groupBy, g);
      TopKAlike(IntText(limit), Compile(q.(groupBy := groupBy), f1, d1, g), Compile(q.(groupBy := groupBy), f2, d2, g));
  }

  /** When the windows print alike, or are not printed, one answer serves both requests, on every store. */
  lemma SharedAnswerRight<V>(dialect: Dialect, r: Request, q: MetricQuery, f1: TenantFilter, t1: TimeRange,
                             f2: TenantFilter, t2: TimeRange, g: FloatFormat, ops: Operators<V>, store: set<Series>)
    requires GoodFormat(g) && SameFingerprint(r, q, f1, t1, r, q, f2, t2)
    requires WindowMatters(r, q) ==> FormatDuration(t1.end - t1.start) == FormatDuration(t2.end - t2.start)
    ensures EvalText(dialect, TextOf(r, q, f1, t1, g), ops, store)
         == EvalText(dialect, TextOf(r, q, f2, t2, g), ops, store)
  {
    hide ParseText, TreeOf, FormatDuration, Accepted, TextOf, Eval, Alike, WindowMatters;
    TextReadsAsTree(dialect, r, q, f1, t1, g);
    TextReadsAsTree(dialect, r, q, f2, t2, g);
    SameAccepted(dialect, r, q, f1, f2);
    TreesAlike(r, q, f1, t1, f2, t2, g);
    AlikeEval(TreeOf(r, q, f1, t1, g), TreeOf(r, q, f2, t2, g), ops, store);
  }

  /** Operators that pass on the windows of the selectors. */
  function WindowEcho(): Operators<set<string>> {
    Operators(_ => {}, _ => {}, (w, _) => {w}, (_, v) => v, (_, _, v) => v, (_, v) => v, (_, l, r) => l + r)
  }

  lemma {:induction false} EchoesWindow(q: MetricQuery, f: TenantFilter, dur: int, g: FloatFormat)
    ensures Eval(Compile(q, f, dur, g), WindowEcho(), {}) == if PrintsWindow(q) then {FormatDuration(dur)} else {}
  {
    hide QueryMatchers, FormatDuration, Picks, Selected, Window;
    var e, w, ms := Compile(q, f, dur, g), FormatDuration(dur), QueryMatchers(q, f);
    if q.IsRatio() {
      EchoesWindow(q.numerator.value, f, dur, g);
      EchoesWindow(q.denominator.value, f, dur, g);
      var l, r := e.left.left, e.left.right;
      assert Eval(e.left, WindowEcho(), {}) == Eval(l, WindowEcho(), {}) + Eval(r, WindowEcho(), {});
    } else {
      EchoOfWindow("rate", q.durationMetric, ms, w);
      EchoOfWindow("rate", q.durationCountMetric, ms, w);
      EchoOfWindow("increase", q.metric, ms, w);
      if q.IsDuration() {
        var l, r := e.left.left.arg, e.left.right.arg;
        assert Eval(e.left, WindowEcho(), {}) == Eval(l, WindowEcho(), {}) + Eval(r, WindowEcho(), {});
      } else {
        assert Eval(e, WindowEcho(), {}) == Eval(e.arg, WindowEcho(), {});
      }
    }
  }

  lemma EchoOfWindow(fn: string, metric: string, ms: seq<Matcher>, w: string)
    ensures Eval(Window(fn, metric, ms, w), WindowEcho(), {}) == {w}
  {
  }

  ghost predicate AlwaysSame(dialect: Dialect, a: string, b: string) {
    forall ops: Operators<set<string>>, store: set<Series> ::
      EvalText(dialect, a, ops, store) == EvalText(dialect, b, ops, store)
  }

  /**
   * Over all pairs of requests that share a cache key: their texts mean the same, permuted partitions included, exactly
   * when they are malformed, print no window, or print their windows alike.
   */
  lemma SharedAnswerExactly(dialect: Dialect, r: Request, q: MetricQuery, f1: TenantFilter, t1: TimeRange,
                            f2: TenantFilter, t2: TimeRange, g: FloatFormat)
    requires GoodFormat(g) && SameFingerprint(r, q, f1, t1, r, q, f2, t2)
    ensures AlwaysSame(dialect, TextOf(r, q, f1, t1, g), TextOf(r, q, f2, t2, g)) <==>
            || !Accepted(dialect, r, q, f1) || !WindowMatters(r, q)
            || FormatDuration(t1.end - t1.start) == FormatDuration(t2.end - t2.start)
  {
    hide ParseText, Compile, CompileRate, FormatDuration, Accepted, TextOf, Eval, PrintsWindow;
    var a, b := TextOf(r, q, f1, t1, g), TextOf(r, q, f2, t2, g);
    TextReadsAsTree(dialect, r, q, f1, t1, g);
    TextReadsAsTree(dialect, r, q, f2, t2, g);
    SameAccepted(dialect, r, q, f1, f2);
    if !Accepted(dialect, r, q, f1) {
      assert AlwaysSame(dialect, a, b);
    } else if !WindowMatters(r, q) || FormatDuration(t1.end - t1.start) == FormatDuration(t2.end - t2.start) {
      forall ops: Operators<set<string>>, store: set<Series>
        ensures EvalText(dialect, a, ops, store) == EvalText(dialect, b, ops, store)
      {
        SharedAnswerRight(dialect, r, q, f1, t1, f2, t2, g, ops, store);
      }
    } else {
      EchoesTextWindow(r, q, f1, t1, g);
      EchoesTextWindow(r, q, f2, t2, g);
      assert FormatDuration(t1.end - t1.start) in {FormatDuration(t1.end - t1.start)};
      assert EvalText(dialect, a, WindowEcho(), {}) != EvalText(dialect, b, WindowEcho(), {});
    }
  }

  lemma EchoesTextWindow(r: Request, q: MetricQuery, f: TenantFilter, tr: TimeRange, g: FloatFormat)
    requires WindowMatters(r, q)
    ensures Eval(TreeOf(r, q, f, tr, g), WindowEcho(), {}) == {FormatDuration(tr.end - tr.start)}
  {
    hide Compile, FormatDuration;
    var dur := tr.end - tr.start;
    EchoesWindow(q, f, dur, g);
    match r
    case Scalar =>
    case Grouped(groupBy) =>
      assert PrintsWindow(q.(groupBy := groupBy)) == PrintsWindow(q);
      EchoesWindow(q.(groupBy := groupBy), f, dur, g);
    case TopN(groupBy, limit) =>
      assert PrintsWindow(q.(groupBy := groupBy)) == PrintsWindow(q);
      EchoesWindow(q.(groupBy := groupBy), f, dur, g);
  }

  /** Two windows with one key, a nanosecond apart, printed as an hour and as 59 minutes. */
  lemma NanosecondChangesWindow(r: Request, q: MetricQuery, f: TenantFilter)
    ensures SameFingerprint(r, q, f, TimeRange(0, HOUR), r, q, f, TimeRange(1, HOUR))
    ensures FormatDuration(HOUR - 0) == "1h" && FormatDuration(HOUR - 1) == "59m"
  {
    assert HOUR == 3_600_000_000_000;
    assert NatText(1) == "1" && NatText(59) == NatText(5) + [Digit(9)] && NatText(5) == "5";
  }
}
