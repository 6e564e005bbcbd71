// The engine's scope and the compiler's isolation put together.
module EndToEnd {
  import opened Wrappers
  import opened Query
  import opened Compaction
  import opened Partitions
  import opened PromQL
  import opened Compiler
  import opened QueryMeaning
  import opened TenantScope
  import opened AllowedNames
  import opened Engine

  /** The partitions a request stands for: the caller's own, all within reach, or those it lists. */
  function Meant(caller: Caller, asked: seq<string>, reach: set<string>): set<string> {
    if asked == [] then Ids([caller.partition])
    else if asked == ["*"] then reach
    else Ids(asked)
  }

  /** Series of the caller's tenant in the partitions meant; of the whole tenant when there is none. */
  predicate MaySee(s: Series, caller: Caller, meant: set<string>) {
    Label(s, "tenant_id") == caller.tenant && (meant == {} || Label(s, "partition_id") in meant)
  }

  /** A filter the engine delivers keeps exactly the series the request may see. */
  lemma DeliveredScopeExact(f: TenantFilter, caller: Caller, asked: seq<string>, reach: set<string>, s: Series)
    requires Delivered(f, caller, asked, reach)
    ensures InScope(s, f) <==> MaySee(s, caller, Meant(caller, asked, reach))
  {
    var meant := Meant(caller, asked, reach);
    NonEmptySpec([caller.partition]);
    NonEmptySpec(asked);
    assert forall id :: id in f.partitionIds <==> id in meant;
    if f.partitionIds != [] {
      assert f.partitionIds[0] in meant;
    }
  }

  /**
   * Every text the engine has a backend run for a scoped caller answers the same on any two stores that agree on
   * the series the request may see.
   */
  lemma CallerIsolation<V>(dialect: Dialect, r: Request, q: MetricQuery, f: TenantFilter, caller: Caller,
                           asked: seq<string>, reach: set<string>, dur: int, g: FloatFormat, ops: Operators<V>,
                           a: set<Series>, b: set<Series>)
    requires GoodFormat(g) && Delivered(f, caller, asked, reach)
    requires forall s :: MaySee(s, caller, Meant(caller, asked, reach)) ==> (s in a <==> s in b)
    ensures var text := TextFor(r, SanitizeQueryFilters(q), f, dur, g);
            EvalText(dialect, text, ops, a) == EvalText(dialect, text, ops, b)
  {
    hide Meant, MaySee, TextFor, EvalText;
    forall s ensures InScope(s, f) <==> MaySee(s, caller, Meant(caller, asked, reach)) {
      DeliveredScopeExact(f, caller, asked, reach, s);
    }
    TenantIsolation(dialect, r, SanitizeQueryFilters(q), f, dur, g, ops, a, b);
  }

  /** Whether a query passes the allowlist does not depend on the filters the sanitizer removes. */
  lemma {:induction false} SanitizeSameVerdict(allows: Allowlist, q: MetricQuery)
    ensures Validate(allows, SanitizeQueryFilters(q)) == Validate(allows, q)
  {
    if q.IsRatio() {
      SanitizeSameVerdict(allows, q.numerator.value);
      SanitizeSameVerdict(allows, q.denominator.value);
    }
  }

  /**
   * The whole pipeline for instant and plain range queries: the answer depends on nothing but the series the request
   * may see that bear an allowed name.
   */
  lemma CallerReadsAllowed<V>(dialect: Dialect, allows: Allowlist, r: Request, q: MetricQuery, f: TenantFilter,
                              caller: Caller, asked: seq<string>, reach: set<string>, dur: int, g: FloatFormat,
                              ops: Operators<V>, a: set<Series>, b: set<Series>)
    requires GoodFormat(g) && Delivered(f, caller, asked, reach) && Validate(allows, q).None?
    requires r.TimeSeries? ==> IsPlain(q)
    requires forall s :: MaySee(s, caller, Meant(caller, asked, reach)) && BearsAllowedName(s, allows) ==>
               (s in a <==> s in b)
    ensures var text := TextFor(r, SanitizeQueryFilters(q), f, dur, g);
            EvalText(dialect, text, ops, a) == EvalText(dialect, text, ops, b)
  {
    hide Meant, MaySee, TextFor, EvalText, BearsAllowedName, Validate, InScope;
    forall s ensures InScope(s, f) <==> MaySee(s, caller, Meant(caller, asked, reach)) {
      DeliveredScopeExact(f, caller, asked, reach, s);
    }
    SanitizeSameVerdict(allows, q);
    AllowlistIsolation(dialect, allows, r, SanitizeQueryFilters(q), f, dur, g, ops, a, b);
  }
}
