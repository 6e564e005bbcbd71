// The analytics engine: the pipeline every query passes before it reaches the
// backend, and the cached answer path.
module Engine {
  import opened Wrappers
  import opened Capabilities
  import opened Compaction
  import opened TtlMap
  import opened Query
  import opened Partitions
  import opened PartitionRuns
  import opened QueryCache

  const GLOBAL_VIEW := "analytics:global:view"

  datatype Error = MetricNotAllowed(why: Rejection) | TenantScopeRequired | NotAccessible(id: string)
                 | BackendFailed(message: string)

  /** What the backend would answer to each call made while serving one request. */
  type Backend = (Request, MetricQuery, TenantFilter, TimeRange) -> Result<Answer, string>

  /** Each backend method returns its own type. */
  ghost predicate WellTyped(backend: Backend) {
    forall r, q, f, tr :: backend(r, q, f, tr).Ok? ==> HasKind(backend(r, q, f, tr).value, r)
  }

  /** The request context and the outside answers one query sees. */
  datatype Context = Context(caller: Option<Caller>, caps: CapabilitySet, children: Option<seq<string>>,
                             childCaps: ChildCaps)

  predicate IsScopedCaller(c: Context) {
    c.caller.Some? && c.caller.value.tenant != ""
  }

  /** Four capabilities allow a query without tenant scope. */
  lemma GlobalViewExact(caps: CapabilitySet)
    ensures Has(caps, GLOBAL_VIEW) <==>
            caps * {"analytics:global:view", "analytics:global:*", "analytics:*", "*"} != {}
  {
    var cap := "analytics:global:view";
    HasExactly(caps, cap);
    assert forall i :: 0 <= i < |cap| && cap[i] == ':' ==> i == 9 || i == 16;
    assert cap[9] == ':' && cap[16] == ':';
    assert cap[..9 + 1] + "*" == "analytics:*" && cap[..16 + 1] + "*" == "analytics:global:*";
    var four := {"analytics:global:view", "analytics:global:*", "analytics:*", "*"};
    assert Has(caps, GLOBAL_VIEW) <==> exists x :: x in four && x in caps;
    if x :| x in four && x in caps { assert x in caps * four; }
    if x :| x in caps * four { assert x in four && x in caps; }
  }

  class AnalyticsEngine {
    const allows: Allowlist
    const resolver: PartitionResolver
    const cache: ResponseCache?
    ghost var calls: seq<Call>

    ghost predicate Valid()
      reads this, resolver, resolver.Slices(), cache
    {
      && resolver.Valid()
      && (forall c :: c in calls ==> HasKind(c.answer, c.request))
      && (cache != null ==> cache.Valid() && cache.puts == PutsOf(calls))
    }

    constructor (allows: Allowlist, resolver: PartitionResolver, cacheTTL: int)
      requires resolver.Valid()
      ensures Valid() && this.resolver == resolver && this.allows == allows && calls == []
      ensures cache != null <==> cacheTTL > 0
      ensures cache != null ==> fresh(cache) && cache.ttl == cacheTTL
    {
      this.allows := allows;
      this.resolver := resolver;
      calls := [];
      if cacheTTL > 0 {
        var c := new ResponseCache(cacheTTL);
        cache := c;
      } else {
        cache := null;
      }
    }

    /** Compacts the slice the resolver caches for a caller; its other slices are not touched. */
    method CompactShared(caller: Caller, ids: Slice, ghost asked: int) returns (w: nat)
      requires resolver.Valid() && caller in resolver.cache && resolver.cache[caller].value == ids
      requires resolver.Hit(caller, asked) || JustFetched(resolver.log, caller, asked)
      modifies resolver`log, resolver`caches, ids
      ensures resolver.Valid()
      ensures w <= ids.Length && ids[..w] == NonEmpty(old(ids[..]))
      ensures ids[..] == Compacted(old(ids[..]))
      ensures resolver.log == old(resolver.log) + [Sent(caller, ids[..w], asked)]
      ensures forall other :: other in resolver.cache && other != caller ==>
                resolver.cache[other].value[..] == old(resolver.cache[other].value[..])
    {
      hide IsRun, Held, LastFetch, Compacted, NonEmpty, Hits, JustFetched;
      assert Tracks(resolver.log, resolver.ttl, caller, resolver.cache[caller]);
      label Before:
      w := CompactInPlace(ids);
      ghost var e := Sent(caller, ids[..w], asked);
      LogStep(resolver.log, e);
      RunStep(resolver.log, resolver.caches, e, resolver.cache, resolver.ttl, resolver.maxEntries);
      forall k | k in resolver.cache ensures Tracks(resolver.log + [e], resolver.ttl, k, resolver.cache[k]) {
        assert old@Before(Tracks(resolver.log, resolver.ttl, k, resolver.cache[k]));
      }
      resolver.log, resolver.caches := resolver.log + [e], resolver.caches + [resolver.cache];
    }

    /** The first requested id outside the accessible list, if any. */
    method FirstInaccessible(accessible: Slice, ids: Slice) returns (r: Option<string>)
      ensures r.None? <==> forall id :: id in ids[..] ==> id in accessible[..]
      ensures r.Some? ==> r.value in ids[..] && r.value !in accessible[..]
    {
      var accessSet := set id | id in accessible[..];
      for i := 0 to ids.Length
        invariant forall k :: 0 <= k < i ==> ids[k] in accessible[..]
      {
        if ids[i] !in accessSet {
          assert ids[..][i] == ids[i];
          return Some(ids[i]);
        }
      }
      return None;
    }

    /** Builds the tenant filter. Empty ids are dropped in place, in the request's slice or in the cached one. */
    method ResolveFilter(c: Context, partitionIds: Slice, now: int, swept: int, later: int)
      returns (r: Result<TenantFilter, Error>)
      requires resolver.Valid() && partitionIds !in resolver.Slices()
      modifies resolver, resolver.Slices(), partitionIds
      ensures resolver.Valid() && fresh(resolver.Slices() - old(resolver.Slices()))
      ensures c.caller.None? || c.caller.value.tenant == "" ==>
                && r == (if c.caps * {"analytics:global:view", "analytics:global:*", "analytics:*", "*"} != {}
                         then Ok(TenantFilter("", [], false)) else Err(TenantScopeRequired))
                && resolver.cache == old(resolver.cache) && resolver.log == old(resolver.log)
      ensures c.caller.Some? && c.caller.value.tenant != "" ==>
                var caller, asked := c.caller.value, old(partitionIds[..]);
                var hit := caller in old(resolver.cache) && now < old(resolver.cache)[caller].expiresAt;
                && resolver.log == old(resolver.log) + Trail(c, hit, asked, Delivery(r), now, swept, later)
                && CacheKept(hit, old(resolver.cache), resolver.cache, caller, later + resolver.ttl)
                && Answers(r, caller, asked, Reach(resolver.log, caller))
                && (r.Ok? ==> Delivered(r.value, caller, asked, Reach(resolver.log, caller)))
      ensures c.caller.Some? && c.caller.value.tenant != "" && old(partitionIds[..]) == [] ==>
                var own := c.caller.value.partition;
                r == Ok(TenantFilter(c.caller.value.tenant, if own == "" then [] else [own], true))
      ensures c.caller.Some? && c.caller.value.tenant != "" && old(partitionIds[..]) == ["*"] ==>
                && r.Ok? && r.value.scoped && r.value.tenantId == c.caller.value.tenant && "" !in r.value.partitionIds
                && forall id :: id in r.value.partitionIds <==> id in Reach(resolver.log, c.caller.value)
    {
      hide Stored, Accessible, NonEmpty, Compacted, IsRun, Held, LastFetch, Tracks, Reach, Answers, Delivered, Has;
      if !IsScopedCaller(c) {
        GlobalViewExact(c.caps);
        if !Has(c.caps, GLOBAL_VIEW) {
          return Err(TenantScopeRequired);
        }
        return Ok(TenantFilter("", [], false));
      }
      var caller := c.caller.value;
      var accessible := resolver.ResolveAccessible(caller, c.children, c.childCaps, now, swept, later);
      assert partitionIds[..] == old(partitionIds[..]);
      r := SelectPartitions(caller, accessible, partitionIds, now);
      AnswersSpelledOut(r, caller, old(partitionIds[..]), Reach(resolver.log, caller));
    }

    method OwnPartition(partition: string) returns (ids: seq<string>)
      ensures ids == NonEmpty([partition]) && "" !in ids
    {
      var own := new string[1](_ => partition);
      assert own[..] == [partition];
      NonEmptySpec([partition]);
      var w := CompactInPlace(own);
      ids := own[..w];
    }

    /** The three ways a request names partitions: none, all, or an explicit list. */
    method SelectPartitions(caller: Caller, accessible: Slice, partitionIds: Slice, ghost asked: int)
      returns (r: Result<TenantFilter, Error>)
      requires resolver.Valid() && caller in resolver.cache && resolver.cache[caller].value == accessible
      requires resolver.Hit(caller, asked) || JustFetched(resolver.log, caller, asked)
      requires partitionIds !in resolver.Slices()
      modifies resolver`log, resolver`caches, accessible, partitionIds
      ensures resolver.Valid()
      ensures resolver.log == old(resolver.log) +
                if old(partitionIds[..]) == ["*"] && r.Ok? then [Sent(caller, r.value.partitionIds, asked)] else []
      ensures Answers(r, caller, old(partitionIds[..]), Reach(resolver.log, caller))
      ensures r.Err? ==> r.error.id !in old(accessible[..])
      ensures old(partitionIds[..]) != [] && old(partitionIds[..]) != ["*"] ==>
                (r.Ok? <==> forall id :: id in old(partitionIds[..]) ==> id in old(accessible[..]))
    {
      hide IsRun, Held, LastFetch, NonEmpty, Compacted, Reach;
      HeldWithinReach(resolver.log, resolver.ttl, caller, resolver.cache[caller]);
      if partitionIds.Length == 0 {
        var own := OwnPartition(caller.partition);
        r := Ok(TenantFilter(caller.tenant, own, true));
      } else if partitionIds.Length == 1 && partitionIds[0] == "*" {
        NonEmptySpec(accessible[..]);
        var w := CompactShared(caller, accessible, asked);
        r := Ok(TenantFilter(caller.tenant, accessible[..w], true));
        LogStep(old(resolver.log), Sent(caller, accessible[..w], asked));
      } else {
        var bad := FirstInaccessible(accessible, partitionIds);
        if bad.Some? {
          return Err(NotAccessible(bad.value));
        }
        NonEmptySpec(partitionIds[..]);
        var w := CompactInPlace(partitionIds);
        r := Ok(TenantFilter(caller.tenant, partitionIds[..w], true));
      }
    }

    /** The cached answer path shared by the four query methods. */
    method Serve(request: Request, q: MetricQuery, f: TenantFilter, tr: TimeRange, backend: Backend, now: int,
                 later: int)
      returns (r: Result<Answer, Error>)
      requires Valid() && WellTyped(backend)
      modifies this`calls, cache
      ensures Valid()
      ensures var key := BuildCacheKey(request, q, f, tr);
              var cached := if cache == null then None else Lookup(old(cache.entries), key, now);
              var answer := backend(request, q, f, tr);
              if cached.Some? then r == Ok(cached.value) && calls == old(calls) && HasKind(cached.value, request)
              else if answer.Ok? then
                r == Ok(answer.value) && calls == old(calls) + [Call(request, q, f, tr, answer.value, later)]
              else r == Err(BackendFailed(answer.error)) && calls == old(calls)
      ensures cache != null && calls == old(calls) ==> cache.entries == old(cache.entries)
    {
      hide BuildCacheKey, Replay;
      var key := BuildCacheKey(request, q, f, tr);
      if cache != null {
        ServedAnswerFaithful(calls, cache.maxEntries, cache.ttl, request, q, f, tr, now);
        var cached := cache.Get(key, now);
        if cached.Some? && HasKind(cached.value, request) {
          return Ok(cached.value);
        }
      }
      var answer := backend(request, q, f, tr);
      if answer.Err? {
        return Err(BackendFailed(answer.error));
      }
      ghost var call := Call(request, q, f, tr, answer.value, later);
      calls := calls + [call];
      if cache != null {
        cache.PutAnswer(key, answer.value, later);
        assert PutsOf(calls) == PutsOf(old(calls)) + [PutOf(call)];
      }
      r := Ok(answer.value);
    }

    /**
     * One query, start to finish. Whatever is returned or sent to the backend went through the allowlist,
     * the filter sanitizer and the tenant scope, and a cached answer is a recent one to the same question.
     * The clock is read anew each time: now, swept and later in the resolver, looked and answered in the response
     * cache.
     */
    method Run(request: Request, q: MetricQuery, partitionIds: Slice, tr: TimeRange, c: Context, backend: Backend,
               now: int, swept: int, later: int, looked: int, answered: int)
      returns (r: Result<Answer, Error>, scope: Option<TenantFilter>)
      requires Valid() && WellTyped(backend) && partitionIds !in resolver.Slices()
      modifies this`calls, cache, resolver, resolver.Slices(), partitionIds
      ensures Valid() && fresh(resolver.Slices() - old(resolver.Slices()))
      ensures Validate(allows, q).Some? ==> r == Err(MetricNotAllowed(Validate(allows, q).value)) && scope == None
      ensures c.caller.None? || c.caller.value.tenant == "" ==>
                && (scope.Some? ==>
                      && scope.value == TenantFilter("", [], false)
                      && c.caps * {"analytics:global:view", "analytics:global:*", "analytics:*", "*"} != {})
                && (scope.None? && Validate(allows, q).None? ==> r == Err(TenantScopeRequired))
      ensures scope == None ==> r.Err? && calls == old(calls)
      ensures r.Ok? ==> match request
                        case Scalar => r.value.Number?
                        case TimeSeries(_) => r.value.Points?
                        case Grouped(_) => r.value.Segments?
                        case TopN(_, _) => r.value.Items?
      ensures scope.Some? && c.caller.Some? && c.caller.value.tenant != "" ==>
                Delivered(scope.value, c.caller.value, old(partitionIds[..]), Reach(resolver.log, c.caller.value))
      ensures if Validate(allows, q).Some? || c.caller.None? || c.caller.value.tenant == ""
              then resolver.cache == old(resolver.cache) && resolver.log == old(resolver.log)
              else
                var caller := c.caller.value;
                var hit := caller in old(resolver.cache) && now < old(resolver.cache)[caller].expiresAt;
                && resolver.log == old(resolver.log) + Trail(c, hit, old(partitionIds[..]), scope, now, swept, later)
                && CacheKept(hit, old(resolver.cache), resolver.cache, caller, later + resolver.ttl)
      ensures scope.Some? ==>
                var clean := SanitizeQueryFilters(q);
                var answer := backend(request, clean, scope.value, tr);
                || (r.Ok? && calls == old(calls) && cache != null &&
                    exists p :: p in calls && p.answer == r.value && looked - cache.ttl <= p.at
                                && SameFingerprint(p.request, p.query, p.filter, p.range,
                                                   request, clean, scope.value, tr))
                || (answer.Ok? && r == Ok(answer.value)
                    && calls == old(calls) + [Call(request, clean, scope.value, tr, answer.value, answered)])
                || (answer.Err? && r == Err(BackendFailed(answer.error)) && calls == old(calls))
    {
      hide Replay, Delivered, Answers, CacheKept, SameFingerprint, BuildCacheKey, Reach, IsRun, LastFetch, Held,
           Accessible, Trail, Tracks, NonEmpty, Distinct, Has;
      scope := None;
      var rejected := Validate(allows, q);
      if rejected.Some? {
        return Err(MetricNotAllowed(rejected.value)), None;
      }
      var clean := SanitizeQueryFilters(q);
      var filter := ResolveFilter(c, partitionIds, now, swept, later);
      if filter.Err? {
        return Err(filter.error), None;
      }
      scope := Some(filter.value);
      if cache != null {
        ServedAnswerFaithful(calls, cache.maxEntries, cache.ttl, request, clean, filter.value, tr, looked);
      }
      r := Serve(request, clean, filter.value, tr, backend, looked, answered);
    }
  }

  function Delivery(r: Result<TenantFilter, Error>): Option<TenantFilter> {
    match r case Ok(f) => Some(f) case Err(_) => None
  }

  /** Whatever an array has been through since it was fetched, its non-empty ids are its caller's reach. */
  lemma HeldWithinReach(log: seq<Event>, ttl: int, caller: Caller, entry: Timed<Slice>)
    requires Tracks(log, ttl, caller, entry)
    ensures Ids(entry.value[..]) == Reach(log, caller)
  {
    HeldIsIterated(log, caller);
    SameIdsEveryTime(LastFetch(log, caller).value.list, Sends(log, caller));
  }

  /** What one scoped query adds to the log: a fetch unless the cache hits, and what a wildcard query is sent. */
  function Trail(c: Context, hit: bool, asked: seq<string>, filter: Option<TenantFilter>, now: int,
                 swept: int, later: int): seq<Event>
    requires c.caller.Some?
  {
    var caller := c.caller.value;
    (if hit then [] else [Fetched(caller, Accessible(caller, c.children, c.childCaps), now, swept, later)])
    + (if asked == ["*"] && filter.Some? then [Sent(caller, filter.value.partitionIds, now)] else [])
  }

  /** A hit leaves the cache alone; a miss renews the caller's entry, and whoever else is still cached keeps its own. */
  ghost predicate CacheKept(hit: bool, before: map<Caller, Timed<Slice>>, after: map<Caller, Timed<Slice>>,
                            caller: Caller, expiry: int) {
    if hit then after == before
    else && caller in after && after[caller].expiresAt == expiry
         && forall k :: k in after && k != caller ==> k in before && after[k] == before[k]
  }

  /** Other callers' reach is not affected by a query. */
  lemma TrailKeepsOthers(log: seq<Event>, c: Context, hit: bool, asked: seq<string>, filter: Option<TenantFilter>,
                         now: int, swept: int, later: int, other: Caller)
    requires c.caller.Some?
    ensures other != c.caller.value || hit ==>
              Reach(log + Trail(c, hit, asked, filter, now, swept, later), other) == Reach(log, other)
    ensures other == c.caller.value && !hit ==>
              Reach(log + Trail(c, hit, asked, filter, now, swept, later), other)
              == Ids(Accessible(other, c.children, c.childCaps))
  {
    hide Accessible, Held;
    var trail := Trail(c, hit, asked, filter, now, swept, later);
    if |trail| == 1 {
      LogStep(log, trail[0]);
      assert log + trail == log + [trail[0]];
    } else if |trail| == 2 {
      LogStep(log, trail[0]);
      LogStep(log + [trail[0]], trail[1]);
      assert log + trail == (log + [trail[0]]) + [trail[1]];
    } else {
      assert log + trail == log;
    }
  }

  /** What a scoped filter holds: no empty id, nothing out of reach, and all of the reach for a wildcard. */
  ghost predicate Delivered(f: TenantFilter, caller: Caller, asked: seq<string>, reach: set<string>) {
    && f.scoped && f.tenantId == caller.tenant
    && "" !in f.partitionIds
    && (asked == [] ==> f.partitionIds == NonEmpty([caller.partition]))
    && (asked == ["*"] ==> forall id :: id in f.partitionIds <==> id in reach)
    && (asked != [] && asked != ["*"] ==>
          f.partitionIds == NonEmpty(asked) && forall id :: id in f.partitionIds ==> id in reach)
  }

  /** Delivered or refused; a list without empty ids is refused exactly when it exceeds the reach. */
  ghost predicate Answers(r: Result<TenantFilter, Error>, caller: Caller, asked: seq<string>, reach: set<string>) {
    && (r.Ok? ==> Delivered(r.value, caller, asked, reach))
    && (asked == [] || asked == ["*"] ==> r.Ok?)
    && ("" !in asked && asked != ["*"] ==> (r.Ok? <==> forall id :: id in asked ==> id in reach))
    && (r.Err? ==> r.error.NotAccessible? && r.error.id in asked && (r.error.id == "" || r.error.id !in reach))
  }

  /** Asking for nothing stands for the caller's own partition, "*" for all within reach, a list for itself. */
  lemma AnswersSpelledOut(r: Result<TenantFilter, Error>, caller: Caller, asked: seq<string>, reach: set<string>)
    requires Answers(r, caller, asked, reach)
    ensures r.Ok? ==> Delivered(r.value, caller, asked, reach)
    ensures asked == [] ==>
              r == Ok(TenantFilter(caller.tenant, if caller.partition == "" then [] else [caller.partition], true))
    ensures asked == ["*"] ==>
              && r.Ok? && r.value.scoped && r.value.tenantId == caller.tenant && "" !in r.value.partitionIds
              && forall id :: id in r.value.partitionIds <==> id in reach
    ensures asked != [] && asked != ["*"] && r.Ok? ==>
              && r.value.scoped && r.value.tenantId == caller.tenant && "" !in r.value.partitionIds
              && (forall id :: id in r.value.partitionIds <==> id in asked && id != "")
              && (forall id :: id in asked && id != "" ==> id in reach)
    ensures asked != [] && asked != ["*"] && "" !in asked && (forall id :: id in asked ==> id in reach) ==> r.Ok?
    ensures r.Err? ==> exists id :: id in asked && r == Err(NotAccessible(id)) && (id == "" || id !in reach)
  {
    var own := [caller.partition];
    assert own[1..] == [] && NonEmpty([]) == [];
    assert NonEmpty(own) == if caller.partition != "" then own else [];
    NonEmptySpec(asked);
  }

  /** What the two bookkeeping predicates of a scoped query say: the cache moves only on a miss, and only so far. */
  lemma BookkeepingSpelledOut(c: Context, hit: bool, before: map<Caller, Timed<Slice>>,
                              after: map<Caller, Timed<Slice>>, expiry: int, asked: seq<string>,
                              filter: Option<TenantFilter>, now: int, swept: int, later: int)
    requires c.caller.Some? && CacheKept(hit, before, after, c.caller.value, expiry)
    ensures hit ==> after == before
    ensures !hit ==> c.caller.value in after && after[c.caller.value].expiresAt == expiry
    ensures forall k :: k in after && k != c.caller.value ==> k in before && after[k] == before[k]
    ensures hit && asked != ["*"] ==> Trail(c, hit, asked, filter, now, swept, later) == []
    ensures asked == ["*"] && filter.Some? ==>
              Sent(c.caller.value, filter.value.partitionIds, now) in Trail(c, hit, asked, filter, now, swept, later)
  {
  }

  /**
   * Compaction and the response cache together: repeating a wildcard query asks for the same cache key
   * exactly when the cached list had no empty id ahead of a non-empty one.
   */
  lemma WildcardKeyRepeatsExactly(request: Request, q: MetricQuery, tenant: string, list: seq<string>, tr: TimeRange)
    ensures var first := TenantFilter(tenant, NonEmpty(list), true);
            var second := TenantFilter(tenant, NonEmpty(Compacted(list)), true);
            BuildCacheKey(request, q, first, tr) == BuildCacheKey(request, q, second, tr) <==> EmptiesLast(list)
  {
    var first, second := NonEmpty(list), NonEmpty(Compacted(list));
    KeyExact(request, q, TenantFilter(tenant, first, true), tr, request, q, TenantFilter(tenant, second, true), tr);
    SameListExactly(list);
    assert |multiset(first)| == |first| && |multiset(second)| == |second|;
  }

  /**
   * A caller whose token names no partition, with one child it may read: the second wildcard query is sent that
   * child twice, and is looked up under another key than the first.
   */
  lemma EmptyOwnPartitionRepeatsChild(request: Request, q: MetricQuery, tr: TimeRange, subject: string, tenant: string,
                                      caps: ChildCaps)
    requires caps("c").Some? && GrantsAnalytics(caps("c").value)
    ensures var list := Accessible(Caller(subject, tenant, ""), Some(["c"]), caps);
            && list == ["", "c"]
            && NonEmpty(list) == ["c"] && NonEmpty(Compacted(list)) == ["c", "c"]
            && BuildCacheKey(request, q, TenantFilter(tenant, ["c"], true), tr)
               != BuildCacheKey(request, q, TenantFilter(tenant, ["c", "c"], true), tr)
  {
  }
}
