# Verified model of the thesa backend-for-frontend

The service sits between a user interface and a set of backends. Five of its components carry logic whose
correctness is not visible in any one function, and those are modelled here.

* **Tenant-scoped analytics queries.** A recursive metric query is checked against an allowlist, stripped of
  tenancy filters, given a tenant and partition scope, and printed as PromQL. `PromLex`, `PartitionRegex` and
  `PromQL` give an independent reading of such text (lexer, regular-expression fragment, parser, evaluator over a
  store of labelled series); `Compiler` is the printer; `QueryMeaning` and `TenantScope` prove that what is
  printed reads back as intended and never looks outside the scope, `QueryValues` says for each kind of query what
  the text evaluates to, `AllowedNames` what the allowlist adds, and `EndToEnd` connects both to the scope the engine
  resolves. The evaluator is generic in what rate, increase, the aggregations and the arithmetic compute, so the
  isolation results hold for all of them; the parser makes PromQL's static checks on selectors and operand types, and
  is generic in the words a backend's grammar reserves and the characters its lexer refuses.
* **Caches.** `TtlMap` holds what the four caches share. `QueryCache` and `Engine` are the analytics response cache
  and the pipeline in front of it, `SharedAnswers` relates the cache key to the meaning of the text; `Partitions`,
  `PartitionRuns`, `PartitionCapacity` and `Compaction` are the partition resolver, whose cached slice is compacted in
  place by its readers while other callers take turns; `LookupCache` and `CapabilityCache` the other two. Each class
  is tied by its invariant to the history of events, and the theorems are about every history.
* **Federated search.** `FanIn` is the goroutine, wait group and channel protocol as a step relation; `Ranking`
  and `SearchPages` are scoring, deduplication, ranking and paging, up to the statement that the schedule cannot
  be seen in the scores of any page.
* **Capability checks and retries.** `KetoPolicy` is the chunked check with its fallback, `Retry` and `Backoff`
  the retry loop and its delays. Outside answers are functions of the call, so they may change between calls.
* **Command mapping.** `Expression` resolves source expressions, `Command` maps inputs to a backend body and
  translates error fields back.

`Text`, `CompositeKey`, `Capabilities` and `Wrappers` are shared. Strings are sequences of characters; Go's byte
order on valid UTF-8 is the code point order used here. Clocks are parameters, in nanoseconds.

## Findings

Properties that hold only under a condition, each with the exact condition proved, and places where a comment
in the code says more than the code does:

* The generated PromQL is malformed exactly when a compiled selector has an empty filter key, gives the metric name
  twice (a filter key that normalizes to `__name__` beside a metric), has nothing that must be non-empty (no metric,
  no scope, no non-empty filter), or when a metric or grouping label is a word the backend's grammar reserves, or a
  value holds a character its lexer refuses (`ScalarRoundTrip`, `RateRoundTrip`, `TopNRoundTrip`,
  `AcceptedExactly`). Each way has an example a client can send: `EmptyKeyMalformed`, `SecondNameMalformed`,
  `EmptySelectorMalformed`, `ReservedWordMalformed`, `UnreadableValueMalformed`.
* `prepare` is documented as covering every backend query (pkg/analytics/engine.go:248-250), and for instant and
  plain range queries the allowlist does bound what is read (`AllowlistIsolation`). The range builder, however,
  reads a name validation did not look at: the time series of a ratio names no metric and reads every series in
  scope (`RatioSeriesReadsEveryName`), so a filter on `__name__` picks any metric (`RateOfRatioReadsUncheckedName`).
  The exact condition is `RateReadsCheckedExactly`.
* Compacting the cached slice keeps the set of delivered ids but can repeat one, which changes the response-cache
  key; this happens exactly when an empty id precedes a non-empty one (`SameListExactly`,
  `WildcardKeyRepeatsExactly`), as for a token without a partition (`EmptyOwnPartitionRepeatsChild`).
* A full partition cache drops an arbitrary half, not the oldest one (pkg/analytics/partition_resolver.go:127-137);
  the model allows any choice. A caller is sent one set of ids until its list is fetched anew (`SentIsLastFetch`).
  For the whole time to live it is so in all runs of a set of callers exactly when they are fewer than the slots of
  the cache, or one alone; as many callers as slots suffice exactly as long as no list is fetched anew with the
  cache swept at the instant its predecessor expires, because a sweep keeps that entry and then drops live ones
  (`CapacityExactly`, `StoreKeepsExactly`).
* The minute-bucketed cache key does not fix the question: a window a nanosecond shorter can print as 59m instead of
  1h (`NanosecondChangesWindow`). Requests with one key ask texts that mean the same exactly when they are
  malformed, print no window, or print it alike (`SharedAnswerExactly`); the evaluation time, the end of the window,
  may also differ within its minute (`BucketWithinMinute`).
* A batch answer longer than its batch grants the capability of a check it was not asked about, or makes the service
  panic (`LongAnswerSpills`, `SurplusOrNoPanic`); the result stays within what is allowed exactly when every surplus
  result names a check whose capability is allowed anyway (`WithinPointwiseExactly`).
* Capability and partition-scoped lookup keys are unambiguous exactly when the identifiers contain no colon
  (`KeyUniqueExactly`, `KeySeparatesScopes`), search keys exactly when route and id contain no bar
  (`Ranking.KeyExact`).
* `LookupProvider.Invalidate` is documented as removing a specific entry (pkg/search/lookup.go:160) but matches ids
  as prefixes and a tenant's name anywhere in the key, even in the word lookup (`InvalidationMatchesExactly`):
  invalidating t1 drops the entries of t10 (`InvalidationReachesLongerTenants`). It drops exactly its own entries
  when no registered id extends the given one (`DropsLookupExactly`) or, with a tenant, no other key of such a
  lookup mentions it (`DropsTenantExactly`). Its cache is bounded only by the live entries (`FullLiveCacheGrows`).
* The schedule of the providers never shows in the scores, in the ranked list only when distinct results with the
  highest scores of their keys tie, and in the status map only when one provider id comes with two statuses
  (`SearchIndependentOfSchedule`); over all orders of arrival and admissible sorts these conditions are exact
  (`OneOutcomeExactly`, `StatusesIndependentExactly`).
* A page offset beyond 64 bits may wrap to an existing page or panic (`PaginateExact`).
* The maximum bounds all retry delays exactly when the initial backoff respects it, since the first delay is never
  clamped (`CappedExactly`), and for shrinking multipliers the early exit of the delay loop can differ from
  iterating (`EarlyBreakExact`).
* The reverse field map is right exactly for trimmed expressions (`ReversePathExact`).

## Model

| member | source | states |
|---|---|---|
| PromLex.SanitizeLabelNameSpec | pkg/analytics/prometheus.go:270-276 | A sanitized label name is an identifier unless empty; identifiers, and only they, are left alone; idempotent |
| PromLex.SanitizeMetricNameSpec | pkg/analytics/prometheus.go:281-287 | The same for metric names, which may contain colons |
| PromLex.SanitizedCharacters | pkg/analytics/prometheus.go:261-287 | Which characters stay, what the others become, and what is put in front of a leading digit, position by position |
| PromLex.UnquoteEscape | pkg/analytics/prometheus.go:291-294 | Reading an escaped value back from inside a double-quoted literal gives the value and stops at the closing quote, whatever it contains |
| PromLex.EscapedCharacters | pkg/analytics/prometheus.go:291-294 | Backslash, quote and line feed are escaped one at a time, everything else is printed as it is |
| PromLex.LexStr | pkg/analytics/prometheus.go:225-247 | A quoted escaped value is one string token and leaks nothing into the text after it |
| PartitionRegex.PartitionRegexExact | pkg/analytics/prometheus.go:228-234 | The quoted, joined expression, read as a regular expression anchored at both ends, accepts a string exactly when it is one of the ids |
| PartitionRegex.QuotedCharacters | pkg/analytics/prometheus.go:230-232 | The fourteen special characters get a backslash, one at a time, the others do not |
| PartitionRegex.RawJoinIsTooWide | pkg/analytics/prometheus.go:230-232 | Without quoting the same join accepts a string that is not an id |
| Query.ValidateExact | pkg/analytics/allowlist.go:58-80 | A query passes exactly when every metric name an instant query of it reads, at any ratio depth, is present and allowed; a rejection blames a name that is not |
| Query.FirstNameBlamed | pkg/analytics/allowlist.go:58-80 | In the order numerator, denominator, and duration metric before its count, the first name that is missing or not allowed is blamed |
| Query.SanitizeReachesEveryDepth | pkg/analytics/engine.go:287-312 | After sanitizing no filter at any depth normalizes to a tenancy label, and exactly the queries without such filters are unchanged |
| Query.SanitizeIdempotent | pkg/analytics/engine.go:287-312 | Sanitizing twice is sanitizing once |
| Compiler.BuildLabelMatchers | pkg/analytics/prometheus.go:221-251 | The loops over partitions and over the filter map, in any map order, produce the text of the scope matchers followed by the filters in sorted key order |
| Compiler.BuildFilterParts | pkg/analytics/prometheus.go:237-248 | One matcher text per non-reserved key, in ascending key order, independent of map order |
| Text.LexExactly | pkg/analytics/prometheus.go:241 | The key order is decided at the first difference, a proper prefix coming first |
| QueryMeaning.LabelMatchersRoundTrip | pkg/analytics/prometheus.go:213-251 | Parsing the printed matchers gives back exactly the tenant, partition and filter matchers with unescaped values; it fails exactly when some filter key is empty or some value unreadable |
| QueryMeaning.PrintableExactly | pkg/analytics/prometheus.go:224-248 | Every compiled matcher has a name and a readable value, the quoted and joined partitions included, exactly when no key is empty and tenant, partitions and filter values are readable |
| QueryMeaning.LegalExactly | pkg/analytics/prometheus.go:213-287 | A compiled selector passes PromQL's static checks exactly when no filter key is empty, every value is readable, and either the metric is not reserved and no key normalizes to `__name__`, or there is no metric and the scope or a filter asks for something non-empty |
| QueryMeaning.ScalarReads | pkg/analytics/prometheus.go:134-196 | In any context a compiled query text parses as one expression, its own tree, leaving the context untouched, or is rejected exactly when it is not well formed |
| TenantScope.ScalarRoundTrip | pkg/analytics/prometheus.go:133-196 | The instant query text parses, with operator precedence and type checks, to the intended tree at every ratio depth, an instant vector; it is malformed exactly when a leaf has an illegal selector or a reserved grouping label |
| TenantScope.RateRoundTrip | pkg/analytics/prometheus.go:198-211 | The range query text parses to its tree, and is malformed exactly when its one selector is illegal |
| TenantScope.TopNRoundTrip | pkg/analytics/prometheus.go:90-94 | The same as for instant queries for the topk wrapper around a grouped query |
| TenantScope.AcceptedExactly | pkg/analytics/prometheus.go:35-112 | Over the four request kinds, which queries give well-formed text |
| QueryValues.GaugeValue | pkg/analytics/prometheus.go:161-166 | A well-formed gauge evaluates to the sum, over its label if any, of the samples of the series it is about |
| QueryValues.CountValue | pkg/analytics/prometheus.go:167-172 | A count to the sum of the increases over the window |
| QueryValues.SumValue | pkg/analytics/prometheus.go:173-178 | A sum likewise |
| QueryValues.AvgValue | pkg/analytics/prometheus.go:179-184 | An average to the average of the increases |
| QueryValues.CountDistinctValue | pkg/analytics/prometheus.go:185-190 | A distinct count to the number of groups, or of series when ungrouped |
| QueryValues.OtherValue | pkg/analytics/prometheus.go:191-193 | Any other aggregation to the ungrouped sum of the increases |
| QueryValues.DurationValue | pkg/analytics/prometheus.go:143-153 | A duration to the rate of its metric over the rate of its count, times the multiplier, for which 0 stands for 1 |
| QueryValues.RatioValue | pkg/analytics/prometheus.go:137-141 | A ratio to a hundred times the value of the numerator's text over that of the denominator's, and to nothing when either has none |
| QueryValues.RangeValue | pkg/analytics/prometheus.go:200-211 | A range query to the sum of the samples of a gauge, or of the increases over a step |
| QueryValues.GroupedValue | pkg/analytics/prometheus.go:67-70 | A grouped request to the instant query with the requested label in place of the query's own |
| QueryValues.TopNValue | pkg/analytics/prometheus.go:90-94 | A top-n request to topk, with the decimal limit, of the grouped one |
| QueryValues.RatioRequestValue | pkg/analytics/query.go:116-124 | A request with both parts asks for the first over the second, in this order |
| QueryValues.PlainRequestKept | pkg/analytics/query.go:125-130 | Any other request keeps its metric, aggregation, filters and grouping, and is never a duration |
| TenantScope.EmptyKeyMalformed | pkg/analytics/prometheus.go:242-248 | A filter with an empty key makes a matcher without a name |
| TenantScope.SecondNameMalformed | pkg/analytics/prometheus.go:242-248 | A filter on `__name__` beside a metric is rejected |
| TenantScope.EmptySelectorMalformed | pkg/analytics/query.go:116-124 | The unscoped, unfiltered time series of a ratio request has an empty selector |
| TenantScope.ReservedWordMalformed | pkg/analytics/prometheus.go:270-287 | A metric or grouping label that the backend reserves is printed as it is and rejected |
| TenantScope.UnreadableValueMalformed | pkg/analytics/prometheus.go:291-294 | A filter value with a character the backend's lexer refuses is printed as it is and rejected |
| TenantScope.PartitionMatchersExact | pkg/analytics/prometheus.go:226-234 | With no, one or many ids the generated matcher keeps exactly the series of the listed partitions; the equality and regular-expression forms agree |
| TenantScope.SelectionExact | pkg/analytics/prometheus.go:213-251 | A selector keeps exactly the series that are in scope and meet every client filter that is not on a tenancy label |
| TenantScope.EveryTextConfined | pkg/analytics/prometheus.go:134-251 | Every selector in the parsed text of each of the four query kinds carries the scope matchers |
| TenantScope.TenantIsolation | pkg/analytics/prometheus.go:134-251 | Scalar, grouped, top-N and range texts evaluate equally on any two stores that agree on the series of the filter's tenant and partitions |
| EndToEnd.DeliveredScopeExact | pkg/analytics/engine.go:361-399 | The filter the engine delivers keeps exactly the series of the caller's tenant in the partitions the request stands for, and of the whole tenant only when it stands for none |
| EndToEnd.CallerIsolation | pkg/analytics/engine.go:248-263 | Whatever is asked for a scoped caller answers the same on any two stores that agree on those series |
| EndToEnd.CallerReadsAllowed | pkg/analytics/engine.go:248-263 | For instant and plain range queries it depends on nothing but those series that also bear an allowed name |
| TenantScope.CleanFiltersSameMatchers | pkg/analytics/prometheus.go:242-248 | The matchers skipped while compiling are exactly those whose filters the sanitizer removes beforehand |
| TenantScope.SanitizeSameText | pkg/analytics/engine.go:287-312 | Sanitizing first never changes the generated text |
| PromQL.EvalDependsOnReads | pkg/analytics/prometheus.go:213-251 | The value of an expression is the same on any two stores that agree on the series one of its selectors picks |
| PromQL.EchoShowsReads | pkg/analytics/prometheus.go:213-251 | That set is exact: for some operators the value is the set of series read |
| AllowedNames.OnlyAllowedNamesCompiled | pkg/analytics/engine.go:251-263 | Every metric name in a validated instant query's text is the sanitized form of a non-empty allowed name |
| AllowedNames.AllowlistIsolation | pkg/analytics/engine.go:248-263 | A validated instant or plain range query answers the same on any two stores that agree on the in-scope series bearing an allowed name |
| AllowedNames.RateNameCheckedExactly | pkg/analytics/prometheus.go:200-211 | Validation guarantees the name a range query prints exactly when that name is among those it checked |
| AllowedNames.PlainRateNameChecked | pkg/analytics/prometheus.go:200-211 | For queries that are neither ratio nor duration it always does |
| AllowedNames.RateReadsCheckedExactly | pkg/analytics/prometheus.go:200-211 | For every query, scope and step: validation confines a range query to allowed names exactly when validation cannot pass, the text is malformed, the filters contradict each other, or the metric, else a filter on `__name__`, is the stored form of a name that was checked |
| AllowedNames.RatioSeriesReadsEveryName | pkg/analytics/query.go:116-124 | The time series of a ratio request for a tenant reads exactly the in-scope series meeting the request's own filters, whatever their metric, unless a key is empty or a value unreadable |
| AllowedNames.RateOfRatioReadsUncheckedName | pkg/analytics/engine.go:173-187 | A ratio request that passes validation and whose time series reads a metric outside the allowlist through a filter on `__name__` |
| TenantScope.FormatDurationRoundsDown | pkg/analytics/prometheus.go:297-310 | The printed window is the largest whole number of days from a day on, of hours from an hour on, else of minutes, within the duration, and one minute below a minute |
| Capabilities.GrantsAnalyticsExact | model/capability.go:10-60 | Wildcards included, a child qualifies exactly when it grants everything or any one analytics capability |
| Capabilities.HasExactly | model/capability.go:15-67 | A capability is held literally, under "*", or under one of its own colon-ended prefixes followed by "*" |
| Compaction.CompactInPlace | pkg/analytics/engine.go:386-393 | The in-place loop returns the non-empty ids in order and leaves the rest of the backing array as it was |
| Compaction.SameIdsEveryTime | pkg/analytics/engine.go:361-399 | However often a cached slice is compacted, the same ids are delivered, none of them empty |
| Compaction.DeliveredListUndisturbed | pkg/analytics/engine.go:386-399 | A list delivered earlier shares the array and is not altered by later compactions |
| Compaction.SameListExactly | pkg/analytics/engine.go:386-399 | The next delivery is the same list exactly when no empty id preceded a non-empty one |
| Partitions.GrantedExact | pkg/analytics/partition_resolver.go:87-104 | A child is listed exactly when its capabilities resolve and grant analytics |
| Partitions.ListAccessible | pkg/analytics/partition_resolver.go:74-108 | Own partition first, then the granted children in order; only the own partition when listing fails |
| Partitions.AccessibleExact | pkg/analytics/partition_resolver.go:74-108 | Own partition first, qualifying children in listed order, and own alone without children or when listing fails |
| Partitions.StoredWithinCapacity | pkg/analytics/partition_resolver.go:115-144 | For every positive capacity an insertion stays within it, keeps the new entry, and drops a live entry only when all slots are live |
| Partitions.StoredDropsHalf | pkg/analytics/partition_resolver.go:127-137 | A full cache of live entries gives up half of its capacity, and at least one entry |
| Partitions.DropHalf | pkg/analytics/partition_resolver.go:127-137 | Any iteration order deletes half the capacity, and one entry when half is zero |
| Partitions.PartitionResolver.ResolveAccessible | pkg/analytics/partition_resolver.go:61-108 | Before its expiry the cached slice itself is returned and nothing changes; from its expiry on, a fresh list is logged, returned and cached for the ttl, and every other caller still cached keeps its entry |
| Partitions.PartitionResolver.CacheResult | pkg/analytics/partition_resolver.go:115-144 | Keeps the invariant that log and caches are a run of insertions and deliveries, that every cached slice is what that run says, unshared, and that the cache is within capacity |
| PartitionRuns.SentIsLastFetch | pkg/analytics/engine.go:361-399 | In every run, however callers interleave, a wildcard query is sent exactly the non-empty ids of its caller's last fetch |
| PartitionRuns.SentIsFresh | pkg/analytics/partition_resolver.go:67-72 | In every run a list is sent only before its fetch has expired, or for the very query it was fetched for |
| PartitionRuns.SameSetWithinTTL | pkg/analytics/partition_resolver.go:61-144 | In every run whose insertions are safe, however callers interleave, each wildcard query within the ttl of a fetch of its caller is sent that fetch's ids |
| PartitionRuns.SentListsStay | pkg/analytics/engine.go:386-399 | A list already sent stays at the front of the shared array, whatever any caller asks until the next fetch, and later lists extend it |
| PartitionRuns.StoreKeepsExactly | pkg/analytics/partition_resolver.go:115-144 | Over all caches: whatever is evicted, every other entry that can still answer is kept, exactly when the sweep leaves a free slot or there is no such entry |
| PartitionCapacity.UnsafeFetchBreaks | pkg/analytics/partition_resolver.go:127-143 | After any run, a fetch stored unsafely can be continued so that another caller is sent other ids within its ttl |
| PartitionCapacity.CapacityExactly | pkg/analytics/partition_resolver.go:61-144 | For every set of callers, capacity and ttl: all their runs are sent one set of ids per fetch within its ttl exactly when they are fewer than the slots or one alone; without sweeps at an expiry instant, exactly when they are no more than the slots |
| QueryCache.KeyExact | pkg/analytics/cache.go:87-113 | Two requests share a key exactly when kind, extras, query, tenant, scope up to partition order and the minutes of start and end agree |
| QueryCache.BucketWithinMinute | pkg/analytics/cache.go:100-101 | Times in one bucket are less than a minute apart and buckets start at or before their times |
| TtlMap.PutIfRoomKeepsOthers | pkg/analytics/cache.go:55-71 | An insertion never evicts another key's live entry, never changes other entries, stays bounded, and succeeds whenever a slot is not live |
| TtlMap.FullCacheIsSwept | pkg/analytics/cache.go:58-64 | A full cache gives up everything that has expired |
| TtlMap.ReplayFaithful | pkg/analytics/cache.go:55-71 | Over every history of insertions the cache is bounded and each entry was inserted ttl before its expiry |
| TtlMap.EvictExpired | pkg/search/lookup.go:150-158 | The deletion loop keeps exactly the live entries in any iteration order |
| QueryCache.ResponseCache.PutAnswer | pkg/analytics/cache.go:55-71 | The map always equals the replay of all insertions so far |
| QueryCache.ServedAnswerFaithful | pkg/analytics/engine.go:152-246 | A served answer was given by the backend at most ttl earlier for the same kind, query, scope, minutes and extras, and has that kind's type |
| QueryCache.StoredAnswerServed | pkg/analytics/cache.go:45-71 | An answer that found room is served for its whole time to live, last instant included, whatever other entries are stored |
| SharedAnswers.SharedAnswerRight | pkg/analytics/cache.go:87-113 | Requests with one key whose windows print alike, or are not printed, get the same value on every store from any operators, with the partitions in any order |
| SharedAnswers.SharedAnswerExactly | pkg/analytics/cache.go:95-103 | Requests with one key have texts that evaluate alike always exactly when they are malformed, print no window, or print it alike |
| SharedAnswers.NanosecondChangesWindow | pkg/analytics/cache.go:100-101 | Two windows with one key, one printed as 1h and one as 59m |
| Engine.AnalyticsEngine.CompactShared | pkg/analytics/engine.go:368-393 | Compacting the slice held in the resolver's cache logs the list sent, and keeps every other cached slice and the resolver's invariant |
| Engine.AnalyticsEngine.SelectPartitions | pkg/analytics/engine.go:361-399 | None, all or listed partitions: what is delivered has no empty id and lies within the caller's reach; a list without empty ids is refused exactly when it exceeds the reach |
| Engine.GlobalViewExact | pkg/analytics/engine.go:336-340 | Exactly four capabilities allow a query without tenant scope |
| Engine.AnswersSpelledOut | pkg/analytics/engine.go:361-399 | What each of the three ways of asking delivers or refuses, in terms of the caller's own partition, the ids asked for and those within reach |
| Engine.AnalyticsEngine.ResolveFilter | pkg/analytics/engine.go:321-400 | Without a tenant a query is refused, or delivered unscoped for one of four capabilities, and touches nothing; with one it appends exactly its fetch and its sent list to the log, leaves the cache alone before expiry, else renews the caller's entry and keeps those of the others still cached, and delivers own, all or listed partitions |
| Engine.TrailKeepsOthers | pkg/analytics/engine.go:356-399 | A query never changes another caller's reach, nor its own caller's on a hit; a miss sets it to what is accessible now |
| Engine.AnalyticsEngine.Serve | pkg/analytics/engine.go:158-170 | A fresh cached answer is returned without a backend call and always has the right type; otherwise the backend's answer is returned, and cached only on success |
| Engine.AnalyticsEngine.Run | pkg/analytics/engine.go:248-263 | Nothing is returned, cached or asked of the backend without passing allowlist, sanitizer and scope; without a tenant it runs unscoped for four capabilities only; the answer has the type of the request; its effect on the resolver is that of scope resolution alone |
| Engine.WildcardKeyRepeatsExactly | pkg/analytics/engine.go:386-399 | A repeated wildcard query has the same cache key exactly when no empty id precedes a non-empty one in the cached list |
| Engine.EmptyOwnPartitionRepeatsChild | pkg/analytics/partition_resolver.go:74-108 | A caller without a partition and with one readable child is sent that child once and then twice, under different cache keys |
| FanIn.StepKeepsInv | pkg/search/provider.go:141-173 | Every step of spawners, senders, closer and collector keeps the protocol invariant |
| FanIn.ChannelIsFifo | pkg/search/provider.go:151-172 | What is collected is what was sent, in the order it was sent |
| FanIn.NoSendBlocks | pkg/search/provider.go:151-160 | A goroutine at its send finds the channel open and with room |
| FanIn.NoDeadlock | pkg/search/provider.go:151-172 | Until the collector ends some step is possible |
| FanIn.RunCountsDown | pkg/search/provider.go:141-173 | Every interleaving keeps the invariant and ends after exactly 4n+3 steps, and not before |
| FanIn.CollectsEveryResult | pkg/search/provider.go:168-172 | When the drain loop ends, every provider's result has been collected exactly once |
| Ranking.ScoreBounds | pkg/search/provider.go:265-278 | Scores of a provider of weight w lie above w/2 and at most at w |
| Ranking.ScoresDecrease | pkg/search/provider.go:270-278 | Scores strictly decrease along a provider's list |
| Ranking.ScoreSteps | pkg/search/provider.go:265-278 | The first item scores the weight, 1 if that is not positive, and scores fall by the weight over twice the count from item to item |
| Ranking.MapResultsKeepsItems | pkg/search/provider.go:260-293 | The front of the given list in its order, with only the scores filled in |
| Ranking.Deduplicate | pkg/search/provider.go:315-336 | The loop with its key-to-index map computes the fold of single-result updates |
| Ranking.DedupeSpec | pkg/search/provider.go:313-336 | One entry per key, carrying that key's maximum score, and no key lost |
| Ranking.FirstBestKept | pkg/search/provider.go:323-334 | What is kept for a key is the earliest of its results with the highest score, unchanged |
| Ranking.KeyExact | pkg/search/provider.go:324 | The key stands for one route and id exactly when neither contains a bar |
| Ranking.DedupeOrderIndependent | pkg/search/provider.go:313-336 | Key-to-score table, count and scores do not depend on the order results arrived in |
| Ranking.RankedScoresIndependent | pkg/search/provider.go:103-111 | Nor do the ranked scores, however ties are broken |
| Ranking.OneOutcomeExactly | pkg/search/provider.go:103-111 | Every order of arrival and every admissible sort end in the same list exactly when no two distinct results tie that have the highest score of their keys |
| Ranking.BackendOrderKept | pkg/search/provider.go:106-109 | Surviving results of one provider stay in backend order under any admissible sort |
| Ranking.HeavierProviderFirst | pkg/search/provider.go:265-278 | A provider of at least twice the weight ranks entirely before the other |
| SearchPages.PaginateExact | pkg/search/provider.go:113-123 | In 64-bit arithmetic the right page is served exactly when the offset fits or wraps past the end |
| SearchPages.PageServed | pkg/search/provider.go:67-76 | Pages and sizes in range are served as asked; a size not positive stands for 20, one above 50 for 50, a page not positive for the first |
| SearchPages.ServedPagesJoin | pkg/search/provider.go:113-123 | The served pages 1 to n join to the first n times size results, and to the whole list in the end |
| SearchPages.Wrap64Spec | pkg/search/provider.go:114 | 64-bit wrap-around: in range, and off by a multiple of 2^64 |
| SearchPages.WrappedPageRepeatsTheFirst | pkg/search/provider.go:113-123 | A page number whose offset wraps to zero shows the first page |
| SearchPages.PagesConcatenate | pkg/search/provider.go:113-123 | Pages 1 to n are the first n times size results, each at most size long, empty past the end |
| SearchPages.MergeOrderIndependent | pkg/search/provider.go:95-101 | Merging permuted provider results merges the same results |
| SearchPages.MergeAll | pkg/search/provider.go:95-101 | Appends all results in collection order and records for each provider the status collected last |
| SearchPages.MergeAppends | pkg/search/provider.go:98-101 | Results keep their provider's order, after those of the providers collected before |
| SearchPages.StatusesIndependentExactly | pkg/search/provider.go:97-99 | The status map is the same for every order of arrival exactly when no provider id comes with two statuses |
| SearchPages.SearchIndependentOfSchedule | pkg/search/provider.go:91-123 | Any two complete schedules give the same total and the same scores at every position of every page; the same pages when no contending results tie; the same status map when ids have one status |
| KetoPolicy.ResolveCapabilities | pkg/capability/keto_policy.go:50-120 | Batches are consecutive chunks of 1 to 10; from the first failing one on every index is checked individually once; with an authorizer that answers truly, granted are exactly the capabilities of the checks whose own namespace and permission it allows the subject on the tenancy path; whatever the lengths of the answers, panic included, the result is what they grant |
| KetoPolicy.ResolvedOnChecks | pkg/capability/keto_policy.go:58-120 | The same for every such authorizer, whichever batches fail |
| KetoPolicy.CollectedIsGranted | pkg/capability/keto_policy.go:82-120 | When no answered batch grants a position past its requests, that is exactly what each check's own answer grants |
| KetoPolicy.CollectedMembers | pkg/capability/keto_policy.go:82-120 | Whatever the lengths of the answers, granted are exactly the capabilities of granted checks and of the checks surplus results name |
| KetoPolicy.PanicsExactly | pkg/capability/keto_policy.go:105-109 | It panics exactly when an answer before the first failing batch grants a position past the last check |
| KetoPolicy.SurplusOrNoPanic | pkg/capability/keto_policy.go:105-109 | The same in terms of surplus results past the last check |
| KetoPolicy.LongAnswerSpills | pkg/capability/keto_policy.go:105-109 | Every surplus result of every batch grants the capability of the check its position names |
| KetoPolicy.FallbackIndividualChecks | pkg/capability/keto_policy.go:122-144 | Checks each remaining index once, in order; an error only skips that check |
| KetoPolicy.ChunkedEqualsPointwise | pkg/capability/keto_policy.go:82-144 | Whichever chunk fails first and however short the answers, the result is within the pointwise answer and equals it exactly when every allowed capability had an answered check |
| KetoPolicy.WithinPointwiseExactly | pkg/capability/keto_policy.go:82-144 | With right answers to the questions asked, the result stays within the pointwise answer and does not panic exactly when every surplus result names a check whose capability is allowed anyway |
| KetoPolicy.PermissionRoundTrip | pkg/capability/keto_policy.go:146-158 | Capability and permission names convert back exactly when the capability has no underscore |
| Retry.ExecuteWithRetry | pkg/invoker/openapi.go:99-158 | The outcome of the last call made is returned, all earlier calls were transient, the final fall-through without an error is unreachable, and the time waited is the sum of the delays |
| Retry.RetryOutcome | pkg/invoker/openapi.go:107-158 | At most max(1, MaxAttempts) calls, one when retrying is disallowed, which covers every method the standard does not call idempotent, and a stop only for a reason |
| Retry.CalledAgainExactly | pkg/invoker/openapi.go:113-149 | Uncancelled, another call follows exactly when the last failed in transport or with 500, 502, 503 or 504, the method may be repeated and attempts are left |
| Retry.WaitsBetweenCalls | pkg/invoker/openapi.go:118-126 | Nothing is waited before the first call and the delay of its attempt before each further one |
| Retry.RunUnique | pkg/invoker/openapi.go:118-157 | The answers determine the number of calls and the result |
| Retry.IdempotentMethodsExact | pkg/invoker/openapi.go:284-291 | Every method retried is idempotent by section 9.2.2 of RFC 9110, and of the standard's methods only TRACE is missing |
| Backoff.CalculateBackoff | pkg/invoker/openapi.go:335-355 | The loop computes the early-break recursion on the defaulted configuration |
| Backoff.DelayBounds | pkg/invoker/openapi.go:335-355 | Delays are within the larger limit, and within the maximum from the second retry on |
| Backoff.FirstDelays | pkg/invoker/openapi.go:335-355 | The first two delays in full, with defaults of 100 ms, 2 and 2 s |
| Backoff.CappedExactly | pkg/invoker/openapi.go:335-355 | The maximum bounds the delays of all attempts exactly when the initial backoff is within it |
| Backoff.EarlyBreakExact | pkg/invoker/openapi.go:347-353 | The early exit equals multiply-and-clamp for all attempts exactly when the multiplier is at least one or the first product is within the maximum |
| Backoff.DelaysNonDecreasing | pkg/invoker/openapi.go:346-354 | With a multiplier of at least one and an initial delay within the maximum, delays never shrink |
| Backoff.TotalDelayBound | pkg/invoker/openapi.go:118-126 | Total waiting is at most attempts minus one times the larger limit |
| CompositeKey.KeyUniqueExactly | pkg/capability/resolver.go:35-37 | A joined key has one reading as three identifiers exactly when none contains a colon |
| CompositeKey.PrefixExact | pkg/capability/resolver.go:64-72 | A subject-and-tenant prefix matches a colon-free key exactly when they are its first two parts |
| CapabilityCache.InvalidationExact | pkg/capability/resolver.go:63-73 | An invalidation drops exactly the entries of its subject and tenant, for colon-free identifiers |
| CapabilityCache.CacheHoldsLatestAnswer | pkg/capability/resolver.go:39-73 | Over every history the cache holds exactly the evaluator's last answer for a triple, and nothing once invalidated since |
| CapabilityCache.Resolver.Resolve | pkg/capability/resolver.go:41-61 | Returns the last answer for the triple if it is younger than the ttl and not invalidated since, and the evaluator's answer otherwise; errors are not cached |
| CapabilityCache.Resolver.Invalidate | pkg/capability/resolver.go:64-73 | The deletion loop is the invalidation event, in any iteration order |
| CapabilityCache.ColonsShareAnEntry | pkg/capability/resolver.go:35-37 | With colons two different callers share an entry |
| LookupCache.KeySeparatesScopes | pkg/search/lookup.go:106-120 | With colon-free ids keys of different lookups differ, and scopes of one lookup are separated exactly unless partition-scoped for a name with a colon |
| LookupCache.FilterExact | pkg/search/lookup.go:247-260 | Filtering keeps exactly the options whose lowered label contains the lowered query, and everything for an empty query |
| LookupCache.ContainsExactly | pkg/search/lookup.go:255 | The substring test holds exactly when the text is something, the query, something |
| LookupCache.ApplyFilter | pkg/search/lookup.go:247-260 | The loop computes the filtered list in order |
| LookupCache.SoftCapacity | pkg/search/lookup.go:135-148 | After an insertion the size is within the capacity or the live entries plus one |
| LookupCache.FullLiveCacheGrows | pkg/search/lookup.go:135-148 | A full cache of live entries grows beyond its capacity |
| LookupCache.InvalidationReaches | pkg/search/lookup.go:161-173 | An invalidation reaches every scope of the lookup, or every tenant and partition entry of the named tenant |
| LookupCache.InvalidationMatchesExactly | pkg/search/lookup.go:161-173 | For colon-free names, over all keys: an invalidation hits a key exactly when its id starts with the given one and, if a tenant is named, its name occurs in the fixed word, the id, or a name of the scope |
| LookupCache.DropsLookupExactly | pkg/search/lookup.go:161-173 | Without a tenant exactly the lookup's entries are hit exactly when no registered id properly extends the given one |
| LookupCache.DropsTenantExactly | pkg/search/lookup.go:161-173 | With a tenant exactly its entries of the lookup are hit exactly when no other key of a lookup whose id starts alike mentions it |
| LookupCache.InvalidationReachesLongerTenants | pkg/search/lookup.go:168 | Entries of a tenant whose name contains the named one are dropped too, as those of t10 with t1 |
| LookupCache.HitsExactly | pkg/search/lookup.go:54-173 | Over every history a key hits exactly when its last fetch is within its ttl and not invalidated since, and serves that fetch's full options |
| LookupCache.AbsentUntilRefetched | pkg/search/lookup.go:160-173 | After an invalidation no matching scope hits again before its next fetch |
| LookupCache.LookupProvider.GetLookup | pkg/search/lookup.go:54-103 | Hit or miss, the answer is the filter of the unfiltered options for the scope; a miss stores them for the definition's ttl or the default; errors are not cached |
| LookupCache.LookupProvider.Invalidate | pkg/search/lookup.go:160-173 | The deletion loop is the invalidation event, in any iteration order |
| Expression.NavigatePath | pkg/command/expression.go:131-142 | The loop follows the dotted path, giving nil when it leaves the maps |
| Expression.NavigateByParts | pkg/command/expression.go:131-142 | The part before the first dot names an object, the rest a path in it; a part without dots names a field |
| Expression.IsNumericLiteral | pkg/command/expression.go:145-168 | True exactly for an optional sign and a non-empty run of digits with at most one dot |
| Expression.NumericShape | pkg/command/expression.go:145-168 | The literals taken as numbers are an optional sign and digits with at most one dot |
| Expression.ResolveReadsInput | pkg/command/expression.go:33-86 | Which expressions read the user input, at which path, and that no others depend on it |
| Expression.ContextField | pkg/command/expression.go:100-116 | The four context fields under their names, and no others |
| Expression.RouteParameter | pkg/command/expression.go:88-97 | A route parameter is given under its name |
| Expression.DataField | pkg/command/expression.go:76-128 | Input and workflow expressions give what is at their path in their own data; nothing there is an error |
| Expression.MissingSource | pkg/command/expression.go:76-128 | A missing source is an error whatever is asked of it |
| Expression.TrimIgnoresBlanks | pkg/command/expression.go:34 | Blanks around an expression do not matter |
| Expression.QuotedLiteral | pkg/command/expression.go:39-42 | A quoted literal resolves to the text between its quotes, whatever it contains |
| Expression.IntegerLiteral | pkg/command/expression.go:44-47 | The decimal text of any 64-bit integer resolves to that integer |
| Expression.IntegerRange | pkg/command/expression.go:179-183 | An integer that does not fit 64 bits is refused |
| Expression.FloatLiteral | pkg/command/expression.go:170-178 | A decimal literal is accepted exactly when its whole part is below 2^1024 - 2^970: always with at most 306 digits before the dot, never with 317 or more and no leading zero |
| Expression.SplitReadsBack | pkg/command/expression.go:132 | Splitting a path loses nothing and leaves no dot in a part |
| Command.ResolveAll | pkg/command/mapper.go:107-145 | In any iteration order mapping succeeds exactly when every expression resolves, with the same body; a failure names a field that does not |
| Command.ReverseFieldMap | pkg/command/mapper.go:147-165 | The loop builds the reverse map in any iteration order |
| Command.ReversePathExact | pkg/command/mapper.go:156-163 | For an expression that reads the input, the reverse path is the path it reads exactly when it is trimmed |
| Command.ReverseNamesSupplier | pkg/command/mapper.go:126-165 | The body has exactly the projected fields; each reversed field of a trimmed expression holds the input value at its reverse path, and the others do not depend on the input |
| Command.TranslateValidationErrors | pkg/command/executor.go:235-256 | Each error is translated on its own, in order |
| Command.CodeExactly | pkg/command/executor.go:242-273 | An error is coded as required exactly when it names a field and its message has the word in it, letters possibly off by 32 |
| Command.LocalErrorsNeverRenamed | pkg/command/executor.go:66-79 | In projection mode local errors are exactly the required fields outside the projection; they are never renamed, and are coded as required |
| Command.MissingRequiredExact | pkg/openapi/index.go:156-163 | One error for exactly the required fields the body lacks |
| Command.MissingInOrder | pkg/openapi/index.go:156-163 | The errors come in the order of the required fields |
| Command.RenameDetails | pkg/command/executor.go:206-214 | The in-place loop renames the field of each detail and changes nothing else |
| Command.BackendErrorNamesItsInput | pkg/command/executor.go:205-216 | A backend error on a projected input field is reported under the input path whose value was sent |

## Left out

- HTTP transport, middleware, handlers, configuration, metadata and definition loading: wiring, field copying and per-record checks.
- Backends, the authorizer, the evaluator and the lister: their answers are parameters.
- Regular expressions of the allowlist: an abstract set of names. The partition expression is read in a fragment with literals, escapes, `.`, `*`, `+`, `?` and alternation.
- PromQL beyond the generated fragment, and its numeric meaning: the operators are arbitrary functions of the selected series, and the evaluation time is not part of the text. Which words are reserved and which characters refused are parameters.
- The resolver that knows only the caller's own partition, and the lookup of operations and schemas in the OpenAPI index: the list of required fields is a parameter.
- JSON encoding, SHA-256 and `%q` quoting in cache keys: keys are the encoded values themselves.
- Floating-point rounding: scores and multipliers are reals, `%g` is any rendering as a number, `Hours` is exact.
- Overflow of a delay beyond 64 bits before it is clamped.
- Case folding: `strings.ToLower` is a parameter of the lookup filter.
- The two clock readings of one insertion, for the sweep and for the expiry, are told apart in the partition cache only.
- Concurrency other than the search fan-in: cache operations are sequential, and a response slice handed out by a cache is not modified by its receiver except by the analytics engine.
- Path, query and header parameters of a command, the body strategy's name, output mapping, error codes and the extraction of field errors from backend bodies: their formatting is library code or plain copying.
- The value of floating-point literals: they are kept as text; whether they parse is exact.
