// Resolution of the partitions a caller may read, cached per caller, with the
// cached slice shared by every answer.
module Partitions {
  import opened Wrappers
  import opened Capabilities
  import opened Compaction
  import opened TtlMap

  datatype Caller = Caller(subject: string, tenant: string, partition: string)

  /** What the capability resolver answers for a child partition; None when it fails. */
  type ChildCaps = string -> Option<CapabilitySet>

  function Granted(children: seq<string>, caps: ChildCaps): seq<string> {
    if children == [] then []
    else (if caps(children[0]).Some? && GrantsAnalytics(caps(children[0]).value) then [children[0]] else [])
         + Granted(children[1..], caps)
  }

  /** The caller's own partition, then the granted children; children None means listing them failed. */
  function Accessible(caller: Caller, children: Option<seq<string>>, caps: ChildCaps): seq<string> {
    [caller.partition] + match children case None => [] case Some(cs) => Granted(cs, caps)
  }

  lemma {:induction false} GrantedConcat(a: seq<string>, b: seq<string>, caps: ChildCaps)
    ensures Granted(a + b, caps) == Granted(a, caps) + Granted(b, caps)
  {
    if a == [] {
      assert a + b == b;
    } else {
      assert (a + b)[1..] == a[1..] + b;
      GrantedConcat(a[1..], b, caps);
    }
  }

  lemma {:induction false} GrantedExact(children: seq<string>, caps: ChildCaps, id: string)
    ensures id in Granted(children, caps) <==>
            && id in children && caps(id).Some?
            && ("*" in caps(id).value || exists c :: c in caps(id).value && "analytics:" <= c)
  {
    if children != [] {
      GrantedExact(children[1..], caps, id);
      assert children == [children[0]] + children[1..];
      if caps(children[0]).Some? { GrantsAnalyticsExact(caps(children[0]).value); }
    }
  }

  // ---------- eviction ----------

  function HalfOf(max: nat): nat {
    if max / 2 == 0 then 1 else max / 2
  }

  /** What cacheResult may leave behind, whatever order the map is ranged over. */
  ghost predicate Stored<K, V>(before: map<K, Timed<V>>, after: map<K, Timed<V>>, max: nat, key: K, e: Timed<V>,
                               now: int) {
    if |before| < max then after == before[key := e]
    else if |Live(before, now)| < max then after == Live(before, now)[key := e]
    else exists dropped: set<K> ::
      dropped <= before.Keys && |dropped| == HalfOf(max) && after == (Live(before, now) - dropped)[key := e]
  }

  /** The bound survives every insertion, for every positive capacity. */
  lemma StoredWithinCapacity<K, V>(before: map<K, Timed<V>>, after: map<K, Timed<V>>, max: nat, key: K, e: Timed<V>,
                                   now: int)
    requires max >= 1 && |before| <= max
    requires Stored(before, after, max, key, e, now)
    ensures |after| <= max && key in after && after[key] == e
    ensures forall k :: k in after && k != key ==> k in before && after[k] == before[k]
    ensures |Live(before, now)| < max ==>
            forall k :: k in before && k != key && now <= before[k].expiresAt ==> k in after
  {
    var live := Live(before, now);
    if |before| < max {
      UpdateSize(before, key, e);
    } else if |live| < max {
      UpdateSize(live, key, e);
    } else {
      var dropped: set<K> :| dropped <= before.Keys && |dropped| == HalfOf(max) && after == (live - dropped)[key := e];
      LiveWhenAllLive(before, now);
      RemoveSize(live, dropped);
      UpdateSize(live - dropped, key, e);
    }
  }

  /** A full cache of live entries gives up half of its capacity, and at least one entry. */
  lemma StoredDropsHalf<K, V>(before: map<K, Timed<V>>, after: map<K, Timed<V>>, max: nat, key: K, e: Timed<V>,
                              now: int)
    requires max >= 1 && |before| == max && (forall k :: k in before ==> now <= before[k].expiresAt)
    requires Stored(before, after, max, key, e, now)
    ensures var half := if max <= 3 then 1 else max / 2;
            max - half <= |after| <= max - half + 1 && (key !in before ==> |after| == max - half + 1)
  {
    assert Live(before, now) == before;
    var dropped: set<K> :| dropped <= before.Keys && |dropped| == HalfOf(max)
                           && after == (Live(before, now) - dropped)[key := e];
    RemoveSize(before, dropped);
    UpdateSize(before - dropped, key, e);
  }

  /** The list is the caller's own partition, then the children that qualify, in the order they were listed. */
  lemma AccessibleExact(caller: Caller, a: seq<string>, b: seq<string>, id: string, caps: ChildCaps)
    ensures Accessible(caller, None, caps) == [caller.partition] == Accessible(caller, Some([]), caps)
    ensures Accessible(caller, Some(a + b), caps)
         == Accessible(caller, Some(a), caps) + Accessible(caller, Some(b), caps)[1..]
    ensures var c := caps(id);
            Accessible(caller, Some([id]), caps) == [caller.partition] +
            if c.Some? && ("*" in c.value || exists p :: p in c.value && "analytics:" <= p) then [id] else []
  {
    GrantedConcat(a, b, caps);
    GrantedExact([id], caps, id);
    assert [id][1..] == [] && Granted([], caps) == [];
    assert Accessible(caller, Some(b), caps)[1..] == Granted(b, caps);
  }

  lemma LiveWhenAllLive<K, V>(m: map<K, Timed<V>>, now: int)
    requires |Live(m, now)| >= |m|
    ensures Live(m, now) == m
  {
    var live := Live(m, now);
    var gone := m.Keys - live.Keys;
    assert live == m - gone;
    RemoveSize(m, gone);
  }

  /** Deletes entries until half the capacity, but at least one, is gone. */
  method DropHalf<K, V>(m: map<K, V>, max: nat) returns (r: map<K, V>, ghost dropped: set<K>)
    requires |m| == max >= 1
    ensures dropped <= m.Keys && |dropped| == HalfOf(max) && r == m - dropped
  {
    r := m;
    dropped := {};
    var count := 0;
    var rest := m.Keys;
    assert |rest| == max;
    while rest != {}
      invariant dropped <= m.Keys && rest == m.Keys - dropped
      invariant |dropped| == count && count + |rest| == max
      invariant count == 0 || count < max / 2
      invariant r == m - dropped
    {
      var k :| k in rest;
      rest := rest - {k};
      dropped := dropped + {k};
      r := r - {k};
      count := count + 1;
      if count >= max / 2 {
        break;
      }
    }
  }

  /** Makes room if needed, then inserts. */
  method Store<K, V>(m: map<K, Timed<V>>, max: nat, key: K, e: Timed<V>, now: int) returns (r: map<K, Timed<V>>)
    requires 1 <= max && |m| <= max
    ensures Stored(m, r, max, key, e, now)
  {
    r := m;
    if |r| >= max {
      r := EvictExpired(r, now);
      if |r| >= max {
        LiveWhenAllLive(m, now);
        ghost var dropped;
        r, dropped := DropHalf(r, max);
      }
    }
    r := r[key := e];
  }

  /** The caller's partition first, then each child whose capabilities resolve and grant analytics. */
  method ListAccessible(caller: Caller, children: Option<seq<string>>, caps: ChildCaps) returns (ids: Slice)
    ensures fresh(ids) && ids[..] == Accessible(caller, children, caps)
  {
    var accessible := [caller.partition];
    if children.Some? {
      var cs := children.value;
      for i := 0 to |cs|
        invariant accessible == [caller.partition] + Granted(cs[..i], caps)
      {
        assert cs[..i + 1] == cs[..i] + [cs[i]];
        GrantedConcat(cs[..i], [cs[i]], caps);
        var answer := caps(cs[i]);
        if answer.Some? && GrantsAnalytics(answer.value) {
          accessible := accessible + [cs[i]];
        }
      }
      assert cs[..|cs|] == cs;
    }
    ids := new string[|accessible|](i requires 0 <= i < |accessible| => accessible[i]);
  }

  // ---------- the history of a run ----------

  type Slice = array<string>

  /**
   * A list fetched for a caller, or one sent to a backend for its wildcard query. A query is asked, then a full cache
   * is swept, then the list is stored, each at its own reading of the clock.
   */
  datatype Event =
    | Fetched(caller: Caller, list: seq<string>, asked: int, swept: int, at: int)
    | Sent(caller: Caller, ids: seq<string>, asked: int)

  function LastFetch(log: seq<Event>, caller: Caller): (r: Option<Event>)
    ensures r.Some? ==> r.value.Fetched? && r.value.caller == caller
  {
    if log == [] then None
    else
      var last := log[|log| - 1];
      if last.Fetched? && last.caller == caller then Some(last) else LastFetch(log[..|log| - 1], caller)
  }

  /** What the array of the caller's last fetch holds: every list sent since has compacted it once. */
  function Held(log: seq<Event>, caller: Caller): seq<string> {
    if log == [] then []
    else
      var last, before := log[|log| - 1], log[..|log| - 1];
      if last.caller != caller then Held(before, caller)
      else if last.Fetched? then last.list
      else Compacted(Held(before, caller))
  }

  /** The ids within a caller's reach: those of its last fetch. */
  function Reach(log: seq<Event>, caller: Caller): set<string> {
    match LastFetch(log, caller) case Some(e) => Ids(e.list) case None => {}
  }

  predicate Hits<V>(cache: map<Caller, Timed<V>>, caller: Caller, asked: int) {
    caller in cache && asked < cache[caller].expiresAt
  }

  predicate JustFetched(log: seq<Event>, caller: Caller, asked: int) {
    log != [] && log[|log| - 1].Fetched? && log[|log| - 1].caller == caller && log[|log| - 1].asked == asked
  }

  /** One event and what it does to the cache, whose arrays the log describes; the values may be anything. */
  ghost predicate Step<V>(log: seq<Event>, before: map<Caller, Timed<V>>, e: Event, after: map<Caller, Timed<V>>,
                          ttl: int, max: nat) {
    match e
    case Fetched(caller, list, asked, swept, at) =>
      && !Hits(before, caller, asked)
      && list != [] && list[0] == caller.partition
      && caller in after && after[caller].expiresAt == at + ttl
      && Stored(before, after, max, caller, after[caller], swept)
    case Sent(caller, ids, asked) =>
      && after == before && caller in before
      && (Hits(before, caller, asked) || JustFetched(log, caller, asked))
      && ids == NonEmpty(Held(log, caller))
  }

  /** A run from the empty cache, with the cache before and after each event; any callers may take turns. */
  ghost predicate IsRun<V>(log: seq<Event>, caches: seq<map<Caller, Timed<V>>>, ttl: int, max: nat) {
    && |caches| == |log| + 1
    && if log == [] then caches[0] == map[]
       else
         var n := |log| - 1;
         && IsRun(log[..n], caches[..n + 1], ttl, max)
         && Step(log[..n], caches[n], log[n], caches[n + 1], ttl, max)
  }

  lemma LogStep(log: seq<Event>, e: Event)
    ensures forall k :: LastFetch(log + [e], k) == if e.Fetched? && e.caller == k then Some(e) else LastFetch(log, k)
    ensures forall k :: Held(log + [e], k) ==
                        if e.caller != k then Held(log, k) else if e.Fetched? then e.list else Compacted(Held(log, k))
    ensures forall k :: k != e.caller || e.Sent? ==> Reach(log + [e], k) == Reach(log, k)
  {
  }

  lemma RunStep<V>(log: seq<Event>, caches: seq<map<Caller, Timed<V>>>, e: Event, next: map<Caller, Timed<V>>, ttl: int,
                   max: nat)
    requires IsRun(log, caches, ttl, max)
    requires Step(log, caches[|log|], e, next, ttl, max)
    ensures IsRun(log + [e], caches + [next], ttl, max)
  {
    assert (log + [e])[..|log|] == log && (caches + [next])[..|log| + 1] == caches;
  }

  // ---------- the resolver ----------

  /** No two callers share a slice. */
  ghost predicate Distinct(m: map<Caller, Timed<Slice>>) {
    forall j, k :: j in m && k in m && j != k ==> m[j].value != m[k].value
  }

  lemma DistinctAfter(before: map<Caller, Timed<Slice>>, after: map<Caller, Timed<Slice>>, caller: Caller, ids: Slice)
    requires Distinct(before)
    requires forall k :: k in before ==> before[k].value != ids
    requires caller in after && after[caller].value == ids
    requires forall k :: k in after && k != caller ==> k in before && after[k] == before[k]
    ensures Distinct(after)
  {
  }

  /** The entry is the caller's last fetch, and its array has been compacted by every wildcard query since. */
  ghost predicate Tracks(log: seq<Event>, ttl: int, k: Caller, entry: Timed<Slice>)
    reads entry.value
  {
    match LastFetch(log, k)
    case None => false
    case Some(e) => entry.expiresAt == e.at + ttl && entry.value[..] == Held(log, k)
  }

  function SlicesOf(cache: map<Caller, Timed<Slice>>): set<Slice> {
    set k | k in cache :: cache[k].value
  }

  /** The cache a run has led to: within capacity, unshared, and holding what the log says. */
  ghost predicate Sound(log: seq<Event>, caches: seq<map<Caller, Timed<Slice>>>, cache: map<Caller, Timed<Slice>>,
                        ttl: int, max: nat)
    reads SlicesOf(cache)
  {
    && IsRun(log, caches, ttl, max) && caches[|log|] == cache
    && |cache| <= max
    && Distinct(cache)
    && (forall k :: k in cache ==> Tracks(log, ttl, k, cache[k]))
  }

  class PartitionResolver {
    const ttl: int
    const maxEntries: nat
    var cache: map<Caller, Timed<Slice>>
    ghost var log: seq<Event>
    ghost var caches: seq<map<Caller, Timed<Slice>>>

    ghost function Slices(): set<Slice>
      reads this
    {
      SlicesOf(cache)
    }

    ghost predicate Valid()
      reads this, Slices()
    {
      1 <= maxEntries && Sound(log, caches, cache, ttl, maxEntries)
    }

    constructor (ttl: int, maxEntries: int)
      ensures Valid() && cache == map[] && log == []
      ensures this.ttl == ttl && this.maxEntries == if maxEntries <= 0 then 10000 else maxEntries
    {
      this.ttl := ttl;
      this.maxEntries := if maxEntries <= 0 then 10000 else maxEntries;
      cache, log, caches := map[], [], [map[]];
    }

    ghost predicate Hit(caller: Caller, now: int)
      reads this
    {
      Hits(cache, caller, now)
    }

    /** A hit hands out the cached slice itself; a miss computes a fresh one and shares it with the cache. */
    method ResolveAccessible(caller: Caller, children: Option<seq<string>>, caps: ChildCaps, now: int, swept: int,
                             later: int)
      returns (ids: Slice)
      requires Valid()
      modifies this
      ensures Valid()
      ensures caller in cache && cache[caller].value == ids
      ensures Hit(caller, now) || JustFetched(log, caller, now)
      ensures old(caller in cache && now < cache[caller].expiresAt) ==> cache == old(cache) && log == old(log)
      ensures !old(caller in cache && now < cache[caller].expiresAt) ==>
                && fresh(ids) && cache[caller].expiresAt == later + ttl
                && Stored(old(cache), cache, maxEntries, caller, Timed(ids, later + ttl), swept)
                && (forall k :: k in cache && k != caller ==> k in old(cache) && cache[k] == old(cache)[k])
                && log == old(log) + [Fetched(caller, Accessible(caller, children, caps), now, swept, later)]
    {
      hide Stored, Live, Granted, Distinct, LastFetch, Held, IsRun;
      if caller in cache && now < cache[caller].expiresAt {
        return cache[caller].value;
      }
      ids := ListAccessible(caller, children, caps);
      CacheResult(caller, ids, now, swept, later);
    }

    method CacheResult(caller: Caller, ids: Slice, ghost asked: int, swept: int, now: int)
      requires Valid() && ids !in Slices()
      requires !Hit(caller, asked) && ids.Length > 0 && ids[0] == caller.partition
      modifies this
      ensures Valid()
      ensures Stored(old(cache), cache, maxEntries, caller, Timed(ids, now + ttl), swept)
      ensures caller in cache && cache[caller] == Timed(ids, now + ttl)
      ensures forall k :: k in cache && k != caller ==> k in old(cache) && cache[k] == old(cache)[k]
      ensures log == old(log) + [Fetched(caller, ids[..], asked, swept, now)]
    {
      hide Stored, Live, Distinct, LastFetch, Held, IsRun, Step, Hits;
      ghost var e := Fetched(caller, ids[..], asked, swept, now);
      var next := Store(cache, maxEntries, caller, Timed(ids, now + ttl), swept);
      SoundAfterFetch(log, caches, e, ttl, maxEntries, cache, next, ids);
      cache, log, caches := next, log + [e], caches + [next];
    }
  }

  lemma SoundAfterFetch(log: seq<Event>, caches: seq<map<Caller, Timed<Slice>>>, e: Event, ttl: int, max: nat,
                        before: map<Caller, Timed<Slice>>, after: map<Caller, Timed<Slice>>, ids: Slice)
    requires 1 <= max && Sound(log, caches, before, ttl, max) && ids !in SlicesOf(before)
    requires e.Fetched? && e.list == ids[..] && e.list != [] && e.list[0] == e.caller.partition
    requires !Hits(before, e.caller, e.asked)
    requires Stored(before, after, max, e.caller, Timed(ids, e.at + ttl), e.swept)
    ensures Sound(log + [e], caches + [after], after, ttl, max)
    ensures e.caller in after && after[e.caller] == Timed(ids, e.at + ttl)
    ensures forall k :: k in after && k != e.caller ==> k in before && after[k] == before[k]
  {
    hide Stored, Live, Distinct, LastFetch, Held, IsRun, Tracks, Hits;
    StoredWithinCapacity(before, after, max, e.caller, Timed(ids, e.at + ttl), e.swept);
    DistinctAfter(before, after, e.caller, ids);
    TracksAfterFetch(log, e, ttl, before, after, ids);
    RunStep(log, caches, e, after, ttl, max);
  }

  lemma TracksAfterFetch(log: seq<Event>, e: Event, ttl: int, before: map<Caller, Timed<Slice>>,
                         after: map<Caller, Timed<Slice>>, ids: Slice)
    requires e.Fetched? && e.list == ids[..]
    requires forall k :: k in before ==> Tracks(log, ttl, k, before[k])
    requires e.caller in after && after[e.caller] == Timed(ids, e.at + ttl)
    requires forall k :: k in after && k != e.caller ==> k in before && after[k] == before[k]
    ensures forall k :: k in after ==> Tracks(log + [e], ttl, k, after[k])
  {
  }
}
