// Lookup options fetched from backends and cached per lookup and scope.
module LookupCache {
  import opened Wrappers
  import opened Text
  import opened TtlMap
  import opened CompositeKey

  datatype OptionDescriptor = OptionDescriptor(caption: string, value: string)

  type OptionList = seq<OptionDescriptor>

  /** cacheScope is the definition's text: "tenant", "partition", or anything else for global. */
  datatype LookupDefinition = LookupDefinition(id: string, cacheScope: string, ttl: Option<int>)

  // ---------- keys ----------

  function BuildCacheKey(d: LookupDefinition, tenant: string, partition: string): string {
    if d.cacheScope == "tenant" then "lookup:" + d.id + ":" + tenant
    else if d.cacheScope == "partition" then "lookup:" + d.id + ":" + tenant + ":" + partition
    else "lookup:" + d.id
  }

  /** What two callers must share for the scope of a lookup to be the same for both. */
  predicate SameScope(d: LookupDefinition, t1: string, p1: string, t2: string, p2: string) {
    (d.cacheScope == "tenant" ==> t1 == t2) && (d.cacheScope == "partition" ==> t1 == t2 && p1 == p2)
  }

  /** The key after the fixed part: the id, or the id, a colon and the rest. */
  function Rest(d: LookupDefinition, tenant: string, partition: string): Option<string> {
    if d.cacheScope == "tenant" then Some(tenant)
    else if d.cacheScope == "partition" then Some(tenant + ":" + partition)
    else None
  }

  function KeyOf(id: string, rest: Option<string>): string {
    "lookup:" + match rest case None => id case Some(r) => id + ":" + r
  }

  lemma KeyShape(d: LookupDefinition, tenant: string, partition: string)
    ensures BuildCacheKey(d, tenant, partition) == KeyOf(d.id, Rest(d, tenant, partition))
  {
  }

  lemma FirstColon(a: string, r: string, b: string, s: string)
    requires ColonFree(a) && ColonFree(b)
    requires a + ":" + r == b + ":" + s
    ensures a == b && r == s
  {
    var k := a + ":" + r;
    assert k[|a|] == ':' && k[|b|] == ':';
    assert forall i :: 0 <= i < |a| ==> k[i] == a[i];
    assert forall i :: 0 <= i < |b| ==> k[i] == b[i];
    assert k[..|a|] == a && k[..|b|] == b && k[|a| + 1..] == r && k[|b| + 1..] == s;
  }

  lemma ColonInside(a: string, x: string)
    ensures !ColonFree(a + ":" + x)
  {
  }

  /** With colon-free lookup ids, a key determines the lookup and what follows it. */
  lemma KeyOfInjective(a: string, r: Option<string>, b: string, s: Option<string>)
    requires ColonFree(a) && ColonFree(b)
    requires KeyOf(a, r) == KeyOf(b, s)
    ensures a == b && r == s
  {
    assert KeyOf(a, r)[7..] == KeyOf(b, s)[7..];
    match (r, s)
    case (Some(x), Some(y)) => FirstColon(a, x, b, y);
    case (Some(x), None) => ColonInside(a, x);
    case (None, Some(y)) => ColonInside(b, y);
    case (None, None) =>
  }

  /**
   * Keys never mix up different lookups when ids are colon-free, and for one lookup they separate scopes
   * exactly unless it is partition-scoped for a tenant or partition whose name has a colon.
   */
  lemma KeySeparatesScopes(d: LookupDefinition, e: LookupDefinition, t: string, p: string)
    requires ColonFree(d.id) && ColonFree(e.id)
    ensures d.id != e.id ==> forall t2, p2 :: BuildCacheKey(d, t, p) != BuildCacheKey(e, t2, p2)
    ensures (forall t2, p2 :: BuildCacheKey(d, t2, p2) == BuildCacheKey(d, t, p) ==> SameScope(d, t, p, t2, p2))
            <==> (d.cacheScope == "partition" ==> ColonFree(t) && ColonFree(p))
  {
    KeyShape(d, t, p);
    forall t2, p2 | BuildCacheKey(d, t, p) == BuildCacheKey(e, t2, p2) ensures d.id == e.id {
      KeyShape(e, t2, p2);
      KeyOfInjective(d.id, Rest(d, t, p), e.id, Rest(e, t2, p2));
    }
    forall t2, p2
      ensures BuildCacheKey(d, t2, p2) == BuildCacheKey(d, t, p) <==> Rest(d, t2, p2) == Rest(d, t, p)
      ensures Pair(':', t2, p2) == t2 + ":" + p2
    {
      KeyShape(d, t2, p2);
      if BuildCacheKey(d, t2, p2) == BuildCacheKey(d, t, p) {
        KeyOfInjective(d.id, Rest(d, t2, p2), d.id, Rest(d, t, p));
      }
    }
    if d.cacheScope == "partition" {
      PairUniqueExactly(':', t, p);
      if !(ColonFree(t) && ColonFree(p)) {
        var t2, p2 :| Pair(':', t2, p2) == Pair(':', t, p) && !(t2 == t && p2 == p);
        assert Rest(d, t2, p2) == Rest(d, t, p);
        assert BuildCacheKey(d, t2, p2) == BuildCacheKey(d, t, p) && !SameScope(d, t, p, t2, p2);
      }
    }
  }

  // ---------- filtering ----------

  predicate OccursAt(s: string, sub: string, i: nat) {
    i + |sub| <= |s| && s[i..i + |sub|] == sub
  }

  predicate Contains(s: string, sub: string) {
    exists i: nat :: i <= |s| && OccursAt(s, sub, i)
  }

  lemma ContainsExactly(s: string, sub: string)
    ensures Contains(s, sub) <==> exists before, after :: s == before + sub + after
  {
    if i: nat :| i <= |s| && OccursAt(s, sub, i) {
      assert s == s[..i] + sub + s[i + |sub|..];
    }
    if before, after :| s == before + sub + after {
      assert s[|before|..|before| + |sub|] == sub;
      assert OccursAt(s, sub, |before|);
    }
  }

  /** Case folding is a parameter: strings.ToLower on Unicode text is not modelled. */
  predicate Shows(o: OptionDescriptor, query: string, lower: string -> string) {
    query == "" || Contains(lower(o.caption), lower(query))
  }

  function FilterOptions(options: OptionList, query: string, lower: string -> string): OptionList {
    if options == [] then [] else Kept(options[0], query, lower) + FilterOptions(options[1..], query, lower)
  }

  function Kept(o: OptionDescriptor, query: string, lower: string -> string): OptionList {
    if Shows(o, query, lower) then [o] else []
  }

  lemma {:induction false} FilterConcat(a: OptionList, b: OptionList, query: string, lower: string -> string)
    ensures FilterOptions(a + b, query, lower) == FilterOptions(a, query, lower) + FilterOptions(b, query, lower)
  {
    hide Kept;
    if a == [] {
      assert a + b == b;
    } else {
      assert (a + b)[0] == a[0] && (a + b)[1..] == a[1..] + b;
      FilterConcat(a[1..], b, query, lower);
      var x, y, z := Kept(a[0], query, lower), FilterOptions(a[1..], query, lower), FilterOptions(b, query, lower);
      assert x + (y + z) == (x + y) + z;
    }
  }

  lemma {:induction false} FilterExact(options: OptionList, query: string, lower: string -> string)
    ensures forall o :: o in FilterOptions(options, query, lower) <==> o in options && Shows(o, query, lower)
    ensures forall o :: o in FilterOptions(options, query, lower) <==>
              o in options && (query == "" || Contains(lower(o.caption), lower(query)))
    ensures query == "" ==> FilterOptions(options, query, lower) == options
  {
    if options != [] {
      FilterExact(options[1..], query, lower);
      assert options == [options[0]] + options[1..];
    }
  }

  method ApplyFilter(options: OptionList, query: string, lower: string -> string) returns (r: OptionList)
    ensures r == FilterOptions(options, query, lower)
  {
    if query == "" {
      FilterExact(options, query, lower);
      return options;
    }
    r := [];
    for i := 0 to |options|
      invariant r == FilterOptions(options[..i], query, lower)
    {
      assert options[..i + 1] == options[..i] + [options[i]];
      FilterConcat(options[..i], [options[i]], query, lower);
      if Contains(lower(options[i].caption), lower(query)) {
        r := r + [options[i]];
      }
    }
    assert options[..|options|] == options;
  }

  // ---------- the cache ----------

  type Entries = map<string, Timed<OptionList>>

  datatype Event = Fetched(key: string, options: OptionList, ttl: int, at: int)
                 | Invalidated(id: string, tenant: string)

  function PutOptions(m: Entries, max: nat, key: string, options: OptionList, ttl: int, now: int): Entries {
    (if |m| >= max then Live(m, now) else m)[key := Timed(options, now + ttl)]
  }

  /** The bound is soft: after an insertion at most the capacity, or the live entries and the new one. */
  lemma SoftCapacity(m: Entries, max: nat, key: string, options: OptionList, ttl: int, now: int)
    ensures var n := |PutOptions(m, max, key, options, ttl, now)|; n <= max || n <= |Live(m, now)| + 1
  {
  }

  /** Nothing bounds the live entries themselves: a full cache of live entries grows. */
  lemma FullLiveCacheGrows(m: Entries, max: nat, key: string, options: OptionList, ttl: int, now: int)
    requires |m| >= max && key !in m && forall k :: k in m ==> now <= m[k].expiresAt
    ensures |PutOptions(m, max, key, options, ttl, now)| == |m| + 1
  {
    assert Live(m, now) == m;
    UpdateSize(m, key, Timed(options, now + ttl));
  }

  predicate Matches(key: string, id: string, tenant: string) {
    HasPrefix(key, "lookup:" + id) && (tenant == "" || Contains(key, tenant))
  }

  function Drop(m: Entries, id: string, tenant: string): Entries {
    map k | k in m && !Matches(k, id, tenant) :: m[k]
  }

  /** An invalidation reaches every scope of the lookup, or every tenant and partition entry of the named tenant. */
  lemma InvalidationReaches(d: LookupDefinition, tenant: string, t: string, p: string)
    ensures tenant == "" ==> Matches(BuildCacheKey(d, t, p), d.id, tenant)
    ensures t == tenant && (d.cacheScope == "tenant" || d.cacheScope == "partition") ==>
              Matches(BuildCacheKey(d, t, p), d.id, tenant)
  {
    var k := BuildCacheKey(d, t, p);
    var start := "lookup:" + d.id;
    assert start <= k;
    if t == tenant && (d.cacheScope == "tenant" || d.cacheScope == "partition") {
      assert k[|start| + 1..|start| + 1 + |t|] == t;
      assert OccursAt(k, t, |start| + 1);
    }
  }

  /** It may reach further: ids are matched as prefixes. */
  lemma InvalidationReachesLongerIds(d: LookupDefinition, suffix: string, t: string, p: string)
    ensures Matches(BuildCacheKey(d.(id := d.id + suffix), t, p), d.id, "")
  {
  }

  // ---------- what an invalidation matches ----------

  predicate IsScoped(d: LookupDefinition) {
    d.cacheScope == "tenant" || d.cacheScope == "partition"
  }

  /** The tenant's name occurs somewhere in the key: in the fixed word, the lookup id, or a name of the scope. */
  predicate Mentions(d: LookupDefinition, t: string, p: string, tenant: string) {
    || Contains("lookup", tenant) || Contains(d.id, tenant)
    || (IsScoped(d) && Contains(t, tenant)) || (d.cacheScope == "partition" && Contains(p, tenant))
  }

  lemma OccursWithin(k: string, part: string, at: nat, x: string)
    requires at + |part| <= |k| && k[at..at + |part|] == part && Contains(part, x)
    ensures Contains(k, x)
  {
    var i: nat :| i <= |part| && OccursAt(part, x, i);
    forall n | 0 <= n < |x| ensures k[at + i..at + i + |x|][n] == x[n] {
      assert part[i + n] == k[at..at + |part|][i + n];
      assert x[n] == part[i..i + |x|][n];
    }
    assert OccursAt(k, x, at + i);
  }

  /** Text without a colon occurs in a joined pair exactly when it occurs in one of the two. */
  lemma ContainsInPair(a: string, b: string, x: string)
    requires ColonFree(x)
    ensures Contains(a + ":" + b, x) <==> Contains(a, x) || Contains(b, x)
  {
    var k := a + ":" + b;
    if Contains(a, x) { OccursWithin(k, a, 0, x); }
    if Contains(b, x) { OccursWithin(k, b, |a| + 1, x); }
    assert k[|a|] == ':';
    if Contains(k, x) {
      var i: nat :| i <= |k| && OccursAt(k, x, i);
      if i + |x| <= |a| {
        assert a[i..i + |x|] == k[i..i + |x|];
        assert OccursAt(a, x, i);
      } else if |a| < i {
        var n := i - |a| - 1;
        assert k[|a| + 1..] == b;
        assert b[n..n + |x|] == k[|a| + 1..][n..n + |x|] == k[i..i + |x|];
        assert OccursAt(b, x, n);
      } else {
        assert false;
      }
    }
  }

  lemma PrefixOfPair(id: string, a: string, rest: string)
    requires ColonFree(id)
    ensures id <= a + ":" + rest <==> id <= a
  {
    var k := a + ":" + rest;
    assert k[|a|] == ':';
    if id <= k {
      assert forall i :: 0 <= i < |id| ==> id[i] == k[i] && k[i] == a[i];
    }
  }

  /**
   * Over all keys, for names without colons: an invalidation hits every lookup whose id starts with the given one,
   * limited, when a tenant is named, to keys in which the tenant's name occurs anywhere.
   */
  lemma InvalidationMatchesExactly(d: LookupDefinition, t: string, p: string, id: string, tenant: string)
    requires ColonFree(id) && ColonFree(tenant)
    ensures Matches(BuildCacheKey(d, t, p), id, tenant) <==> id <= d.id && (tenant == "" || Mentions(d, t, p, tenant))
  {
    var key, start := BuildCacheKey(d, t, p), "lookup:";
    var body := match Rest(d, t, p) case None => d.id case Some(r) => d.id + ":" + r;
    KeyShape(d, t, p);
    assert key == start + body;
    if Rest(d, t, p).Some? { PrefixOfPair(id, d.id, Rest(d, t, p).value); }
    assert "lookup:" + id <= start + body <==> id <= body by {
      assert (start + body)[7..] == body && (start + id)[7..] == id;
    }
    hide Contains, BuildCacheKey;
    assert start + body == "lookup" + ":" + body;
    ContainsInPair("lookup", body, tenant);
    if Rest(d, t, p).Some? { ContainsInPair(d.id, Rest(d, t, p).value, tenant); }
    if d.cacheScope == "partition" { ContainsInPair(t, p, tenant); }
  }

  /** The entries an invalidation is for: all of the lookup, or those kept for the named tenant. */
  predicate IsFor(d: LookupDefinition, t: string, id: string, tenant: string) {
    d.id == id && (tenant == "" || (IsScoped(d) && t == tenant))
  }

  /** Without a tenant exactly the lookup's entries go exactly when no registered id properly extends the given one. */
  lemma DropsLookupExactly(defs: set<LookupDefinition>, id: string)
    requires ColonFree(id)
    ensures (forall d, t, p :: d in defs ==> (Matches(BuildCacheKey(d, t, p), id, "") <==> IsFor(d, t, id, "")))
            <==> forall d :: d in defs && id <= d.id ==> d.id == id
  {
    hide BuildCacheKey, Matches, Mentions;
    forall d, t, p { InvalidationMatchesExactly(d, t, p, id, ""); }
    if d :| d in defs && id <= d.id && d.id != id {
      assert Matches(BuildCacheKey(d, "", ""), id, "") && !IsFor(d, "", id, "");
    }
  }

  /**
   * With a tenant named, exactly its entries of the lookup go exactly when, among the registered lookups, tenants and
   * partitions, no other entry of a lookup whose id starts alike has the tenant's name in it.
   */
  lemma DropsTenantExactly(defs: set<LookupDefinition>, tenants: set<string>, partitions: set<string>, id: string,
                           tenant: string)
    requires ColonFree(id) && ColonFree(tenant) && tenant != ""
    ensures (forall d, t, p :: d in defs && t in tenants && p in partitions ==>
               (Matches(BuildCacheKey(d, t, p), id, tenant) <==> IsFor(d, t, id, tenant)))
            <==> forall d, t, p :: d in defs && t in tenants && p in partitions && id <= d.id ==>
                   IsFor(d, t, id, tenant) || !Mentions(d, t, p, tenant)
  {
    hide BuildCacheKey, Matches, Mentions;
    forall d, t, p ensures Matches(BuildCacheKey(d, t, p), id, tenant) <==> id <= d.id && Mentions(d, t, p, tenant) {
      InvalidationMatchesExactly(d, t, p, id, tenant);
    }
    forall d, t, p | IsFor(d, t, id, tenant) ensures Mentions(d, t, p, tenant) { OwnIsMentioned(d, t, p, tenant); }
  }

  lemma OwnIsMentioned(d: LookupDefinition, t: string, p: string, tenant: string)
    requires IsScoped(d) && t == tenant
    ensures Mentions(d, t, p, tenant)
  {
    assert OccursAt(t, t, 0);
  }

  /** The entries of a tenant whose name merely contains the named one are dropped with it, as t10's are with t1's. */
  lemma InvalidationReachesLongerTenants(d: LookupDefinition, t: string, p: string, tenant: string)
    requires IsScoped(d) && Contains(t, tenant)
    ensures Matches(BuildCacheKey(d, t, p), d.id, tenant)
    ensures Contains("t10", "t1")
  {
    var key, start := BuildCacheKey(d, t, p), "lookup:" + d.id;
    assert key[|start| + 1..|start| + 1 + |t|] == t;
    OccursWithin(key, t, |start| + 1, tenant);
    assert OccursAt("t10", "t1", 0);
  }

  // ---------- histories ----------

  function After(m: Entries, e: Event, max: nat): Entries {
    match e
    case Fetched(key, options, ttl, at) => PutOptions(m, max, key, options, ttl, at)
    case Invalidated(id, tenant) => Drop(m, id, tenant)
  }

  function CacheAfter(log: seq<Event>, max: nat): Entries {
    if log == [] then map[] else After(CacheAfter(log[..|log| - 1], max), log[|log| - 1], max)
  }

  lemma LogStep(log: seq<Event>, e: Event, max: nat)
    ensures CacheAfter(log + [e], max) == After(CacheAfter(log, max), e, max)
  {
  }

  function Lookup(m: Entries, key: string, now: int): Option<OptionList> {
    if key in m && now <= m[key].expiresAt then Some(m[key].value) else None
  }

  class LookupProvider {
    const defaultTTL: int
    const maxEntries: nat
    var cache: Entries
    ghost var log: seq<Event>

    ghost predicate Valid()
      reads this
    {
      cache == CacheAfter(log, maxEntries)
    }

    constructor (defaultTTL: int, maxEntries: int)
      ensures Valid() && log == []
      ensures this.defaultTTL == if defaultTTL <= 0 then 300_000_000_000 else defaultTTL
      ensures this.maxEntries == if maxEntries <= 0 then 1000 else maxEntries
    {
      this.defaultTTL := if defaultTTL <= 0 then 300_000_000_000 else defaultTTL;
      this.maxEntries := if maxEntries <= 0 then 1000 else maxEntries;
      cache, log := map[], [];
    }

    function TTL(d: LookupDefinition): int {
      match d.ttl case Some(t) => t case None => defaultTTL
    }

    /** fetched is what the backend would return if invoked now; it is stored at the later time. */
    method GetLookup(d: LookupDefinition, tenant: string, partition: string, query: string, lower: string -> string,
                     fetched: Result<OptionList, string>, now: int, later: int)
      returns (r: Result<OptionList, string>, cached: bool)
      requires Valid()
      modifies this
      ensures Valid()
      ensures var key := BuildCacheKey(d, tenant, partition);
              match Lookup(old(cache), key, now)
              case Some(options) => cached && r == Ok(FilterOptions(options, query, lower)) && log == old(log)
              case None =>
                !cached && (if fetched.Err? then r.Err? && log == old(log)
                            else
                              var ttl := if d.ttl.Some? then d.ttl.value else defaultTTL;
                              && r == Ok(FilterOptions(fetched.value, query, lower))
                              && log == old(log) + [Fetched(key, fetched.value, ttl, later)])
      ensures InOrder(old(log), now) ==>
                match Latest(old(log), BuildCacheKey(d, tenant, partition))
                case Some(Fetched(_, options, ttl, at)) => cached <==> now <= at + ttl
                case _ => !cached
    {
      hide CacheAfter, FilterOptions;
      if InOrder(log, now) {
        HitsExactly(log, maxEntries, BuildCacheKey(d, tenant, partition), now);
      }
      var key := BuildCacheKey(d, tenant, partition);
      if key in cache && now <= cache[key].expiresAt {
        var options := ApplyFilter(cache[key].value, query, lower);
        return Ok(options), true;
      }
      if fetched.Err? {
        return Err(fetched.error), false;
      }
      PutInCache(key, fetched.value, TTL(d), later);
      var options := ApplyFilter(fetched.value, query, lower);
      return Ok(options), false;
    }

    method PutInCache(key: string, options: OptionList, ttl: int, now: int)
      requires Valid()
      modifies this
      ensures Valid() && log == old(log) + [Fetched(key, options, ttl, now)]
      ensures cache == PutOptions(old(cache), maxEntries, key, options, ttl, now)
    {
      hide Live, CacheAfter;
      LogStep(log, Fetched(key, options, ttl, now), maxEntries);
      var next := cache;
      if |next| >= maxEntries {
        next := EvictExpired(next, now);
      }
      cache := next[key := Timed(options, now + ttl)];
      log := log + [Fetched(key, options, ttl, now)];
    }

    method Invalidate(id: string, tenant: string)
      requires Valid()
      modifies this
      ensures Valid() && log == old(log) + [Invalidated(id, tenant)]
    {
      var kept := cache;
      var rest := cache.Keys;
      while rest != {}
        invariant rest <= cache.Keys
        invariant kept == map k | k in cache && (k in rest || !Matches(k, id, tenant)) :: cache[k]
      {
        var k :| k in rest;
        rest := rest - {k};
        if HasPrefix(k, "lookup:" + id) {
          if tenant == "" || Contains(k, tenant) {
            kept := kept - {k};
          }
        }
      }
      assert kept == Drop(cache, id, tenant);
      LogStep(log, Invalidated(id, tenant), maxEntries);
      cache := kept;
      log := log + [Invalidated(id, tenant)];
    }
  }

  // ---------- what is served, over whole runs ----------

  predicate Concerns(e: Event, key: string) {
    match e
    case Fetched(k, _, _, _) => k == key
    case Invalidated(id, tenant) => Matches(key, id, tenant)
  }

  function Latest(log: seq<Event>, key: string): Option<Event> {
    if log == [] then None
    else
      var last := log[|log| - 1];
      if Concerns(last, key) then Some(last) else Latest(log[..|log| - 1], key)
  }

  /** Fetch times never run backwards and do not exceed now. */
  predicate InOrder(log: seq<Event>, now: int) {
    if log == [] then true
    else
      var last := log[|log| - 1];
      match last
      case Fetched(_, _, _, at) => at <= now && InOrder(log[..|log| - 1], at)
      case Invalidated(_, _) => InOrder(log[..|log| - 1], now)
  }

  /**
   * Over any run, a key hits exactly when its last fetch is within its time to live and no invalidation
   * reached it since; what is served is that fetch's full option list.
   */
  lemma {:induction false} HitsExactly(log: seq<Event>, max: nat, key: string, now: int)
    requires InOrder(log, now)
    ensures Lookup(CacheAfter(log, max), key, now) ==
            match Latest(log, key)
            case Some(Fetched(_, options, ttl, at)) => if now <= at + ttl then Some(options) else None
            case _ => None
  {
    EntryOfLatest(log, max, key);
    if Latest(log, key).Some? && Latest(log, key).value.Fetched?
       && now <= Latest(log, key).value.at + Latest(log, key).value.ttl {
      SurvivesUntilExpiry(log, max, key, now);
    }
  }

  /** Anything cached under a key is its last fetch. */
  lemma {:induction false} EntryOfLatest(log: seq<Event>, max: nat, key: string)
    ensures key in CacheAfter(log, max) ==>
              match Latest(log, key)
              case Some(Fetched(_, options, ttl, at)) => CacheAfter(log, max)[key] == Timed(options, at + ttl)
              case _ => false
  {
    if log != [] {
      EntryOfLatest(log[..|log| - 1], max, key);
    }
  }

  /** Eviction only removes what has expired, so the last fetch is still there while it is fresh. */
  lemma {:induction false} SurvivesUntilExpiry(log: seq<Event>, max: nat, key: string, now: int)
    requires InOrder(log, now)
    requires Latest(log, key).Some? && Latest(log, key).value.Fetched?
    requires now <= Latest(log, key).value.at + Latest(log, key).value.ttl
    ensures key in CacheAfter(log, max)
  {
    var before, last := log[..|log| - 1], log[|log| - 1];
    if !Concerns(last, key) {
      match last
      case Fetched(_, _, _, at) =>
        SurvivesUntilExpiry(before, max, key, at);
        EntryOfLatest(before, max, key);
      case Invalidated(_, _) =>
        SurvivesUntilExpiry(before, max, key, now);
    }
  }

  /** Once invalidated, no scope of the lookup (or of the named tenant) is cached again before its next fetch. */
  lemma {:induction false} AbsentUntilRefetched(log: seq<Event>, tail: seq<Event>, max: nat, d: LookupDefinition,
                                       tenant: string, t: string, p: string)
    requires tenant == "" || (t == tenant && (d.cacheScope == "tenant" || d.cacheScope == "partition"))
    requires forall e :: e in tail ==> !(e.Fetched? && e.key == BuildCacheKey(d, t, p))
    ensures BuildCacheKey(d, t, p) !in CacheAfter(log + [Invalidated(d.id, tenant)] + tail, max)
    decreases |tail|
  {
    var cut := log + [Invalidated(d.id, tenant)];
    InvalidationReaches(d, tenant, t, p);
    hide CacheAfter, BuildCacheKey, Matches;
    if tail == [] {
      LogStep(log, Invalidated(d.id, tenant), max);
      assert cut + tail == cut;
    } else {
      var front, last := tail[..|tail| - 1], tail[|tail| - 1];
      assert cut + tail == (cut + front) + [last];
      LogStep(cut + front, last, max);
      AbsentUntilRefetched(log, front, max, d, tenant, t, p);
    }
  }
}
