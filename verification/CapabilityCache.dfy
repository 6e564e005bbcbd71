// The cache in front of the policy evaluator.
module CapabilityCache {
  import opened Wrappers
  import opened Text
  import opened Capabilities
  import opened TtlMap
  import opened CompositeKey

  type Entries = map<string, Timed<CapabilitySet>>

  /** Everything that changes the cache: an evaluator answer stored, or an invalidation. */
  datatype Event = Evaluated(subject: string, tenant: string, partition: string, caps: CapabilitySet, at: int)
                 | Invalidated(subject: string, tenant: string)

  function Drop(m: Entries, subject: string, tenant: string): Entries {
    map k | k in m && !HasPrefix(k, Prefix2(subject, tenant)) :: m[k]
  }

  function After(m: Entries, e: Event, ttl: int): Entries {
    match e
    case Evaluated(s, t, p, caps, at) => m[Key3(s, t, p) := Timed(caps, at + ttl)]
    case Invalidated(s, t) => Drop(m, s, t)
  }

  function CacheAfter(log: seq<Event>, ttl: int): Entries {
    if log == [] then map[] else After(CacheAfter(log[..|log| - 1], ttl), log[|log| - 1], ttl)
  }

  class Resolver {
    const ttl: int
    var cache: Entries
    ghost var log: seq<Event>

    ghost predicate Valid()
      reads this
    {
      cache == CacheAfter(log, ttl)
    }

    constructor (ttl: int)
      ensures Valid() && log == [] && this.ttl == ttl
    {
      this.ttl := ttl;
      cache, log := map[], [];
    }

    /** answer is what the evaluator would say if asked now; it is stored at the later time. */
    method Resolve(subject: string, tenant: string, partition: string, answer: Result<CapabilitySet, string>,
                   now: int, later: int)
      returns (r: Result<CapabilitySet, string>)
      requires Valid()
      modifies this
      ensures Valid()
      ensures var key := Key3(subject, tenant, partition);
              if key in old(cache) && now < old(cache)[key].expiresAt
              then r == Ok(old(cache)[key].value) && log == old(log) && cache == old(cache)
              else r == answer && log == if answer.Err? then old(log)
                                         else old(log) + [Evaluated(subject, tenant, partition, answer.value, later)]
      ensures ColonFree(subject) && ColonFree(tenant) && ColonFree(partition) ==>
                match Latest(old(log), subject, tenant, partition)
                case Some(Evaluated(_, _, _, caps, at)) => r == if now < at + ttl then Ok(caps) else answer
                case _ => r == answer
    {
      if ColonFree(subject) && ColonFree(tenant) && ColonFree(partition) {
        CacheHoldsLatestAnswer(log, ttl, subject, tenant, partition);
      }
      var key := Key3(subject, tenant, partition);
      if key in cache && now < cache[key].expiresAt {
        return Ok(cache[key].value);
      }
      if answer.Ok? {
        ghost var e := Evaluated(subject, tenant, partition, answer.value, later);
        assert (log + [e])[..|log|] == log;
        cache := cache[key := Timed(answer.value, later + ttl)];
        log := log + [e];
      }
      r := answer;
    }

    method Invalidate(subject: string, tenant: string)
      requires Valid()
      modifies this
      ensures Valid() && log == old(log) + [Invalidated(subject, tenant)]
    {
      var prefix := Prefix2(subject, tenant);
      var kept := cache;
      var rest := cache.Keys;
      while rest != {}
        invariant rest <= cache.Keys
        invariant kept == map k | k in cache && (k in rest || !HasPrefix(k, prefix)) :: cache[k]
      {
        var k :| k in rest;
        rest := rest - {k};
        if |k| >= |prefix| && k[..|prefix|] == prefix {
          kept := kept - {k};
        }
      }
      assert kept == Drop(cache, subject, tenant);
      assert (log + [Invalidated(subject, tenant)])[..|log|] == log;
      cache := kept;
      log := log + [Invalidated(subject, tenant)];
    }
  }

  // ---------- what is served, over whole runs ----------

  predicate Concerns(e: Event, subject: string, tenant: string, partition: string) {
    match e
    case Evaluated(s, t, p, _, _) => s == subject && t == tenant && p == partition
    case Invalidated(s, t) => s == subject && t == tenant
  }

  /** The most recent event about a triple: its last answer, or an invalidation of its subject and tenant. */
  function Latest(log: seq<Event>, subject: string, tenant: string, partition: string): Option<Event> {
    if log == [] then None
    else
      var last := log[|log| - 1];
      if Concerns(last, subject, tenant, partition) then Some(last)
      else Latest(log[..|log| - 1], subject, tenant, partition)
  }

  /** With colon-free identifiers an invalidation drops exactly the entries of its subject and tenant. */
  lemma InvalidationExact(m: Entries, s: string, t: string, subject: string, tenant: string, partition: string)
    requires ColonFree(subject) && ColonFree(tenant) && ColonFree(partition)
    ensures var k := Key3(subject, tenant, partition);
            && (k in Drop(m, s, t) <==> k in m && !(s == subject && t == tenant))
            && (k in Drop(m, s, t) ==> Drop(m, s, t)[k] == m[k])
  {
    PrefixExact(s, t, subject, tenant, partition);
  }

  /**
   * For a colon-free triple the cache holds exactly the evaluator's last answer for it, and nothing once
   * its subject and tenant have been invalidated since, whatever else happened in between.
   */
  lemma {:induction false} CacheHoldsLatestAnswer(log: seq<Event>, ttl: int, subject: string, tenant: string,
                                                  partition: string)
    requires ColonFree(subject) && ColonFree(tenant) && ColonFree(partition)
    ensures var k, m := Key3(subject, tenant, partition), CacheAfter(log, ttl);
            match Latest(log, subject, tenant, partition)
            case Some(Evaluated(_, _, _, caps, at)) => k in m && m[k] == Timed(caps, at + ttl)
            case _ => k !in m
  {
    if log != [] {
      var before, last := log[..|log| - 1], log[|log| - 1];
      CacheHoldsLatestAnswer(before, ttl, subject, tenant, partition);
      match last
      case Evaluated(s, t, p, _, _) =>
        if Key3(s, t, p) == Key3(subject, tenant, partition) {
          Key3Injective(s, t, p, subject, tenant, partition);
        }
      case Invalidated(s, t) =>
        InvalidationExact(CacheAfter(before, ttl), s, t, subject, tenant, partition);
    }
  }

  /** Two different callers sharing one entry, once an identifier may contain a colon. */
  lemma ColonsShareAnEntry(caps: CapabilitySet, ttl: int)
    ensures var m := CacheAfter([Evaluated("a", "b:c", "d", caps, 0)], ttl);
            Latest([Evaluated("a", "b:c", "d", caps, 0)], "a:b", "c", "d") == None && Key3("a:b", "c", "d") in m
  {
    var log := [Evaluated("a", "b:c", "d", caps, 0)];
    assert log[..0] == [];
    assert Key3("a", "b:c", "d") == Key3("a:b", "c", "d");
  }
}
