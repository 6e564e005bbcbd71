// The response cache of the analytics engine and the fingerprint it is keyed by.
module QueryCache {
  import opened Wrappers
  import opened Text
  import opened Query
  import opened TtlMap

  datatype Answer = Number(value: real) | Points(points: seq<(int, real)>)
                  | Segments(segments: seq<(string, real)>) | Items(items: seq<(string, real)>)

  /** The dynamic type a cached value must have to be returned for a request. */
  predicate HasKind(a: Answer, r: Request) {
    match r
    case Scalar => a.Number?
    case TimeSeries(_) => a.Points?
    case Grouped(_) => a.Segments?
    case TopN(_, _) => a.Items?
  }

  datatype TimeRange = TimeRange(start: int, end: int)

  const TIME_BUCKET: int := 60_000_000_000

  /** Truncation to the minute, always towards the past. */
  function Bucket(t: int): int {
    t / TIME_BUCKET
  }

  datatype CacheKey = CacheKey(request: Request, tenantId: string, partitions: seq<string>, scoped: bool,
                               query: MetricQuery, start: int, end: int)

  /** The partitions are copied and sorted; JSON and SHA-256 are taken to be injective on the rest. */
  function BuildCacheKey(r: Request, q: MetricQuery, f: TenantFilter, tr: TimeRange): CacheKey {
    CacheKey(r, f.tenantId, Sort(f.partitionIds), f.scoped, q, Bucket(tr.start), Bucket(tr.end))
  }

  predicate SameFingerprint(r1: Request, q1: MetricQuery, f1: TenantFilter, t1: TimeRange,
                            r2: Request, q2: MetricQuery, f2: TenantFilter, t2: TimeRange) {
    && r1 == r2 && q1 == q2
    && f1.scoped == f2.scoped && f1.tenantId == f2.tenantId
    && multiset(f1.partitionIds) == multiset(f2.partitionIds)
    && Bucket(t1.start) == Bucket(t2.start) && Bucket(t1.end) == Bucket(t2.end)
  }

  /** Two requests share a key exactly when they agree on kind, query, scope up to partition order, and minute. */
  lemma KeyExact(r1: Request, q1: MetricQuery, f1: TenantFilter, t1: TimeRange,
                 r2: Request, q2: MetricQuery, f2: TenantFilter, t2: TimeRange)
    ensures BuildCacheKey(r1, q1, f1, t1) == BuildCacheKey(r2, q2, f2, t2)
            <==> SameFingerprint(r1, q1, f1, t1, r2, q2, f2, t2)
    ensures BuildCacheKey(r1, q1, f1, t1) == BuildCacheKey(r2, q2, f2, t2) <==>
            && r1 == r2 && q1 == q2
            && f1.scoped == f2.scoped && f1.tenantId == f2.tenantId
            && multiset(f1.partitionIds) == multiset(f2.partitionIds)
            && t1.start / 60_000_000_000 == t2.start / 60_000_000_000
            && t1.end / 60_000_000_000 == t2.end / 60_000_000_000
  {
    SortCanonical(f1.partitionIds, f2.partitionIds);
  }

  lemma BucketWithinMinute(s: int, t: int)
    ensures Bucket(s) == Bucket(t) ==> -60_000_000_000 < s - t < 60_000_000_000
    ensures 0 <= t - Bucket(t) * 60_000_000_000 < 60_000_000_000
  {
  }

  function Lookup(entries: map<CacheKey, Timed<Answer>>, key: CacheKey, now: int): Option<Answer> {
    if key in entries && now <= entries[key].expiresAt then Some(entries[key].value) else None
  }

  class ResponseCache {
    const ttl: int
    const maxEntries: nat
    var entries: map<CacheKey, Timed<Answer>>
    ghost var puts: seq<Put<CacheKey, Answer>>

    ghost predicate Valid()
      reads this
    {
      entries == Replay(puts, maxEntries, ttl)
    }

    constructor (ttl: int)
      ensures Valid() && puts == [] && this.ttl == ttl && maxEntries == 4096
    {
      this.ttl := ttl;
      maxEntries := 4096;
      entries, puts := map[], [];
    }

    method Get(key: CacheKey, now: int) returns (r: Option<Answer>)
      ensures r == Lookup(entries, key, now)
    {
      if key !in entries || now > entries[key].expiresAt {
        return None;
      }
      return Some(entries[key].value);
    }

    method PutAnswer(key: CacheKey, value: Answer, now: int)
      requires Valid()
      modifies this
      ensures Valid() && puts == old(puts) + [Put(key, value, now)]
      ensures entries == PutIfRoom(old(entries), maxEntries, ttl, key, value, now)
    {
      ghost var before := puts;
      puts := puts + [Put(key, value, now)];
      assert puts[..|puts| - 1] == before;
      if |entries| >= maxEntries {
        entries := EvictExpired(entries, now);
        if |entries| >= maxEntries {
          return;
        }
      }
      entries := entries[key := Timed(value, now + ttl)];
    }
  }

  /** An answer that found room is served for its whole time to live, last instant included, whatever else is stored. */
  lemma {:induction false} StoredAnswerServed(puts: seq<Put<CacheKey, Answer>>, later: seq<Put<CacheKey, Answer>>,
                                              max: nat, ttl: int, p: Put<CacheKey, Answer>, now: int)
    requires |Live(Replay(puts, max, ttl), p.at)| < max
    requires forall e :: e in later ==> e.key != p.key && e.at <= p.at + ttl
    requires now <= p.at + ttl
    ensures Lookup(Replay(puts + [p] + later, max, ttl), p.key, now) == Some(p.value)
  {
    StoredAnswerStays(puts, later, max, ttl, p);
  }

  lemma {:induction false} StoredAnswerStays(puts: seq<Put<CacheKey, Answer>>, later: seq<Put<CacheKey, Answer>>,
                                             max: nat, ttl: int, p: Put<CacheKey, Answer>)
    requires |Live(Replay(puts, max, ttl), p.at)| < max
    requires forall e :: e in later ==> e.key != p.key && e.at <= p.at + ttl
    ensures var m := Replay(puts + [p] + later, max, ttl); p.key in m && m[p.key] == Timed(p.value, p.at + ttl)
    decreases |later|
  {
    hide Live, PutIfRoom;
    if later == [] {
      var all := puts + [p];
      assert all + later == all && all[..|all| - 1] == puts;
      ReplayFaithful(puts, max, ttl);
      PutIfRoomKeepsOthers(Replay(puts, max, ttl), max, ttl, p.key, p.value, p.at);
    } else {
      var n := |later| - 1;
      var e, all := later[n], puts + [p] + later;
      assert all[..|all| - 1] == puts + [p] + later[..n] && all[|all| - 1] == e;
      StoredAnswerStays(puts, later[..n], max, ttl, p);
      ReplayFaithful(puts + [p] + later[..n], max, ttl);
      PutIfRoomKeepsOthers(Replay(puts + [p] + later[..n], max, ttl), max, ttl, e.key, e.value, e.at);
    }
  }

  // ---------- faithfulness of what is served ----------

  /** One backend call whose answer was offered to the cache. */
  datatype Call = Call(request: Request, query: MetricQuery, filter: TenantFilter, range: TimeRange, answer: Answer,
                       at: int)

  function PutOf(c: Call): Put<CacheKey, Answer> {
    Put(BuildCacheKey(c.request, c.query, c.filter, c.range), c.answer, c.at)
  }

  function PutsOf(calls: seq<Call>): (r: seq<Put<CacheKey, Answer>>)
    ensures |r| == |calls|
  {
    seq(|calls|, i requires 0 <= i < |calls| => PutOf(calls[i]))
  }

  /**
   * Whatever calls filled the cache, an answer it serves was given by the backend at most ttl
   * earlier for the same kind, query, scope and minute-bucketed window, and has that kind's type.
   */
  lemma ServedAnswerFaithful(calls: seq<Call>, max: nat, ttl: int, r: Request, q: MetricQuery, f: TenantFilter,
                             tr: TimeRange, now: int)
    requires forall c :: c in calls ==> HasKind(c.answer, c.request)
    ensures |Replay(PutsOf(calls), max, ttl)| <= max
    ensures var served := Lookup(Replay(PutsOf(calls), max, ttl), BuildCacheKey(r, q, f, tr), now);
            served.Some? ==>
              && HasKind(served.value, r)
              && exists c :: c in calls && c.answer == served.value && now - ttl <= c.at
                             && SameFingerprint(c.request, c.query, c.filter, c.range, r, q, f, tr)
  {
    hide BuildCacheKey, Replay;
    var entries := Replay(PutsOf(calls), max, ttl);
    var key := BuildCacheKey(r, q, f, tr);
    ReplayFaithful(PutsOf(calls), max, ttl);
    if Lookup(entries, key, now).Some? {
      var p := Put(key, entries[key].value, entries[key].expiresAt - ttl);
      assert p in PutsOf(calls);
      var i :| 0 <= i < |calls| && PutOf(calls[i]) == p;
      var c := calls[i];
      KeyExact(c.request, c.query, c.filter, c.range, r, q, f, tr);
      assert c in calls;
    }
  }
}
