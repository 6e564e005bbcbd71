// What wildcard queries are sent over whole runs of the partition resolver, in
// which any number of callers take turns on the shared, compacted slices.
module PartitionRuns {
  import opened Wrappers
  import opened Compaction
  import opened TtlMap
  import opened Partitions

  type Caches<V> = seq<map<Caller, Timed<V>>>

  // ---------- prefixes of a run ----------

  lemma {:induction false} RunPrefix<V>(log: seq<Event>, caches: Caches<V>, ttl: int, max: nat, i: nat)
    requires i <= |log| && IsRun(log, caches, ttl, max)
    ensures |caches| == |log| + 1 && IsRun(log[..i], caches[..i + 1], ttl, max)
  {
    if i == |log| {
      assert log[..i] == log && caches[..i + 1] == caches;
    } else {
      var n := |log| - 1;
      RunPrefix(log[..n], caches[..n + 1], ttl, max, i);
      assert log[..n][..i] == log[..i] && caches[..n + 1][..i + 1] == caches[..i + 1];
    }
  }

  lemma StepAt<V>(log: seq<Event>, caches: Caches<V>, ttl: int, max: nat, i: nat)
    requires i < |log| && IsRun(log, caches, ttl, max)
    ensures |caches| == |log| + 1 && Step(log[..i], caches[i], log[i], caches[i + 1], ttl, max)
  {
    hide Step;
    RunPrefix(log, caches, ttl, max, i + 1);
    assert log[..i + 1][..i] == log[..i];
  }

  lemma {:induction false} RunBounded<V>(log: seq<Event>, caches: Caches<V>, ttl: int, max: nat, i: nat)
    requires 1 <= max && i <= |log| && IsRun(log, caches, ttl, max)
    ensures |caches[i]| <= max
  {
    hide Stored, Hits;
    if i == 0 {
      RunPrefix(log, caches, ttl, max, 0);
    } else {
      RunBounded(log, caches, ttl, max, i - 1);
      StepAt(log, caches, ttl, max, i - 1);
      var e := log[i - 1];
      if e.Fetched? {
        StoredWithinCapacity(caches[i - 1], caches[i], max, e.caller, caches[i][e.caller], e.swept);
      }
    }
  }

  /** Where a caller's last fetch stands in the log. */
  lemma {:induction false} LastFetchIndex(log: seq<Event>, caller: Caller) returns (i: nat)
    requires LastFetch(log, caller).Some?
    ensures i < |log| && log[i] == LastFetch(log, caller).value
  {
    i := |log| - 1;
    if !(log[i].Fetched? && log[i].caller == caller) {
      i := LastFetchIndex(log[..i], caller);
    }
  }

  /** Whatever is cached is its caller's last fetch. */
  lemma {:induction false} CachedIsLastFetch<V>(log: seq<Event>, caches: Caches<V>, ttl: int, max: nat, k: Caller)
    requires 1 <= max && IsRun(log, caches, ttl, max) && k in caches[|log|]
    ensures LastFetch(log, k).Some? && caches[|log|][k].expiresAt == LastFetch(log, k).value.at + ttl
  {
    hide Stored, Hits;
    if log != [] {
      var n := |log| - 1;
      var e := log[n];
      RunBounded(log, caches, ttl, max, n);
      if e.Fetched? {
        StoredWithinCapacity(caches[n], caches[n + 1], max, e.caller, caches[n + 1][e.caller], e.swept);
      }
      if !(e.Fetched? && e.caller == k) {
        CachedIsLastFetch(log[..n], caches[..n + 1], ttl, max, k);
      }
    }
  }

  // ---------- what is sent ----------

  /** How many lists were sent for the caller since its last fetch. */
  function Sends(log: seq<Event>, caller: Caller): nat {
    if log == [] then 0
    else
      var last, before := log[|log| - 1], log[..|log| - 1];
      if last.caller != caller then Sends(before, caller)
      else if last.Fetched? then 0
      else Sends(before, caller) + 1
  }

  /** Between two fetches a caller's array is its fetched list, compacted once per list sent. */
  lemma {:induction false} HeldIsIterated(log: seq<Event>, caller: Caller)
    requires LastFetch(log, caller).Some?
    ensures Held(log, caller) == Iterated(LastFetch(log, caller).value.list, Sends(log, caller))
  {
    var last := log[|log| - 1];
    if !(last.Fetched? && last.caller == caller) {
      HeldIsIterated(log[..|log| - 1], caller);
    }
  }

  predicate SameIds(ids: seq<string>, list: seq<string>) {
    "" !in ids && Ids(ids) == Ids(list)
  }

  lemma SentAt<V>(log: seq<Event>, caches: Caches<V>, ttl: int, max: nat, i: nat)
    requires 1 <= max && IsRun(log, caches, ttl, max) && i < |log| && log[i].Sent?
    ensures LastFetch(log[..i], log[i].caller).Some? && log[i].ids == NonEmpty(Held(log[..i], log[i].caller))
  {
    hide LastFetch, Held, NonEmpty, IsRun, Hits;
    StepAt(log, caches, ttl, max, i);
    RunPrefix(log, caches, ttl, max, i);
    CachedIsLastFetch(log[..i], caches[..i + 1], ttl, max, log[i].caller);
  }

  /** In every run, a wildcard query of a caller is sent exactly the non-empty ids of that caller's last fetch. */
  lemma SentIsLastFetch<V>(log: seq<Event>, caches: Caches<V>, ttl: int, max: nat, i: nat)
    requires 1 <= max && IsRun(log, caches, ttl, max) && i < |log| && log[i].Sent?
    ensures LastFetch(log[..i], log[i].caller).Some?
    ensures SameIds(log[i].ids, LastFetch(log[..i], log[i].caller).value.list)
  {
    var caller := log[i].caller;
    SentAt(log, caches, ttl, max, i);
    HeldIsIterated(log[..i], caller);
    SameIdsEveryTime(LastFetch(log[..i], caller).value.list, Sends(log[..i], caller));
  }

  /**
   * In every run, a list is sent only before its fetch has expired, or for the very query it was fetched for: once
   * expired it is never handed out again.
   */
  lemma SentIsFresh<V>(log: seq<Event>, caches: Caches<V>, ttl: int, max: nat, i: nat)
    requires 1 <= max && IsRun(log, caches, ttl, max) && i < |log| && log[i].Sent?
    ensures var fetch := LastFetch(log[..i], log[i].caller);
            && fetch.Some?
            && (|| log[i].asked < fetch.value.at + ttl
                || (i > 0 && fetch.value == log[i - 1] && log[i - 1].asked == log[i].asked))
  {
    hide IsRun, Held, NonEmpty, Stored;
    StepAt(log, caches, ttl, max, i);
    RunPrefix(log, caches, ttl, max, i);
    CachedIsLastFetch(log[..i], caches[..i + 1], ttl, max, log[i].caller);
  }

  /** Until the caller's next fetch its last fetch stays, and nothing other callers do touches its array. */
  lemma {:induction false} Undisturbed(log: seq<Event>, i: nat, j: nat, caller: Caller)
    requires i <= j <= |log|
    requires forall m :: i <= m < j ==> !(log[m].Fetched? && log[m].caller == caller)
    ensures LastFetch(log[..j], caller) == LastFetch(log[..i], caller)
    ensures Sends(log[..j], caller) >= Sends(log[..i], caller)
    ensures (forall m :: i <= m < j ==> log[m].caller != caller) ==> Held(log[..j], caller) == Held(log[..i], caller)
  {
    if i < j {
      Undisturbed(log, i, j - 1, caller);
      assert log[..j][..j - 1] == log[..j - 1] && log[..j][j - 1] == log[j - 1];
    }
  }

  lemma SendCounted(log: seq<Event>, i: nat)
    requires i < |log| && log[i].Sent?
    ensures Sends(log[..i + 1], log[i].caller) == Sends(log[..i], log[i].caller) + 1
  {
    assert log[..i + 1][..i] == log[..i];
  }

  /**
   * A list already sent shares its array with the cache. Whatever any caller asks until the next fetch, the array
   * still begins with that list, and so does every later list sent for the caller.
   */
  lemma SentListsStay<V>(log: seq<Event>, caches: Caches<V>, ttl: int, max: nat, i: nat, j: nat)
    requires 1 <= max && IsRun(log, caches, ttl, max) && i < j <= |log| && log[i].Sent?
    requires forall m :: i <= m < j ==> !(log[m].Fetched? && log[m].caller == log[i].caller)
    ensures log[i].ids <= Held(log[..j], log[i].caller)
    ensures j < |log| && log[j].Sent? && log[j].caller == log[i].caller ==> log[i].ids <= log[j].ids
  {
    hide IsRun, Held, Iterated, Sends, LastFetch, Compacted;
    var caller := log[i].caller;
    SentAt(log, caches, ttl, max, i);
    HeldIsIterated(log[..i], caller);
    Undisturbed(log, i, j, caller);
    Undisturbed(log, i + 1, j, caller);
    SendCounted(log, i);
    HeldIsIterated(log[..j], caller);
    var list, n, more := LastFetch(log[..i], caller).value.list, Sends(log[..i], caller), Sends(log[..j], caller);
    IteratedAgain(list, n, more - n);
    DeliveredListUndisturbed(Iterated(list, n), more - n);
    if j < |log| && log[j].Sent? && log[j].caller == caller { SentAt(log, caches, ttl, max, j); }
  }

  lemma {:induction false} IteratedAgain(s: seq<string>, m: nat, n: nat)
    ensures Iterated(Iterated(s, m), n) == Iterated(s, m + n)
  {
    if n > 0 { IteratedAgain(s, m, n - 1); }
  }

  // ---------- one insertion ----------

  /** Every other entry that can still answer a query is kept. */
  ghost predicate Keeps<K, V>(before: map<K, Timed<V>>, after: map<K, Timed<V>>, key: K, at: int) {
    forall k :: k in before && k != key && at < before[k].expiresAt ==> k in after && after[k] == before[k]
  }

  /** The sweep frees a slot, or there is nothing left to lose. */
  predicate SafeStore<K, V>(before: map<K, Timed<V>>, max: nat, key: K, swept: int, at: int) {
    |Live(before, swept)| < max || forall k :: k in before && k != key ==> before[k].expiresAt <= at
  }

  lemma {:induction false} SubsetAround<T>(s: set<T>, x: T, n: nat) returns (r: set<T>)
    requires x in s && 1 <= n <= |s|
    ensures x in r && r <= s && |r| == n
  {
    if n == 1 {
      r := {x};
    } else {
      var rest := SubsetAround(s, x, n - 1);
      assert rest != s;
      var y :| y in s && y !in rest;
      r := rest + {y};
    }
  }

  /** An unsafe insertion may drop any other entry, in particular one that could still answer. */
  lemma UnsafeStoreDrops<K, V>(before: map<K, Timed<V>>, max: nat, key: K, e: Timed<V>, swept: int, gone: K)
    returns (after: map<K, Timed<V>>)
    requires 1 <= max && |before| <= max && |Live(before, swept)| >= max
    requires gone in before && gone != key
    ensures Stored(before, after, max, key, e, swept) && gone !in after && key in after && after[key] == e
  {
    LiveWhenAllLive(before, swept);
    var dropped := SubsetAround(before.Keys, gone, HalfOf(max));
    after := (Live(before, swept) - dropped)[key := e];
  }

  lemma SafeStoreKeeps<K, V>(before: map<K, Timed<V>>, after: map<K, Timed<V>>, max: nat, key: K, e: Timed<V>,
                             swept: int, at: int)
    requires 1 <= max && |before| <= max && swept <= at
    requires Stored(before, after, max, key, e, swept) && SafeStore(before, max, key, swept, at)
    ensures Keeps(before, after, key, at)
  {
    hide Stored, Live;
    StoredWithinCapacity(before, after, max, key, e, swept);
  }

  /** Over all caches: whatever it evicts, an insertion keeps every entry that can still answer exactly when safe. */
  lemma StoreKeepsExactly<K(!new), V(!new)>(before: map<K, Timed<V>>, max: nat, key: K, e: Timed<V>, swept: int,
                                            at: int)
    requires 1 <= max && |before| <= max && swept <= at
    ensures (forall after :: Stored(before, after, max, key, e, swept) ==> Keeps(before, after, key, at))
            <==> SafeStore(before, max, key, swept, at)
  {
    hide Stored;
    if SafeStore(before, max, key, swept, at) {
      forall after | Stored(before, after, max, key, e, swept) ensures Keeps(before, after, key, at) {
        SafeStoreKeeps(before, after, max, key, e, swept, at);
      }
    } else {
      var k :| k in before && k != key && at < before[k].expiresAt;
      var after := UnsafeStoreDrops(before, max, key, e, swept, k);
      assert !Keeps(before, after, key, at);
    }
  }

  // ---------- within the time to live ----------

  /** Queries are asked one after the other, and a list is stored before the next one is fetched. */
  predicate InOrder(log: seq<Event>) {
    && (forall i, j :: 0 <= i < j < |log| ==> log[i].asked <= log[j].asked)
    && (forall i :: 0 <= i < |log| && log[i].Fetched? ==> log[i].asked <= log[i].swept <= log[i].at)
    && (forall i, j :: 0 <= i < j < |log| && log[i].Fetched? && log[j].Fetched? ==> log[i].at <= log[j].asked)
  }

  /** Each query within the time to live of a fetch of its caller is sent that fetch's ids. */
  predicate SameWithin(log: seq<Event>, ttl: int) {
    forall i, j | 0 <= i < j < |log| && AnswersWithin(log[i], log[j], ttl) :: SameIds(log[j].ids, log[i].list)
  }

  predicate AnswersWithin(fetch: Event, sent: Event, ttl: int) {
    fetch.Fetched? && sent.Sent? && sent.caller == fetch.caller && sent.asked < fetch.at + ttl
  }

  predicate SafeRun<V>(log: seq<Event>, caches: Caches<V>, max: nat)
    requires |caches| == |log| + 1
  {
    forall i :: 0 <= i < |log| && log[i].Fetched? ==>
      SafeStore(caches[i], max, log[i].caller, log[i].swept, log[i].at)
  }

  /** A list was stored, for whichever caller, once the fetch at i had expired. */
  ghost predicate Overtaken(log: seq<Event>, ttl: int, i: nat, j: nat)
    requires i < j <= |log| && log[i].Fetched?
  {
    exists m :: i < m < j && log[m].Fetched? && log[i].at + ttl <= log[m].at
  }

  /** The caller of the fetch at i was fetched anew, once that had expired. */
  ghost predicate Renewed(log: seq<Event>, ttl: int, i: nat, j: nat)
    requires i < j <= |log| && log[i].Fetched?
  {
    exists m :: i < m < j && log[m].Fetched? && log[m].caller == log[i].caller && log[i].at + ttl <= log[m].asked
  }

  /** In a safe run a fetch stays its caller's last one, and cached, until it has expired. */
  lemma {:induction false} StaysUntilExpiry<V>(log: seq<Event>, caches: Caches<V>, ttl: int, max: nat, i: nat, j: nat)
    requires 1 <= max && IsRun(log, caches, ttl, max) && InOrder(log) && SafeRun(log, caches, max)
    requires i < j <= |log| && log[i].Fetched?
    ensures var c, expiry := log[i].caller, log[i].at + ttl;
            || Renewed(log, ttl, i, j)
            || (LastFetch(log[..j], c) == Some(log[i])
                && ((c in caches[j] && caches[j][c].expiresAt == expiry) || Overtaken(log, ttl, i, j)))
  {
    hide IsRun, Stored, SafeStore, LastFetch, Held;
    var c, expiry, n := log[i].caller, log[i].at + ttl, j - 1;
    var e := log[n];
    assert log[..j] == log[..n] + [e];
    LogStep(log[..n], e);
    StepAt(log, caches, ttl, max, n);
    RunBounded(log, caches, ttl, max, n);
    if i < n {
      StaysUntilExpiry(log, caches, ttl, max, i, n);
      if e.Fetched? && e.caller != c {
        var entry := caches[j][e.caller];
        StoredWithinCapacity(caches[n], caches[j], max, e.caller, entry, e.swept);
        SafeStoreKeeps(caches[n], caches[j], max, e.caller, entry, e.swept, e.at);
      }
    }
  }

  /**
   * Over every safe run, however the callers' queries interleave, each wildcard query within the time to live of a
   * fetch of its caller is sent the same set of ids: the non-empty ones of that fetch.
   */
  lemma SameSetWithinTTL<V>(log: seq<Event>, caches: Caches<V>, ttl: int, max: nat)
    requires 1 <= max && IsRun(log, caches, ttl, max) && InOrder(log) && SafeRun(log, caches, max)
    ensures SameWithin(log, ttl)
  {
    hide IsRun, SafeStore, LastFetch, SameIds, SafeRun;
    forall i, j | 0 <= i < j < |log| && AnswersWithin(log[i], log[j], ttl) ensures SameIds(log[j].ids, log[i].list) {
      StaysUntilExpiry(log, caches, ttl, max, i, j);
      SentIsLastFetch(log, caches, ttl, max, j);
    }
  }
}
