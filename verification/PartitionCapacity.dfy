// How many callers a partition cache of a given capacity serves with one set of
// ids for a whole time to live: the exact number, with the runs that need it.
module PartitionCapacity {
  import opened Wrappers
  import opened Compaction
  import opened TtlMap
  import opened Partitions
  import opened PartitionRuns

  predicate By(log: seq<Event>, callers: set<Caller>) {
    forall e :: e in log ==> e.caller in callers
  }

  /** No list is fetched anew with the cache swept at the very instant its predecessor expires. */
  predicate NeverAtExpiry<V>(log: seq<Event>, caches: Caches<V>)
    requires |caches| == |log| + 1
  {
    forall i :: 0 <= i < |log| && log[i].Fetched? ==> OffExpiry(caches[i], log[i].caller, log[i].swept)
  }

  predicate OffExpiry<V>(cache: map<Caller, Timed<V>>, caller: Caller, swept: int) {
    caller in cache ==> swept != cache[caller].expiresAt
  }

  /** Everything in the log has happened by then. */
  predicate Until(log: seq<Event>, t: int) {
    forall e :: e in log ==> e.asked <= t && (e.Fetched? ==> e.at <= t)
  }

  // ---------- enough room ----------

  lemma {:induction false} CachedAreCallers<V>(log: seq<Event>, caches: Caches<V>, ttl: int, max: nat,
                                               callers: set<Caller>, i: nat)
    requires 1 <= max && IsRun(log, caches, ttl, max) && By(log, callers) && i <= |log|
    ensures caches[i].Keys <= callers
  {
    hide IsRun;
    RunPrefix(log, caches, ttl, max, i);
    forall k | k in caches[i] ensures k in callers {
      CachedIsLastFetch(log[..i], caches[..i + 1], ttl, max, k);
      var m := LastFetchIndex(log[..i], k);
      assert log[m] in log;
    }
  }

  /** Fewer callers than slots, or as many and never a fetch at the expiry instant, or one caller alone. */
  predicate Roomy(callers: set<Caller>, max: nat, offExpiry: bool) {
    |callers| < max || |callers| <= 1 || (|callers| == max && offExpiry)
  }

  lemma RoomySafe<V>(log: seq<Event>, caches: Caches<V>, ttl: int, max: nat, callers: set<Caller>, offExpiry: bool,
                     i: nat)
    requires 1 <= max && IsRun(log, caches, ttl, max) && InOrder(log) && By(log, callers)
    requires offExpiry ==> NeverAtExpiry(log, caches)
    requires Roomy(callers, max, offExpiry)
    requires i < |log| && log[i].Fetched?
    ensures SafeStore(caches[i], max, log[i].caller, log[i].swept, log[i].at)
  {
    hide IsRun, Stored;
    StepAt(log, caches, ttl, max, i);
    var cache, e := caches[i], log[i];
    CachedAreCallers(log, caches, ttl, max, callers, i);
    var live := Live(cache, e.swept);
    SubsetSize(live.Keys, callers);
    assert |live| == |live.Keys| && e.caller in callers;
    if |callers| <= 1 {
      OnlyOne(callers, e.caller);
    } else if |live| == max {
      FullSubset(live.Keys, callers);
    }
  }

  lemma OnlyOne<T>(s: set<T>, x: T)
    requires |s| <= 1 && x in s
    ensures s == {x}
  {
    if s != {x} {
      SubsetSize({x}, s);
      var y :| y in s && y != x;
      SubsetSize({x, y}, s);
    }
  }

  lemma FullSubset<T>(a: set<T>, b: set<T>)
    requires a <= b && |a| == |b|
    ensures a == b
  {
    if a != b {
      var x :| x in b && x !in a;
      SubsetSize(a + {x}, b);
    }
  }

  /** Without time to live there is nothing to keep. */
  lemma NoTimeSafe<V>(log: seq<Event>, caches: Caches<V>, ttl: int, max: nat, i: nat)
    requires 1 <= max && IsRun(log, caches, ttl, max) && InOrder(log) && ttl < 1
    requires i < |log| && log[i].Fetched?
    ensures SafeStore(caches[i], max, log[i].caller, log[i].swept, log[i].at)
  {
    hide IsRun;
    RunPrefix(log, caches, ttl, max, i);
    forall k | k in caches[i] ensures caches[i][k].expiresAt <= log[i].at {
      CachedIsLastFetch(log[..i], caches[..i + 1], ttl, max, k);
      var m := LastFetchIndex(log[..i], k);
      assert log[m].at <= log[i].asked;
    }
  }

  lemma EnoughRoom<V>(log: seq<Event>, caches: Caches<V>, ttl: int, max: nat, callers: set<Caller>, offExpiry: bool)
    requires 1 <= max && IsRun(log, caches, ttl, max) && InOrder(log) && By(log, callers)
    requires offExpiry ==> NeverAtExpiry(log, caches)
    requires ttl < 1 || Roomy(callers, max, offExpiry)
    ensures SameWithin(log, ttl)
  {
    hide IsRun, SafeStore, InOrder, SameWithin, NeverAtExpiry;
    RunPrefix(log, caches, ttl, max, 0);
    forall i | 0 <= i < |log| && log[i].Fetched?
      ensures SafeStore(caches[i], max, log[i].caller, log[i].swept, log[i].at)
    {
      if ttl < 1 {
        NoTimeSafe(log, caches, ttl, max, i);
      } else {
        RoomySafe(log, caches, ttl, max, callers, offExpiry, i);
      }
    }
    SameSetWithinTTL(log, caches, ttl, max);
  }

  // ---------- not enough room ----------

  predicate LegalFetch(e: Event) {
    e.Fetched? && e.list != [] && e.list[0] == e.caller.partition
  }

  /** A list for the same caller with other ids. */
  function Other(caller: Caller, list: seq<string>): (r: seq<string>)
    ensures r != [] && r[0] == caller.partition
  {
    var own := caller.partition;
    if Ids(list) == Ids([own]) then [own, own + "c"] else [own]
  }

  lemma OtherDiffers(caller: Caller, list: seq<string>)
    ensures Ids(NonEmpty(Other(caller, list))) != Ids(list)
  {
    var own, other := caller.partition, Other(caller, list);
    NonEmptySpec(other);
    assert Ids(NonEmpty(other)) == Ids(other);
    if Ids(list) == Ids([own]) {
      assert other[1] in Ids(other);
      assert own + "c" != own;
    }
  }

  lemma SomeStore<K, V>(before: map<K, Timed<V>>, max: nat, key: K, e: Timed<V>, swept: int)
    returns (after: map<K, Timed<V>>)
    requires 1 <= max && |before| <= max
    ensures Stored(before, after, max, key, e, swept) && key in after && after[key] == e
  {
    if |before| < max {
      after := before[key := e];
    } else if |Live(before, swept)| < max {
      after := Live(before, swept)[key := e];
    } else {
      var k :| k in before.Keys;
      var dropped := SubsetAround(before.Keys, k, HalfOf(max));
      after := (Live(before, swept) - dropped)[key := e];
    }
  }

  lemma ByStep(log: seq<Event>, e: Event, callers: set<Caller>)
    ensures By(log + [e], callers) <==> By(log, callers) && e.caller in callers
  {
    assert e in log + [e];
  }

  lemma NeverAtExpiryStep<V>(log: seq<Event>, caches: Caches<V>, e: Event, next: map<Caller, Timed<V>>)
    requires |caches| == |log| + 1
    requires NeverAtExpiry(log, caches) && (e.Fetched? ==> OffExpiry(caches[|log|], e.caller, e.swept))
    ensures NeverAtExpiry(log + [e], caches + [next])
  {
  }

  /** A caller with nothing cached asks: its list is fetched, stored and sent, all at one time. */
  lemma FetchAndSend<V>(log: seq<Event>, caches: Caches<V>, ttl: int, max: nat, d: Caller, list: seq<string>, t: int,
                        v: V)
    returns (log': seq<Event>, caches': Caches<V>)
    requires 1 <= max && IsRun(log, caches, ttl, max) && InOrder(log)
    requires Until(log, t)
    requires d !in caches[|log|] && list != [] && list[0] == d.partition
    ensures IsRun(log', caches', ttl, max) && InOrder(log')
    ensures log' == log + [Fetched(d, list, t, t, t), Sent(d, NonEmpty(list), t)]
    ensures NeverAtExpiry(log, caches) ==> NeverAtExpiry(log', caches')
  {
    hide IsRun, Stored, NonEmpty, Held, LastFetch, NeverAtExpiry;
    RunBounded(log, caches, ttl, max, |log|);
    RunPrefix(log, caches, ttl, max, |log|);
    var f, g := Fetched(d, list, t, t, t), Sent(d, NonEmpty(list), t);
    var next := SomeStore(caches[|log|], max, d, Timed(v, t + ttl), t);
    RunStep(log, caches, f, next, ttl, max);
    LogStep(log, f);
    var log1, caches1 := log + [f], caches + [next];
    RunStep(log1, caches1, g, next, ttl, max);
    log', caches' := log1 + [g], caches1 + [next];
    if NeverAtExpiry(log, caches) {
      NeverAtExpiryStep(log, caches, f, next);
      NeverAtExpiryStep(log1, caches1, g, next);
    }
    StillInOrder(log, t, log');
  }

  lemma StillInOrder(log: seq<Event>, t: int, log': seq<Event>)
    requires InOrder(log)
    requires Until(log, t)
    requires log <= log'
    requires forall i :: |log| <= i < |log'| ==> log'[i].asked == t
                                                 && (log'[i].Fetched? ==> log'[i].swept == log'[i].at == t)
    ensures InOrder(log')
    ensures Until(log', t)
  {
    forall i | 0 <= i < |log| ensures log'[i] == log[i] && log[i] in log {}
  }

  /**
   * Whatever run has led to it, a fetch that is not safely stored can be continued so that another caller is sent
   * other ids within its time to live.
   */
  lemma UnsafeFetchBreaks<V>(log: seq<Event>, caches: Caches<V>, e: Event, ttl: int, max: nat, v: V)
    returns (log': seq<Event>, caches': Caches<V>)
    requires 1 <= max && IsRun(log, caches, ttl, max) && InOrder(log + [e])
    requires LegalFetch(e) && !Hits(caches[|log|], e.caller, e.asked)
    requires !SafeStore(caches[|log|], max, e.caller, e.swept, e.at)
    ensures IsRun(log', caches', ttl, max) && InOrder(log') && log + [e] <= log' && !SameWithin(log', ttl)
    ensures forall callers :: By(log + [e], callers) ==> By(log', callers)
    ensures NeverAtExpiry(log, caches) && OffExpiry(caches[|log|], e.caller, e.swept) ==> NeverAtExpiry(log', caches')
  {
    hide IsRun, Stored, NonEmpty, Held, LastFetch, Live, NeverAtExpiry, InOrder, Ids;
    RunPrefix(log, caches, ttl, max, |log|);
    RunBounded(log, caches, ttl, max, |log|);
    var cache := caches[|log|];
    var d :| d in cache && d != e.caller && e.at < cache[d].expiresAt;
    CachedIsLastFetch(log, caches, ttl, max, d);
    var i := LastFetchIndex(log, d);
    var next := UnsafeStoreDrops(cache, max, e.caller, Timed(v, e.at + ttl), e.swept, d);
    RunStep(log, caches, e, next, ttl, max);
    UpToDate(log, e);
    var list := Other(d, log[i].list);
    log', caches' := FetchAndSend(log + [e], caches + [next], ttl, max, d, list, e.at, v);
    if NeverAtExpiry(log, caches) && OffExpiry(cache, e.caller, e.swept) { NeverAtExpiryStep(log, caches, e, next); }
    OtherDiffers(d, log[i].list);
    var j := |log| + 2;
    assert log'[i] == log[i] && AnswersWithin(log'[i], log'[j], ttl) && !SameIds(log'[j].ids, log'[i].list);
    forall callers | By(log + [e], callers) ensures By(log', callers) {
      assert log[i] in log + [e];
    }
  }

  lemma UpToDate(log: seq<Event>, e: Event)
    requires InOrder(log + [e]) && e.Fetched?
    ensures InOrder(log)
    ensures Until(log + [e], e.at)
  {
    var all := log + [e];
    assert all[|log|] == e;
    forall i | 0 <= i < |log| ensures log[i].asked <= e.at && (log[i].Fetched? ==> log[i].at <= e.at) {
      assert all[i] == log[i];
    }
    assert forall i, j :: 0 <= i < j < |log| ==> log[i] == all[i] && log[j] == all[j];
  }

  // ---------- the exact capacity ----------

  /** The cache has an entry for each of the callers, all stored at one time, beside what it had before. */
  predicate Filled<V>(before: map<Caller, Timed<V>>, after: map<Caller, Timed<V>>, callers: set<Caller>, expiry: int) {
    && after.Keys == before.Keys + callers
    && (forall k :: k in callers ==> after[k].expiresAt == expiry)
    && (forall k :: k in before ==> after[k].expiresAt == before[k].expiresAt)
  }

  lemma FilledOne<V>(before: map<Caller, Timed<V>>, after: map<Caller, Timed<V>>, callers: set<Caller>, c: Caller,
                     e: Timed<V>)
    requires c in callers && c !in before
    requires Filled(before[c := e], after, callers - {c}, e.expiresAt)
    ensures Filled(before, after, callers, e.expiresAt)
  {
    var mid := before[c := e];
    assert mid.Keys == before.Keys + {c};
    forall k | k in before ensures mid[k] == before[k] {}
    assert mid[c] == e;
  }

  lemma AddOne<V>(log: seq<Event>, caches: Caches<V>, ttl: int, max: nat, c: Caller, t: int, v: V)
    returns (log': seq<Event>, caches': Caches<V>)
    requires 1 <= max && IsRun(log, caches, ttl, max) && InOrder(log) && NeverAtExpiry(log, caches)
    requires Until(log, t)
    requires c !in caches[|log|] && |caches[|log|]| < max
    ensures IsRun(log', caches', ttl, max) && InOrder(log') && NeverAtExpiry(log', caches')
    ensures Until(log', t)
    ensures caches'[|log'|] == caches[|log|][c := Timed(v, t + ttl)]
    ensures forall all :: By(log, all) && c in all ==> By(log', all)
  {
    hide IsRun, InOrder, NeverAtExpiry, LastFetch, Held;
    RunPrefix(log, caches, ttl, max, |log|);
    var f, next := Fetched(c, [c.partition], t, t, t), caches[|log|][c := Timed(v, t + ttl)];
    log', caches' := log + [f], caches + [next];
    RunStep(log, caches, f, next, ttl, max);
    StillInOrder(log, t, log');
    NeverAtExpiryStep(log, caches, f, next);
    forall all | By(log, all) && c in all ensures By(log', all) { ByStep(log, f, all); }
  }

  /** While there are slots, any number of new callers can be served at one time. */
  lemma {:induction false} Fill<V>(log: seq<Event>, caches: Caches<V>, ttl: int, max: nat, callers: set<Caller>, t: int,
                                   v: V)
    returns (log': seq<Event>, caches': Caches<V>)
    requires 1 <= max && IsRun(log, caches, ttl, max) && InOrder(log) && NeverAtExpiry(log, caches)
    requires Until(log, t)
    requires callers !! caches[|log|].Keys && |caches[|log|]| + |callers| <= max
    ensures IsRun(log', caches', ttl, max) && InOrder(log') && NeverAtExpiry(log', caches')
    ensures Until(log', t)
    ensures Filled(caches[|log|], caches'[|log'|], callers, t + ttl)
    ensures forall all :: By(log, all) && callers <= all ==> By(log', all)
    decreases |callers|
  {
    hide IsRun, InOrder, NeverAtExpiry, By, Until;
    RunPrefix(log, caches, ttl, max, |log|);
    if callers == {} {
      log', caches' := log, caches;
    } else {
      var c :| c in callers;
      UpdateSize(caches[|log|], c, Timed(v, t + ttl));
      var log1, caches1 := AddOne(log, caches, ttl, max, c, t, v);
      RunPrefix(log1, caches1, ttl, max, |log1|);
      log', caches' := Fill(log1, caches1, ttl, max, callers - {c}, t, v);
      RunPrefix(log', caches', ttl, max, |log'|);
      hide Filled;
      FilledOne(caches[|log|], caches'[|log'|], callers, c, Timed(v, t + ttl));
    }
  }

  ghost predicate AllRunsSame<V(!new)>(callers: set<Caller>, ttl: int, max: nat, offExpiry: bool) {
    forall log: seq<Event>, caches: Caches<V> ::
      IsRun(log, caches, ttl, max) && InOrder(log) && By(log, callers) && (offExpiry ==> NeverAtExpiry(log, caches))
      ==> SameWithin(log, ttl)
  }

  /** A further fetch, by a caller with no live entry or at its expiry instant, into a cache full of live entries. */
  lemma FullCacheBreaks<V(!new)>(log: seq<Event>, caches: Caches<V>, e: Event, ttl: int, max: nat, callers: set<Caller>,
                                 offExpiry: bool, d: Caller, v: V)
    requires 1 <= max && IsRun(log, caches, ttl, max) && InOrder(log + [e]) && By(log + [e], callers)
    requires LegalFetch(e) && !Hits(caches[|log|], e.caller, e.asked)
    requires offExpiry ==> NeverAtExpiry(log, caches) && OffExpiry(caches[|log|], e.caller, e.swept)
    requires |caches[|log|]| == max && forall k :: k in caches[|log|] ==> e.swept <= caches[|log|][k].expiresAt
    requires d in caches[|log|] && d != e.caller && e.at < caches[|log|][d].expiresAt
    ensures !AllRunsSame<V>(callers, ttl, max, offExpiry)
  {
    hide IsRun, InOrder, NeverAtExpiry, SameWithin, By;
    RunPrefix(log, caches, ttl, max, |log|);
    assert Live(caches[|log|], e.swept) == caches[|log|];
    var log', caches' := UnsafeFetchBreaks(log, caches, e, ttl, max, v);
  }

  lemma Smaller<T>(s: set<T>, n: nat) returns (r: set<T>)
    requires n <= |s|
    ensures r <= s && |r| == n
  {
    if n == 0 {
      r := {};
    } else {
      var x :| x in s;
      r := SubsetAround(s, x, n);
    }
  }

  lemma TooManyCallers<V(!new)>(callers: set<Caller>, ttl: int, max: nat, offExpiry: bool, v: V)
    requires 1 <= max < |callers| && 1 <= ttl
    ensures !AllRunsSame<V>(callers, ttl, max, offExpiry)
  {
    hide IsRun, AllRunsSame, Live;
    var first := Smaller(callers, max);
    if callers <= first { SubsetSize(callers, first); }
    var c :| c in callers && c !in first;
    var d :| d in first;
    EmptyRun<V>(ttl, max);
    var log, caches := Fill([], [map[]], ttl, max, first, 0, v);
    RunPrefix(log, caches, ttl, max, |log|);
    var e := Fetched(c, [c.partition], 0, 0, 0);
    StillInOrder(log, 0, log + [e]);
    ByStep(log, e, callers);
    assert By([], callers);
    assert |caches[|log|]| == |caches[|log|].Keys| && caches[|log|].Keys == first;
    FullCacheBreaks(log, caches, e, ttl, max, callers, offExpiry, d, v);
  }

  lemma EmptyRun<V>(ttl: int, max: nat)
    ensures IsRun<V>([], [map[]], ttl, max)
  {
  }

  lemma FetchAtExpiryBreaks<V(!new)>(callers: set<Caller>, ttl: int, max: nat, v: V)
    requires 2 <= max == |callers| && 1 <= ttl
    ensures !AllRunsSame<V>(callers, ttl, max, false)
  {
    hide IsRun, AllRunsSame, Live;
    var c :| c in callers;
    var others := callers - {c};
    assert |others| == |callers| - 1;
    var d :| d in others;
    EmptyRun<V>(ttl, max);
    var log1, caches1 := Fill([], [map[]], ttl, max, {c}, 0, v);
    RunPrefix(log1, caches1, ttl, max, |log1|);
    assert |caches1[|log1|]| == |caches1[|log1|].Keys| && caches1[|log1|].Keys == {c};
    var log, caches := Fill(log1, caches1, ttl, max, others, 1, v);
    RunPrefix(log, caches, ttl, max, |log|);
    var e := Fetched(c, [c.partition], ttl, ttl, ttl);
    StillInOrder(log, ttl, log + [e]);
    ByStep(log, e, callers);
    assert By([], callers) && By(log1, callers);
    assert |caches[|log|]| == |caches[|log|].Keys| && caches[|log|].Keys == callers;
    FullCacheBreaks(log, caches, e, ttl, max, callers, false, d, v);
  }

  /**
   * For every set of callers, capacity and time to live: all their runs, in any interleaving, are sent one set of ids
   * per fetch for its whole time to live exactly when there are fewer of them than slots, or one alone; and, among the
   * runs that never sweep at an entry's expiry instant, exactly when there are no more of them than slots.
   */
  lemma CapacityExactly<V(!new)>(callers: set<Caller>, ttl: int, max: nat, v: V)
    requires 1 <= max
    ensures AllRunsSame<V>(callers, ttl, max, false) <==> ttl < 1 || |callers| < max || |callers| <= 1
    ensures AllRunsSame<V>(callers, ttl, max, true) <==> ttl < 1 || |callers| <= max
  {
    hide InOrder, NeverAtExpiry, SameWithin, By, Step;
    forall offExpiry: bool | ttl < 1 || Roomy(callers, max, offExpiry)
      ensures AllRunsSame<V>(callers, ttl, max, offExpiry)
    {
      forall log: seq<Event>, caches: Caches<V>
        | IsRun(log, caches, ttl, max) && InOrder(log) && By(log, callers) && (offExpiry ==> NeverAtExpiry(log, caches))
        ensures SameWithin(log, ttl)
      {
        EnoughRoom(log, caches, ttl, max, callers, offExpiry);
      }
    }
    if 1 <= ttl && max < |callers| {
      TooManyCallers(callers, ttl, max, false, v);
      TooManyCallers(callers, ttl, max, true, v);
    } else if 1 <= ttl && max == |callers| && 2 <= max {
      FetchAtExpiryBreaks(callers, ttl, max, v);
    }
  }
}
