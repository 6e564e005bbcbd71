// Maps whose entries expire: the part the four caches of the service share.
module TtlMap {
  datatype Timed<+V> = Timed(value: V, expiresAt: int)

  /** Entries that are not past their expiry. An entry is still live at its expiry instant. */
  function Live<K, V>(m: map<K, Timed<V>>, now: int): (r: map<K, Timed<V>>)
    ensures |r| <= |m|
  {
    var r := map k | k in m && now <= m[k].expiresAt :: m[k];
    Submap(r, m);
    r
  }

  lemma Submap<K, V>(a: map<K, V>, b: map<K, V>)
    requires a.Keys <= b.Keys
    ensures |a| <= |b|
  {
    assert |a| == |a.Keys| && |b| == |b.Keys|;
    SubsetSize(a.Keys, b.Keys);
  }

  lemma {:induction false} SubsetSize<T>(a: set<T>, b: set<T>)
    requires a <= b
    ensures |a| <= |b|
  {
    if a != {} {
      var x :| x in a;
      SubsetSize(a - {x}, b - {x});
    }
  }

  lemma UpdateSize<K, V>(m: map<K, V>, k: K, v: V)
    ensures |m[k := v]| == if k in m then |m| else |m| + 1
  {
  }

  lemma RemoveSize<K, V>(m: map<K, V>, ks: set<K>)
    requires ks <= m.Keys
    ensures |m - ks| == |m| - |ks|
  {
  }

  /** The deletion loop: one pass over the keys in whatever order the map yields them. */
  method EvictExpired<K, V>(m: map<K, Timed<V>>, now: int) returns (r: map<K, Timed<V>>)
    ensures r == Live(m, now)
    ensures forall k :: k in r <==> k in m && now <= m[k].expiresAt
    ensures forall k :: k in r ==> r[k] == m[k]
  {
    r := m;
    var rest := m.Keys;
    while rest != {}
      invariant rest <= m.Keys
      invariant r == map k | k in m && (k in rest || now <= m[k].expiresAt) :: m[k]
    {
      var k :| k in rest;
      rest := rest - {k};
      if now > r[k].expiresAt {
        r := r - {k};
      }
    }
  }

  // ---------- bounded insertion that gives up when full ----------

  /** The response cache: expire when full, and skip the entry if every slot is still live. */
  function PutIfRoom<K, V>(m: map<K, Timed<V>>, max: nat, ttl: int, key: K, value: V, now: int): map<K, Timed<V>> {
    var kept := if |m| >= max then Live(m, now) else m;
    if |kept| >= max then kept else kept[key := Timed(value, now + ttl)]
  }

  lemma PutIfRoomKeepsOthers<K, V>(m: map<K, Timed<V>>, max: nat, ttl: int, key: K, value: V, now: int)
    requires |m| <= max
    ensures var r := PutIfRoom(m, max, ttl, key, value, now);
            && |r| <= max
            && (forall k :: k in m && k != key && now <= m[k].expiresAt ==> k in r && r[k] == m[k])
            && (forall k :: k in r && k != key ==> k in m && r[k] == m[k])
            && (key in r ==> r[key] == Timed(value, now + ttl) || (key in m && r[key] == m[key]))
            && (|Live(m, now)| < max ==> key in r && r[key] == Timed(value, now + ttl))
  {
  }

  /** A full cache gives up everything that has expired. */
  lemma FullCacheIsSwept<K, V>(m: map<K, Timed<V>>, max: nat, ttl: int, key: K, value: V, now: int)
    requires |m| >= max
    ensures forall k :: k in PutIfRoom(m, max, ttl, key, value, now) && k != key ==> k in m && now <= m[k].expiresAt
  {
  }

  datatype Put<K, V> = Put(key: K, value: V, at: int)

  /** The cache after a history of insertions. */
  function Replay<K, V>(puts: seq<Put<K, V>>, max: nat, ttl: int): map<K, Timed<V>> {
    if puts == [] then map[]
    else
      var p := puts[|puts| - 1];
      PutIfRoom(Replay(puts[..|puts| - 1], max, ttl), max, ttl, p.key, p.value, p.at)
  }

  /** Over any history the cache is bounded, and every entry was inserted, with its value, ttl before its expiry. */
  lemma {:induction false} ReplayFaithful<K, V>(puts: seq<Put<K, V>>, max: nat, ttl: int)
    ensures |Replay(puts, max, ttl)| <= max
    ensures forall k :: k in Replay(puts, max, ttl) ==>
              var e := Replay(puts, max, ttl)[k]; Put(k, e.value, e.expiresAt - ttl) in puts
  {
    if puts != [] {
      var p := puts[|puts| - 1];
      var before := puts[..|puts| - 1];
      ReplayFaithful(before, max, ttl);
      PutIfRoomKeepsOthers(Replay(before, max, ttl), max, ttl, p.key, p.value, p.at);
      assert puts == before + [p];
    }
  }
}
