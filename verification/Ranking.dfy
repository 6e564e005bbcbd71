// From provider answers to a page of search results: scoring, merging,
// deduplication, ranking and paging.
module Ranking {
  import opened Wrappers
  import opened Text
  import CompositeKey

  datatype SearchResult = SearchResult(id: string, title: string, subtitle: string, category: string,
                                       icon: string, route: string, score: real)

  // ---------- scoring ----------

  function EffectiveWeight(weight: int): int {
    if weight <= 0 then 1 else weight
  }

  /** 1.0 at the top of the provider's list, towards 0.5 at its bottom. */
  function Score(i: nat, total: nat, weight: int): real
    requires i < total
  {
    var position := if total > 1 then 1.0 - (i as real / total as real) * 0.5 else 1.0;
    EffectiveWeight(weight) as real * position
  }

  /** Items keep their backend order, are cut at maxResults, and differ from the given ones only in score. */
  function MapResults(items: seq<SearchResult>, weight: int, maxResults: nat): (r: seq<SearchResult>)
    ensures |r| == if |items| > maxResults then maxResults else |items|
  {
    var kept := if |items| > maxResults then items[..maxResults] else items;
    seq(|kept|, i requires 0 <= i < |kept| => kept[i].(score := Score(i, |kept|, weight)))
  }

  lemma ScoreBounds(i: nat, total: nat, weight: int)
    requires i < total
    ensures var w := EffectiveWeight(weight) as real; w / 2.0 < Score(i, total, weight) <= w
  {
    var w := EffectiveWeight(weight) as real;
    var share := i as real / total as real;
    ShareBelow(i, total, total);
    assert 0.0 <= share < 1.0;
    ScaleBelow(w, 0.5, 1.0 - share * 0.5);
    if total > 1 { ScaleAtMost(w, 1.0 - share * 0.5, 1.0); }
  }

  /** The first item has the provider's weight, 1 if that is not positive, and scores fall in equal steps to half. */
  lemma ScoreSteps(i: nat, total: nat, weight: int)
    requires i < total
    ensures Score(0, total, weight) == if weight <= 0 then 1.0 else weight as real
    ensures i + 1 < total ==>
              Score(i, total, weight) - Score(i + 1, total, weight) == Score(0, total, weight) / (2.0 * total as real)
  {
    var w, t := EffectiveWeight(weight) as real, total as real;
    assert 0.0 / t == 0.0;
    if i + 1 < total {
      assert (i + 1) as real / t == i as real / t + 1.0 / t;
      assert w * ((1.0 / t) * 0.5) == w / (2.0 * t);
    }
  }

  /** What is mapped is the front of the given list, and only scores are filled in. */
  lemma MapResultsKeepsItems(items: seq<SearchResult>, weight: int, maxResults: nat, i: nat)
    requires i < |MapResults(items, weight, maxResults)|
    ensures var r := MapResults(items, weight, maxResults)[i];
            r == items[i].(score := Score(i, if |items| > maxResults then maxResults else |items|, weight))
  {
  }

  lemma ShareBelow(i: nat, j: nat, total: nat)
    requires i < j <= total
    ensures 0.0 <= i as real / total as real < j as real / total as real <= 1.0
  {
  }

  lemma ScaleBelow(w: real, a: real, b: real)
    requires w > 0.0 && a < b
    ensures w * a < w * b
  {
  }

  lemma ScaleAtMost(w: real, a: real, b: real)
    requires w > 0.0 && a <= b
    ensures w * a <= w * b
  {
  }

  lemma ScoresDecrease(i: nat, j: nat, total: nat, weight: int)
    requires i < j < total
    ensures Score(i, total, weight) > Score(j, total, weight)
  {
    ShareBelow(i, j, total);
    ScaleBelow(EffectiveWeight(weight) as real,
               1.0 - (j as real / total as real) * 0.5, 1.0 - (i as real / total as real) * 0.5);
  }

  // ---------- deduplication ----------

  function Key(r: SearchResult): string {
    r.route + "|" + r.id
  }

  /** The key stands for one route and id exactly when neither contains the separator. */
  lemma KeyExact(r: SearchResult)
    ensures (forall x: SearchResult :: Key(x) == Key(r) ==> x.route == r.route && x.id == r.id)
            <==> '|' !in r.route && '|' !in r.id
  {
    CompositeKey.PairUniqueExactly('|', r.route, r.id);
    forall x: SearchResult ensures Key(x) == CompositeKey.Pair('|', x.route, x.id) {}
    if !('|' !in r.route && '|' !in r.id) {
      var a, b :| CompositeKey.Pair('|', a, b) == CompositeKey.Pair('|', r.route, r.id) && !(a == r.route && b == r.id);
      var x := r.(route := a, id := b);
      assert Key(x) == Key(r);
    }
  }

  function IndexOf(out: seq<SearchResult>, key: string): Option<nat> {
    if out == [] then None
    else
      var last := |out| - 1;
      if Key(out[last]) == key then Some(last) else IndexOf(out[..last], key)
  }

  /** One turn of the loop: replace the entry of the same key if the score is higher, or append. */
  function Absorb(out: seq<SearchResult>, r: SearchResult): seq<SearchResult> {
    match IndexOf(out, Key(r))
    case None => out + [r]
    case Some(i) => if i < |out| && r.score > out[i].score then out[i := r] else out
  }

  function Dedupe(results: seq<SearchResult>): seq<SearchResult> {
    if results == [] then []
    else Absorb(Dedupe(results[..|results| - 1]), results[|results| - 1])
  }

  ghost predicate DistinctKeys(out: seq<SearchResult>) {
    forall i, j :: 0 <= i < j < |out| ==> Key(out[i]) != Key(out[j])
  }

  lemma {:induction false} IndexOfSpec(out: seq<SearchResult>, key: string)
    ensures IndexOf(out, key).Some? ==> IndexOf(out, key).value < |out| && Key(out[IndexOf(out, key).value]) == key
    ensures IndexOf(out, key).None? ==> forall i :: 0 <= i < |out| ==> Key(out[i]) != key
  {
    if out != [] { IndexOfSpec(out[..|out| - 1], key); }
  }

  /** Key-to-score table of a list; later entries win. */
  function Table(out: seq<SearchResult>): map<string, real> {
    if out == [] then map[]
    else
      var last := |out| - 1;
      Table(out[..last])[Key(out[last]) := out[last].score]
  }

  /** v is the highest score any result of key k has. */
  ghost predicate IsMax(results: seq<SearchResult>, k: string, v: real) {
    && (exists r :: r in results && Key(r) == k && r.score == v)
    && forall r :: r in results && Key(r) == k ==> r.score <= v
  }

  ghost predicate IsMaxTable(t: map<string, real>, results: seq<SearchResult>) {
    (forall r :: r in results ==> Key(r) in t) && forall k :: k in t ==> IsMax(results, k, t[k])
  }

  lemma {:induction false} TableOf(out: seq<SearchResult>, i: nat)
    requires DistinctKeys(out) && i < |out|
    ensures Key(out[i]) in Table(out) && Table(out)[Key(out[i])] == out[i].score
  {
    var last := |out| - 1;
    if i < last {
      assert out[..last][i] == out[i];
      TableOf(out[..last], i);
    }
  }

  lemma {:induction false} TableIndex(out: seq<SearchResult>, k: string)
    ensures k in Table(out) <==> IndexOf(out, k).Some?
  {
    if out != [] { TableIndex(out[..|out| - 1], k); }
  }

  lemma {:induction false} TableAfterUpdate(out: seq<SearchResult>, i: nat, r: SearchResult)
    requires DistinctKeys(out) && i < |out| && Key(out[i]) == Key(r)
    ensures Table(out[i := r]) == Table(out)[Key(r) := r.score]
  {
    var last := |out| - 1;
    var u := out[i := r];
    if i == last {
      assert u[..last] == out[..last];
    } else {
      assert u[..last] == out[..last][i := r];
      TableAfterUpdate(out[..last], i, r);
    }
  }

  lemma AbsorbTable(out: seq<SearchResult>, r: SearchResult)
    requires DistinctKeys(out)
    ensures DistinctKeys(Absorb(out, r))
    ensures var t := Table(out);
            Table(Absorb(out, r)) == if Key(r) in t && r.score <= t[Key(r)] then t else t[Key(r) := r.score]
  {
    IndexOfSpec(out, Key(r));
    TableIndex(out, Key(r));
    match IndexOf(out, Key(r))
    case None => assert (out + [r])[..|out|] == out;
    case Some(i) =>
      TableOf(out, i);
      TableAfterUpdate(out, i, r);
  }

  lemma MaxTableStep(t: map<string, real>, results: seq<SearchResult>, r: SearchResult)
    requires IsMaxTable(t, results)
    ensures IsMaxTable(if Key(r) in t && r.score <= t[Key(r)] then t else t[Key(r) := r.score], results + [r])
  {
    var k0 := Key(r);
    var u := if k0 in t && r.score <= t[k0] then t else t[k0 := r.score];
    var all := results + [r];
    assert forall x :: x in all <==> x in results || x == r;
    forall k | k in u ensures IsMax(all, k, u[k]) {
      if k in t {
        assert IsMax(results, k, t[k]);
        var w :| w in results && Key(w) == k && w.score == t[k];
        assert w in all && r in all;
      } else {
        assert k == k0 && r in all;
      }
    }
  }

  /** Exactly one entry per key, and each carries the maximum score of its key. */
  lemma {:induction false} DedupeSpec(results: seq<SearchResult>)
    ensures DistinctKeys(Dedupe(results))
    ensures IsMaxTable(Table(Dedupe(results)), results)
  {
    if results != [] {
      var last := |results| - 1;
      var out := Dedupe(results[..last]);
      DedupeSpec(results[..last]);
      AbsorbTable(out, results[last]);
      MaxTableStep(Table(out), results[..last], results[last]);
      assert results == results[..last] + [results[last]];
    }
  }

  /** The i-th result has the highest score of its key, and is the first that has it. */
  predicate FirstBest(results: seq<SearchResult>, i: nat) {
    && i < |results|
    && forall j :: 0 <= j < |results| && Key(results[j]) == Key(results[i]) ==>
         if j < i then results[j].score < results[i].score else results[j].score <= results[i].score
  }

  ghost predicate KeptFrom(results: seq<SearchResult>, o: SearchResult) {
    exists i: nat :: FirstBest(results, i) && results[i] == o
  }

  lemma StillBest(front: seq<SearchResult>, r: SearchResult, o: SearchResult)
    requires KeptFrom(front, o) && (Key(o) == Key(r) ==> r.score <= o.score)
    ensures KeptFrom(front + [r], o)
  {
    hide Key;
    var i: nat :| FirstBest(front, i) && front[i] == o;
    var all := front + [r];
    assert all[i] == o && forall j :: 0 <= j < |front| ==> all[j] == front[j];
    assert FirstBest(all, i);
  }

  lemma NewBest(front: seq<SearchResult>, r: SearchResult)
    requires forall j :: 0 <= j < |front| && Key(front[j]) == Key(r) ==> front[j].score < r.score
    ensures KeptFrom(front + [r], r)
  {
    hide Key;
    var all := front + [r];
    assert all[|front|] == r && forall j :: 0 <= j < |front| ==> all[j] == front[j];
    assert FirstBest(all, |front|);
  }

  /** What is kept for a key is the earliest of its results with the highest score, unchanged. */
  lemma {:induction false} FirstBestKept(results: seq<SearchResult>)
    ensures forall o :: o in Dedupe(results) ==> KeptFrom(results, o)
  {
    hide Table, Key, KeptFrom, IsMaxTable;
    if results != [] {
      var front, r := results[..|results| - 1], results[|results| - 1];
      var out := Dedupe(front);
      FirstBestKept(front);
      DedupeSpec(front);
      IndexOfSpec(out, Key(r));
      assert front + [r] == results;
      match IndexOf(out, Key(r))
      case None =>
        KeyIsNew(front, r);
        NewBest(front, r);
        forall o | o in out ensures KeptFrom(results, o) { StillBest(front, r, o); }
      case Some(i) =>
        if r.score > out[i].score {
          BeatsAll(front, r, out[i]);
          NewBest(front, r);
        }
        forall k | 0 <= k < |out| && (k != i || r.score <= out[i].score) ensures KeptFrom(results, out[k]) {
          StillBest(front, r, out[k]);
        }
    }
  }

  lemma KeyIsNew(front: seq<SearchResult>, r: SearchResult)
    requires IndexOf(Dedupe(front), Key(r)).None?
    ensures forall x :: x in front ==> Key(x) != Key(r)
  {
    hide Key, Dedupe;
    DedupeSpec(front);
    TableIndex(Dedupe(front), Key(r));
  }

  lemma BeatsAll(front: seq<SearchResult>, r: SearchResult, o: SearchResult)
    requires KeptFrom(front, o) && Key(o) == Key(r) && r.score > o.score
    ensures forall j :: 0 <= j < |front| && Key(front[j]) == Key(r) ==> front[j].score < r.score
  {
    hide Key;
  }

  /** The loop with its key-to-index map. */
  method Deduplicate(results: seq<SearchResult>) returns (output: seq<SearchResult>)
    ensures output == Dedupe(results)
  {
    var seen: map<string, nat> := map[];
    output := [];
    for n := 0 to |results|
      invariant output == Dedupe(results[..n])
      invariant forall k :: k in seen ==> IndexOf(output, k) == Some(seen[k])
      invariant forall k :: IndexOf(output, k).Some? ==> k in seen
    {
      var r := results[n];
      assert results[..n + 1][..n] == results[..n];
      ghost var before := output;
      forall k { IndexAfterAbsorb(before, r, k); }
      var key := r.route + "|" + r.id;
      if key in seen {
        IndexOfSpec(output, key);
        if r.score > output[seen[key]].score {
          output := output[seen[key] := r];
        }
      } else {
        seen := seen[key := |output|];
        output := output + [r];
      }
      assert output == Absorb(before, r);
    }
    assert results[..|results|] == results;
  }

  lemma {:induction false} IndexAfterUpdate(out: seq<SearchResult>, i: nat, r: SearchResult, key: string)
    requires i < |out| && Key(out[i]) == Key(r)
    ensures IndexOf(out[i := r], key) == IndexOf(out, key)
  {
    var last := |out| - 1;
    var u := out[i := r];
    if i == last {
      assert u[..last] == out[..last];
    } else {
      assert u[..last] == out[..last][i := r];
      IndexAfterUpdate(out[..last], i, r, key);
    }
  }

  lemma IndexAfterAbsorb(out: seq<SearchResult>, r: SearchResult, key: string)
    ensures IndexOf(Absorb(out, r), key) ==
            if IndexOf(out, Key(r)).None? && key == Key(r) then Some(|out|) else IndexOf(out, key)
  {
    IndexOfSpec(out, Key(r));
    match IndexOf(out, Key(r))
    case None => assert (out + [r])[..|out|] == out;
    case Some(i) => IndexAfterUpdate(out, i, r, key);
  }

  // ---------- independence of arrival order ----------

  function Scores(s: seq<SearchResult>): (r: seq<real>)
    ensures |r| == |s|
  {
    seq(|s|, i requires 0 <= i < |s| => s[i].score)
  }

  function Without<T>(s: seq<T>, j: nat): (r: seq<T>)
    requires j < |s|
    ensures |r| == |s| - 1
  {
    s[..j] + s[j + 1..]
  }

  lemma WithoutLast<T>(s: seq<T>, j: nat)
    requires j < |s|
    ensures s == s[..|s| - 1] + [s[|s| - 1]]
    ensures Without(s, j) == if j == |s| - 1 then s[..j] else Without(s[..|s| - 1], j) + [s[|s| - 1]]
  {
  }

  lemma WithoutMultiset<T>(s: seq<T>, j: nat)
    requires j < |s|
    ensures multiset(s) == multiset(Without(s, j)) + multiset{s[j]}
    ensures multiset(Without(s, j)) == multiset(s) - multiset{s[j]}
  {
    assert s == s[..j] + [s[j]] + s[j + 1..];
  }

  lemma WithoutScores(s: seq<SearchResult>, j: nat)
    requires j < |s|
    ensures multiset(Scores(s)) == multiset(Scores(Without(s, j))) + multiset{s[j].score}
  {
    WithoutMultiset(Scores(s), j);
    assert Scores(Without(s, j)) == Without(Scores(s), j);
  }

  lemma WithoutDistinct(b: seq<SearchResult>, j: nat)
    requires DistinctKeys(b) && j < |b|
    ensures DistinctKeys(Without(b, j))
  {
  }

  lemma TableSnoc(front: seq<SearchResult>, r: SearchResult)
    ensures Table(front + [r]) == Table(front)[Key(r) := r.score]
  {
  }

  lemma LastIsNew(b: seq<SearchResult>)
    requires DistinctKeys(b) && b != []
    ensures var last := |b| - 1;
            && DistinctKeys(b[..last])
            && Key(b[last]) !in Table(b[..last])
            && forall j :: 0 <= j < last ==> Key(b[j]) != Key(b[last])
  {
    TableIndex(b[..|b| - 1], Key(b[|b| - 1]));
    IndexOfSpec(b[..|b| - 1], Key(b[|b| - 1]));
  }

  lemma UpdateThenRemove<K, V>(m: map<K, V>, k: K, v: V, gone: K)
    requires k !in m
    ensures m[k := v] - {gone} == if gone == k then m else (m - {gone})[k := v]
  {
  }

  lemma {:induction false} WithoutTable(b: seq<SearchResult>, j: nat)
    requires DistinctKeys(b) && j < |b|
    ensures Table(Without(b, j)) == Table(b) - {Key(b[j])}
  {
    LastIsNew(b);
    WithoutLast(b, j);
    hide Without, Key, DistinctKeys, Table;
    var last := |b| - 1;
    var front := b[..last];
    TableSnoc(front, b[last]);
    UpdateThenRemove(Table(front), Key(b[last]), b[last].score, Key(b[j]));
    if j < last {
      assert front[j] == b[j];
      WithoutTable(front, j);
      TableSnoc(Without(front, j), b[last]);
    }
  }

  /** The table of a list with distinct keys fixes how many entries it has and with which scores. */
  lemma {:induction false} TableFixesScores(a: seq<SearchResult>, b: seq<SearchResult>)
    requires DistinctKeys(a) && DistinctKeys(b)
    requires Table(a) == Table(b)
    ensures |a| == |b| && multiset(Scores(a)) == multiset(Scores(b))
    decreases |a|
  {
    if a == [] {
      if b != [] { TableOf(b, 0); }
    } else {
      TableOf(a, 0);
      var k := Key(a[0]);
      TableIndex(b, k);
      IndexOfSpec(b, k);
      var j := IndexOf(b, k).value;
      TableOf(b, j);
      WithoutTable(a, 0);
      WithoutTable(b, j);
      WithoutDistinct(a, 0);
      WithoutDistinct(b, j);
      TableFixesScores(Without(a, 0), Without(b, j));
      WithoutScores(a, 0);
      WithoutScores(b, j);
    }
  }

  lemma MaxTableUnique(s: map<string, real>, t: map<string, real>, x: seq<SearchResult>, y: seq<SearchResult>)
    requires forall r :: r in x <==> r in y
    requires IsMaxTable(s, x) && IsMaxTable(t, y)
    ensures s == t
  {
    forall k | k in s ensures k in t && s[k] == t[k] {
      assert IsMax(x, k, s[k]);
      var r :| r in x && Key(r) == k && r.score == s[k];
      assert r in y && IsMax(y, k, t[k]);
    }
    forall k | k in t ensures k in s {
      assert IsMax(y, k, t[k]);
      var r :| r in y && Key(r) == k;
      assert r in x;
    }
  }

  /** The key-to-score table of the output, its length and its scores do not depend on the order of the input. */
  lemma DedupeOrderIndependent(x: seq<SearchResult>, y: seq<SearchResult>)
    requires multiset(x) == multiset(y)
    ensures Table(Dedupe(x)) == Table(Dedupe(y))
    ensures |Dedupe(x)| == |Dedupe(y)|
    ensures multiset(Scores(Dedupe(x))) == multiset(Scores(Dedupe(y)))
  {
    hide Dedupe, IsMaxTable, DistinctKeys;
    DedupeSpec(x);
    DedupeSpec(y);
    assert forall r :: r in x <==> r in multiset(x);
    assert forall r :: r in y <==> r in multiset(y);
    MaxTableUnique(Table(Dedupe(x)), Table(Dedupe(y)), x, y);
    TableFixesScores(Dedupe(x), Dedupe(y));
  }

  // ---------- ranking ----------

  /** What sort.Slice may produce: any arrangement with descending scores. */
  ghost predicate IsRanking(ranked: seq<SearchResult>, out: seq<SearchResult>) {
    multiset(ranked) == multiset(out) && forall i, j :: 0 <= i < j < |ranked| ==> ranked[i].score >= ranked[j].score
  }

  lemma {:induction false} ScoresOfPermutation(a: seq<SearchResult>, b: seq<SearchResult>)
    requires multiset(a) == multiset(b)
    ensures multiset(Scores(a)) == multiset(Scores(b))
    decreases |a|
  {
    assert |a| == |multiset(a)| == |multiset(b)| == |b|;
    if a != [] {
      assert a[0] in multiset(b);
      var j :| 0 <= j < |b| && b[j] == a[0];
      WithoutMultiset(a, 0);
      WithoutMultiset(b, j);
      ScoresOfPermutation(Without(a, 0), Without(b, j));
      WithoutScores(a, 0);
      WithoutScores(b, j);
    }
  }

  /** However the results arrived and however ties were broken, the ranked scores are the same. */
  lemma RankedScoresIndependent(x: seq<SearchResult>, y: seq<SearchResult>, rx: seq<SearchResult>,
                                ry: seq<SearchResult>)
    requires multiset(x) == multiset(y)
    requires IsRanking(rx, Dedupe(x)) && IsRanking(ry, Dedupe(y))
    ensures |rx| == |ry| && Scores(rx) == Scores(ry)
  {
    DedupeOrderIndependent(x, y);
    ScoresOfPermutation(rx, Dedupe(x));
    ScoresOfPermutation(ry, Dedupe(y));
    SortedIsUnique((a: real, b: real) => a >= b, Scores(rx), Scores(ry));
  }

  // ---------- when the list itself is determined ----------

  /** A result with the highest score of its key, which deduplication may keep. */
  ghost predicate Contends(results: seq<SearchResult>, r: SearchResult) {
    r in results && forall q :: q in results && Key(q) == Key(r) ==> q.score <= r.score
  }

  ghost predicate NoTies(results: seq<SearchResult>) {
    forall a, b :: Contends(results, a) && Contends(results, b) && a.score == b.score ==> a == b
  }

  lemma {:induction false} KeptWereGiven(results: seq<SearchResult>)
    ensures forall r :: r in Dedupe(results) ==> r in results
  {
    if results != [] {
      KeptWereGiven(results[..|results| - 1]);
      assert results == results[..|results| - 1] + [results[|results| - 1]];
    }
  }

  lemma KeptContends(results: seq<SearchResult>, r: SearchResult)
    requires r in Dedupe(results)
    ensures Contends(results, r)
  {
    hide Dedupe, Key;
    KeptWereGiven(results);
    DedupeSpec(results);
    var i :| 0 <= i < |Dedupe(results)| && Dedupe(results)[i] == r;
    TableOf(Dedupe(results), i);
    assert IsMax(results, Key(r), Table(Dedupe(results))[Key(r)]);
  }

  lemma SameContenders(x: seq<SearchResult>, y: seq<SearchResult>, r: SearchResult)
    requires multiset(x) == multiset(y)
    ensures Contends(x, r) <==> Contends(y, r)
  {
    assert forall q :: q in x <==> q in multiset(x);
    assert forall q :: q in y <==> q in multiset(y);
  }

  /** A list some order of arrival and some admissible sort can end in. */
  ghost predicate Outcome(x: seq<SearchResult>, ranked: seq<SearchResult>) {
    exists y :: multiset(y) == multiset(x) && IsRanking(ranked, Dedupe(y))
  }

  lemma OutcomeContends(x: seq<SearchResult>, ranked: seq<SearchResult>, i: nat)
    requires Outcome(x, ranked) && i < |ranked|
    ensures Contends(x, ranked[i])
  {
    hide Dedupe, Contends;
    var y :| multiset(y) == multiset(x) && IsRanking(ranked, Dedupe(y));
    assert ranked[i] in multiset(ranked);
    KeptContends(y, ranked[i]);
    SameContenders(x, y, ranked[i]);
  }

  lemma NoTiesOneOutcome(x: seq<SearchResult>, a: seq<SearchResult>, b: seq<SearchResult>)
    requires NoTies(x) && Outcome(x, a) && Outcome(x, b)
    ensures a == b
  {
    hide Dedupe, IsRanking, Contends;
    var y :| multiset(y) == multiset(x) && IsRanking(a, Dedupe(y));
    var z :| multiset(z) == multiset(x) && IsRanking(b, Dedupe(z));
    RankedScoresIndependent(y, z, a, b);
    forall i | 0 <= i < |a| ensures a[i] == b[i] {
      OutcomeContends(x, a, i);
      OutcomeContends(x, b, i);
      assert Scores(a)[i] == Scores(b)[i];
    }
  }

  lemma InsertRanked(front: seq<SearchResult>, r: SearchResult, i: nat)
    requires forall j, k :: 0 <= j < k < |front| ==> front[j].score >= front[k].score
    requires i <= |front| && (forall k :: 0 <= k < i ==> front[k].score >= r.score)
    requires i < |front| ==> front[i].score <= r.score
    ensures var t := front[..i] + [r] + front[i..];
            forall j, k :: 0 <= j < k < |t| ==> t[j].score >= t[k].score
  {
  }

  lemma InsertMultiset(front: seq<SearchResult>, r: SearchResult, i: nat)
    requires i <= |front|
    ensures multiset(front[..i] + [r] + front[i..]) == multiset(front) + multiset{r}
  {
    assert front == front[..i] + front[i..];
  }

  lemma InsertRanking(front: seq<SearchResult>, out: seq<SearchResult>, r: SearchResult, i: nat)
    requires IsRanking(front, out) && i <= |front|
    requires (forall k :: 0 <= k < i ==> front[k].score >= r.score) && (i < |front| ==> front[i].score <= r.score)
    ensures IsRanking(front[..i] + [r] + front[i..], out + [r])
  {
    InsertRanked(front, r, i);
    InsertMultiset(front, r, i);
  }

  lemma {:induction false} SomeRanking(out: seq<SearchResult>) returns (ranked: seq<SearchResult>)
    ensures IsRanking(ranked, out)
  {
    ranked := [];
    if out != [] {
      hide IsRanking;
      var r, before := out[|out| - 1], out[..|out| - 1];
      var front := SomeRanking(before);
      var i := 0;
      while i < |front| && front[i].score >= r.score
        invariant i <= |front|
        invariant forall k :: 0 <= k < i ==> front[k].score >= r.score
      {
        i := i + 1;
      }
      ranked := front[..i] + [r] + front[i..];
      InsertRanking(front, before, r, i);
      assert out == before + [r];
    }
  }

  lemma {:induction false} FirstStays(r: SearchResult, rest: seq<SearchResult>)
    requires forall q :: q in rest && Key(q) == Key(r) ==> q.score <= r.score
    ensures Dedupe([r] + rest) != [] && Dedupe([r] + rest)[0] == r
  {
    if rest == [] {
      assert ([r] + rest)[..0] == [];
    } else {
      var n := |rest| - 1;
      FirstStays(r, rest[..n]);
      assert ([r] + rest)[..n + 1] == [r] + rest[..n];
      IndexOfSpec(Dedupe([r] + rest[..n]), Key(rest[n]));
    }
  }

  lemma ToFront(x: seq<SearchResult>, r: SearchResult) returns (rest: seq<SearchResult>)
    requires r in x
    ensures multiset([r] + rest) == multiset(x)
    ensures forall q :: q in rest ==> q in x
  {
    var j :| 0 <= j < |x| && x[j] == r;
    WithoutMultiset(x, j);
    rest := Without(x, j);
  }

  /** Each contender is in some outcome. */
  lemma ContenderKept(x: seq<SearchResult>, r: SearchResult) returns (y: seq<SearchResult>, ranked: seq<SearchResult>)
    requires Contends(x, r)
    ensures multiset(y) == multiset(x) && IsRanking(ranked, Dedupe(y)) && r in Dedupe(y) && r in ranked
  {
    hide Dedupe, IsRanking;
    var rest := ToFront(x, r);
    FirstStays(r, rest);
    y := [r] + rest;
    ranked := SomeRanking(Dedupe(y));
    assert r in multiset(Dedupe(y));
    assert multiset(ranked) == multiset(Dedupe(y)) by { RankingPermutes(ranked, Dedupe(y)); }
    assert r in multiset(ranked);
  }

  lemma RankingPermutes(ranked: seq<SearchResult>, out: seq<SearchResult>)
    requires IsRanking(ranked, out)
    ensures multiset(ranked) == multiset(out)
  {
  }

  /** Swapping two results of one score gives another admissible list. */
  lemma SwapTie(ranked: seq<SearchResult>, out: seq<SearchResult>, i: nat, j: nat)
    requires IsRanking(ranked, out) && i < j < |ranked| && ranked[i].score == ranked[j].score
    ensures IsRanking(ranked[i := ranked[j]][j := ranked[i]], out)
  {
    var swapped := ranked[i := ranked[j]][j := ranked[i]];
    assert multiset(swapped) == multiset(ranked);
  }

  lemma TieTwoOutcomes(x: seq<SearchResult>, a: SearchResult, b: SearchResult)
    returns (ranked: seq<SearchResult>, other: seq<SearchResult>)
    requires Contends(x, a) && Contends(x, b) && a.score == b.score && a != b
    ensures Outcome(x, ranked) && Outcome(x, other) && ranked != other
  {
    hide Dedupe, IsRanking, Contends;
    var y, z;
    y, ranked := ContenderKept(x, a);
    if b !in ranked {
      z, other := ContenderKept(x, b);
    } else {
      var i :| 0 <= i < |ranked| && ranked[i] == a;
      var j :| 0 <= j < |ranked| && ranked[j] == b;
      var m, n := if i < j then i else j, if i < j then j else i;
      SwapTie(ranked, Dedupe(y), m, n);
      other := ranked[m := ranked[n]][n := ranked[m]];
      assert other[m] != ranked[m];
    }
  }

  /** Every order of arrival and every admissible sort end in one list exactly when no contenders tie. */
  lemma OneOutcomeExactly(x: seq<SearchResult>)
    ensures (forall a, b :: Outcome(x, a) && Outcome(x, b) ==> a == b) <==> NoTies(x)
  {
    hide Outcome, Contends;
    if NoTies(x) {
      forall a, b | Outcome(x, a) && Outcome(x, b) ensures a == b { NoTiesOneOutcome(x, a, b); }
    } else {
      var a, b :| Contends(x, a) && Contends(x, b) && a.score == b.score && a != b;
      var ranked, other := TieTwoOutcomes(x, a, b);
    }
  }

  /** Results of one provider that survive keep the order the backend gave them. */
  lemma BackendOrderKept(items: seq<SearchResult>, weight: int, maxResults: nat, out: seq<SearchResult>,
                         ranked: seq<SearchResult>, i: nat, j: nat, a: nat, b: nat)
    requires IsRanking(ranked, out)
    requires i < j < |MapResults(items, weight, maxResults)|
    requires a < |ranked| && ranked[a] == MapResults(items, weight, maxResults)[i]
    requires b < |ranked| && ranked[b] == MapResults(items, weight, maxResults)[j]
    ensures a < b
  {
    ScoresDecrease(i, j, |MapResults(items, weight, maxResults)|, weight);
  }

  /** A provider of at least twice the weight comes entirely before the other. */
  lemma HeavierProviderFirst(heavy: seq<SearchResult>, w: int, light: seq<SearchResult>, v: int, maxHeavy: nat,
                             maxLight: nat, out: seq<SearchResult>, ranked: seq<SearchResult>, i: nat, j: nat, a: nat,
                             b: nat)
    requires IsRanking(ranked, out)
    requires EffectiveWeight(w) >= 2 * EffectiveWeight(v)
    requires i < |MapResults(heavy, w, maxHeavy)| && j < |MapResults(light, v, maxLight)|
    requires a < |ranked| && ranked[a] == MapResults(heavy, w, maxHeavy)[i]
    requires b < |ranked| && ranked[b] == MapResults(light, v, maxLight)[j]
    ensures a < b
  {
    ScoreBounds(i, |MapResults(heavy, w, maxHeavy)|, w);
    ScoreBounds(j, |MapResults(light, v, maxLight)|, v);
  }
}
