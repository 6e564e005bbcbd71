// Paging over ranked results in 64-bit arithmetic, and the whole search: fan-in,
// merge, deduplication, ranking and paging.
module SearchPages {
  import opened Wrappers
  import opened Ranking
  import FanIn

  const MAX_INT: int := 0x7FFF_FFFF_FFFF_FFFF

  /** Two's complement wrap-around of a 64-bit int. */
  function Wrap64(x: int): int {
    (x + 0x8000_0000_0000_0000) % 0x1_0000_0000_0000_0000 - 0x8000_0000_0000_0000
  }

  datatype PageOutcome<+T> = Page(items: seq<T>) | Panic

  function PageSize(asked: int): (r: int)
    ensures 1 <= r <= 50
  {
    if asked <= 0 then 20 else if asked > 50 then 50 else asked
  }

  function PageNumber(asked: int): (r: int)
    ensures r >= 1
  {
    if asked <= 0 then 1 else asked
  }

  /** The slice expression of the handler; a negative offset makes it panic. */
  function Paginate<T>(list: seq<T>, askedPage: int, askedSize: int): PageOutcome<T> {
    var page, size := PageNumber(askedPage), PageSize(askedSize);
    var offset := Wrap64((page - 1) * size);
    if offset >= |list| then Page([])
    else
      var end := if offset + size > |list| then |list| else offset + size;
      if offset < 0 then Panic else Page(list[offset..end])
  }

  function Min(a: int, b: int): int {
    if a <= b then a else b
  }

  /** Page number page of the list, in unbounded arithmetic. */
  function IdealPage<T>(list: seq<T>, page: int, size: int): (r: seq<T>)
    requires page >= 1 && size >= 1
    ensures |r| <= size
  {
    assert (page - 1) * size >= 0 && page * size == (page - 1) * size + size;
    list[Min((page - 1) * size, |list|)..Min(page * size, |list|)]
  }

  function FirstPages<T>(list: seq<T>, n: nat, size: int): seq<T>
    requires size >= 1
  {
    if n == 0 then [] else FirstPages(list, n - 1, size) + IdealPage(list, n, size)
  }

  /** Pages 1..n put together are the first n*size results: nothing lost, repeated or reordered. */
  lemma {:induction false} PagesConcatenate<T>(list: seq<T>, n: nat, size: int)
    requires size >= 1
    ensures n * size >= 0
    ensures FirstPages(list, n, size) == list[..Min(n * size, |list|)]
    ensures n * size >= |list| ==> FirstPages(list, n, size) == list
    ensures n >= 1 && (n - 1) * size >= |list| ==> IdealPage(list, n, size) == []
  {
    if n > 0 {
      PagesConcatenate(list, n - 1, size);
      assert n * size == (n - 1) * size + size;
    }
  }

  lemma WrapFits(x: int)
    requires 0 <= x <= MAX_INT
    ensures Wrap64(x) == x
  {
  }

  /** The handler serves the right page exactly when the offset fits, or wraps to something past the end. */
  lemma PaginateExact<T>(list: seq<T>, askedPage: int, askedSize: int)
    requires |list| <= MAX_INT
    ensures var page, size := PageNumber(askedPage), PageSize(askedSize);
            var offset := (page - 1) * size;
            Paginate(list, askedPage, askedSize) == Page(IdealPage(list, page, size))
            <==> offset <= MAX_INT || Wrap64(offset) >= |list|
  {
    hide Wrap64, PageNumber, PageSize;
    var page, size := PageNumber(askedPage), PageSize(askedSize);
    var offset := (page - 1) * size;
    assert offset >= 0 && page * size == offset + size;
    if offset <= MAX_INT {
      WrapFits(offset);
    } else {
      assert IdealPage(list, page, size) == [];
      var w := Wrap64(offset);
      if 0 <= w < |list| {
        assert Paginate(list, askedPage, askedSize).items[0] == list[w];
      }
    }
  }

  /** The wrapped value fits 64 bits and differs by a multiple of 2^64. */
  lemma Wrap64Spec(x: int)
    ensures -0x8000_0000_0000_0000 <= Wrap64(x) <= 0x7FFF_FFFF_FFFF_FFFF
    ensures (x - Wrap64(x)) % 0x1_0000_0000_0000_0000 == 0
  {
  }

  /** A page and size in range are served as asked; others stand for the nearest or the default. */
  lemma PageServed<T>(list: seq<T>, page: int, size: int)
    requires |list| <= MAX_INT
    ensures page >= 1 && 1 <= size <= 50 && (page - 1) * size <= MAX_INT ==>
              Paginate(list, page, size) == Page(IdealPage(list, page, size))
    ensures size <= 0 ==> Paginate(list, page, size) == Paginate(list, page, 20)
    ensures size > 50 ==> Paginate(list, page, size) == Paginate(list, page, 50)
    ensures page <= 0 ==> Paginate(list, page, size) == Paginate(list, 1, size)
  {
    if page >= 1 && 1 <= size <= 50 && (page - 1) * size <= MAX_INT {
      PaginateExact(list, page, size);
    }
  }

  /** The items of the served pages 1 to n, one after the other. */
  function Served<T>(list: seq<T>, n: nat, size: int): seq<T> {
    if n == 0 then []
    else Served(list, n - 1, size) + match Paginate(list, n, size) case Page(items) => items case Panic => []
  }

  /** Asking for pages 1 to n gives the first n * size results, each once and in order, and all of them in the end. */
  lemma {:induction false} ServedPagesJoin<T>(list: seq<T>, n: nat, size: int)
    requires |list| <= MAX_INT && 1 <= size <= 50 && n * size <= MAX_INT
    ensures Served(list, n, size) == if n * size <= |list| then list[..n * size] else list
  {
    hide Paginate, IdealPage;
    ServedIsIdeal(list, n, size);
    PagesConcatenate(list, n, size);
  }

  lemma {:induction false} ServedIsIdeal<T>(list: seq<T>, n: nat, size: int)
    requires |list| <= MAX_INT && 1 <= size <= 50 && n * size <= MAX_INT
    ensures Served(list, n, size) == FirstPages(list, n, size)
  {
    hide Paginate, IdealPage;
    if n > 0 {
      assert n * size == (n - 1) * size + size;
      ServedIsIdeal(list, n - 1, size);
      PageServed(list, n, size);
    }
  }

  /** An offset that wraps to zero serves the first page again. */
  lemma WrappedPageRepeatsTheFirst(x: int)
    ensures Paginate([x], 0x0800_0000_0000_0001, 32) == Page([x])
    ensures IdealPage([x], 0x0800_0000_0000_0001, 32) == []
  {
  }

  // ---------- the whole search ----------

  datatype ProviderResult = ProviderResult(providerId: string, results: seq<SearchResult>, status: string)

  function Merge(collected: seq<ProviderResult>): seq<SearchResult> {
    if collected == [] then [] else Merge(collected[..|collected| - 1]) + collected[|collected| - 1].results
  }

  /** Results are appended: a provider's own in their order, after those of the providers collected before it. */
  lemma {:induction false} MergeAppends(a: seq<ProviderResult>, b: seq<ProviderResult>, p: ProviderResult)
    ensures Merge([]) == [] && Merge([p]) == p.results
    ensures Merge(a + b) == Merge(a) + Merge(b)
  {
    assert [p][..0] == [];
    if b == [] {
      assert a + b == a;
    } else {
      var n := |b| - 1;
      assert (a + b)[..|a| + n] == a + b[..n];
      MergeAppends(a, b[..n], p);
    }
  }

  lemma {:induction false} MergeWithout(c: seq<ProviderResult>, j: nat)
    requires j < |c|
    ensures multiset(Merge(c)) == multiset(Merge(Without(c, j))) + multiset(c[j].results)
  {
    WithoutLast(c, j);
    hide Without;
    var last := |c| - 1;
    if j < last {
      var rest := Without(c[..last], j);
      MergeWithout(c[..last], j);
      assert (rest + [c[last]])[..last - 1] == rest;
    }
  }

  lemma {:induction false} MergeOrderIndependent(a: seq<ProviderResult>, b: seq<ProviderResult>)
    requires multiset(a) == multiset(b)
    ensures multiset(Merge(a)) == multiset(Merge(b))
    decreases |a|
  {
    assert |a| == |multiset(a)| == |multiset(b)| == |b|;
    if a != [] {
      assert a[0] in multiset(b);
      var j :| 0 <= j < |b| && b[j] == a[0];
      WithoutMultiset(a, 0);
      WithoutMultiset(b, j);
      MergeOrderIndependent(Without(a, 0), Without(b, j));
      MergeWithout(a, 0);
      MergeWithout(b, j);
    }
  }

  function Statuses(collected: seq<ProviderResult>): map<string, string> {
    if collected == [] then map[]
    else
      var last := collected[|collected| - 1];
      Statuses(collected[..|collected| - 1])[last.providerId := last.status]
  }

  /** No provider id comes with two statuses; in particular when ids are distinct. */
  predicate OneStatusEach(collected: seq<ProviderResult>) {
    forall p, q :: p in collected && q in collected && p.providerId == q.providerId ==> p.status == q.status
  }

  lemma {:induction false} StatusesMembers(c: seq<ProviderResult>)
    ensures forall id :: id in Statuses(c) <==> exists p :: p in c && p.providerId == id
    ensures OneStatusEach(c) ==> forall p :: p in c ==> Statuses(c)[p.providerId] == p.status
  {
    if c != [] {
      var n := |c| - 1;
      StatusesMembers(c[..n]);
      assert c == c[..n] + [c[n]];
    }
  }

  lemma SameStatuses(a: seq<ProviderResult>, b: seq<ProviderResult>)
    requires multiset(a) == multiset(b) && OneStatusEach(a)
    ensures Statuses(a) == Statuses(b)
  {
    assert forall p :: p in a <==> p in multiset(a);
    assert forall p :: p in b <==> p in multiset(b);
    StatusesMembers(a);
    StatusesMembers(b);
    forall id | id in Statuses(a) ensures Statuses(a)[id] == Statuses(b)[id] {
      var p :| p in a && p.providerId == id;
    }
  }

  lemma LastStatus(c: seq<ProviderResult>, j: nat) returns (d: seq<ProviderResult>)
    requires j < |c|
    ensures multiset(d) == multiset(c)
    ensures c[j].providerId in Statuses(d) && Statuses(d)[c[j].providerId] == c[j].status
  {
    WithoutMultiset(c, j);
    d := Without(c, j) + [c[j]];
    assert d[..|d| - 1] == Without(c, j);
  }

  /** The status map is the same for every order of arrival exactly when no id comes with two statuses. */
  lemma StatusesIndependentExactly(c: seq<ProviderResult>)
    ensures (forall d :: multiset(d) == multiset(c) ==> Statuses(d) == Statuses(c)) <==> OneStatusEach(c)
  {
    hide Statuses;
    if OneStatusEach(c) {
      forall d | multiset(d) == multiset(c) ensures Statuses(d) == Statuses(c) { SameStatuses(c, d); }
    } else {
      var p, q :| p in c && q in c && p.providerId == q.providerId && p.status != q.status;
      var i :| 0 <= i < |c| && c[i] == p;
      var j :| 0 <= j < |c| && c[j] == q;
      var d := LastStatus(c, i);
      var e := LastStatus(c, j);
      assert Statuses(d) != Statuses(e);
    }
  }

  /** Appends every provider's results and notes its status, in the order they were collected. */
  method MergeAll(collected: seq<ProviderResult>) returns (merged: seq<SearchResult>, providers: map<string, string>)
    ensures merged == Merge(collected) && providers == Statuses(collected)
    ensures forall p :: p in collected ==> p.providerId in providers
    ensures forall id :: id in providers ==>
              exists p :: p in collected && p.providerId == id && p.status == providers[id]
  {
    merged, providers := [], map[];
    for i := 0 to |collected|
      invariant merged == Merge(collected[..i]) && providers == Statuses(collected[..i])
      invariant forall k :: 0 <= k < i ==> collected[k].providerId in providers
      invariant forall id :: id in providers ==>
                  exists p :: p in collected && p.providerId == id && p.status == providers[id]
    {
      assert collected[..i + 1][..i] == collected[..i];
      providers := providers[collected[i].providerId := collected[i].status];
      merged := merged + collected[i].results;
    }
    assert collected[..|collected|] == collected;
  }

  function PageScores(p: PageOutcome<SearchResult>): Option<seq<real>> {
    match p case Panic => None case Page(items) => Some(Scores(items))
  }

  /**
   * Two schedules of the same providers, run to their ends and ranked in any admissible way, give the same
   * total count and the same scores at every position of every page; the same pages, unless results that may be
   * kept tie; and the same status map, unless a provider id comes with two statuses.
   */
  lemma SearchIndependentOfSchedule(providers: seq<ProviderResult>, s1: seq<FanIn.Step>, s2: seq<FanIn.Step>,
                                    r1: seq<SearchResult>, r2: seq<SearchResult>, page: int, size: int)
    requires FanIn.Run(providers, s1).Some? && FanIn.Run(providers, s1).value.ended
    requires FanIn.Run(providers, s2).Some? && FanIn.Run(providers, s2).value.ended
    requires IsRanking(r1, Dedupe(Merge(FanIn.Run(providers, s1).value.collected)))
    requires IsRanking(r2, Dedupe(Merge(FanIn.Run(providers, s2).value.collected)))
    ensures |r1| == |r2|
    ensures PageScores(Paginate(r1, page, size)) == PageScores(Paginate(r2, page, size))
    ensures NoTies(Merge(providers)) ==> Paginate(r1, page, size) == Paginate(r2, page, size)
    ensures var c1, c2 := FanIn.Run(providers, s1).value.collected, FanIn.Run(providers, s2).value.collected;
            OneStatusEach(providers) ==> Statuses(c1) == Statuses(c2)
  {
    hide Dedupe, FanIn.Run, IsRanking, Merge, Paginate, NoTies, OneStatusEach, Statuses;
    var c1, c2 := FanIn.Run(providers, s1).value.collected, FanIn.Run(providers, s2).value.collected;
    FanIn.CollectsEveryResult(providers, s1);
    FanIn.CollectsEveryResult(providers, s2);
    MergeOrderIndependent(c1, c2);
    RankedScoresIndependent(Merge(c1), Merge(c2), r1, r2);
    PageScoresOfList(r1, page, size);
    PageScoresOfList(r2, page, size);
    MergeOrderIndependent(providers, c1);
    assert Outcome(Merge(providers), r1) && Outcome(Merge(providers), r2);
    if NoTies(Merge(providers)) { NoTiesOneOutcome(Merge(providers), r1, r2); }
    if OneStatusEach(providers) {
      SameStatuses(providers, c1);
      SameStatuses(providers, c2);
    }
  }

  /** The scores on a page depend only on the scores of the list. */
  lemma PageScoresOfList(r: seq<SearchResult>, page: int, size: int)
    ensures PageScores(Paginate(r, page, size)) ==
            match Paginate(Scores(r), page, size) case Panic => None case Page(scores) => Some(scores)
  {
    var offset := Wrap64((PageNumber(page) - 1) * PageSize(size));
    if 0 <= offset < |r| {
      var end := if offset + PageSize(size) > |r| then |r| else offset + PageSize(size);
      assert Scores(r[offset..end]) == Scores(r)[offset..end];
    }
  }
}
