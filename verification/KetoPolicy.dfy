// Capability resolution by chunked batch checks, with a fallback to individual
// checks from the first chunk that fails.
module KetoPolicy {
  import opened Wrappers

  const MAX_BATCH_SIZE: nat := 10

  datatype CapabilityCheck = CapabilityCheck(capability: string, namespace: string)

  datatype Request = Request(namespace: string, path: string, permission: string, subject: string)

  function Swap(s: string, from: char, to: char): (r: string)
    ensures |r| == |s|
  {
    seq(|s|, i requires 0 <= i < |s| => if s[i] == from then to else s[i])
  }

  function CapabilityToPermission(capability: string): string {
    Swap(capability, ':', '_')
  }

  function PermissionToCapability(permission: string): string {
    Swap(permission, '_', ':')
  }

  /** The two renamings undo each other exactly on capabilities without underscores. */
  lemma PermissionRoundTrip(capability: string)
    ensures PermissionToCapability(CapabilityToPermission(capability)) == capability <==> '_' !in capability
  {
  }

  function RequestFor(c: CapabilityCheck, subject: string, path: string): Request {
    Request(c.namespace, path, CapabilityToPermission(c.capability), subject)
  }

  function RequestsFor(checks: seq<CapabilityCheck>, subject: string, path: string): (r: seq<Request>)
    ensures |r| == |checks|
  {
    seq(|checks|, i requires 0 <= i < |checks| => RequestFor(checks[i], subject, path))
  }

  /**
   * The authorizer. Answers may change from call to call: batch sees the chunk's start,
   * check the index being checked. None is an error.
   */
  datatype Authorizer = Authorizer(batch: (nat, seq<Request>) -> Option<seq<bool>>,
                                   check: (nat, Request) -> Option<bool>)

  function ChunkEnd(start: nat, n: nat): nat {
    if start + MAX_BATCH_SIZE < n then start + MAX_BATCH_SIZE else n
  }

  function ChunkAnswer(requests: seq<Request>, auth: Authorizer, start: nat): Option<seq<bool>>
    requires start < |requests|
  {
    auth.batch(start, requests[start..ChunkEnd(start, |requests|)])
  }

  /** Start of the first failing chunk at or after start, or the number of requests. */
  function Cut(requests: seq<Request>, auth: Authorizer, start: nat): (r: nat)
    requires start <= |requests|
    ensures start <= r <= |requests|
    decreases |requests| - start
  {
    if start == |requests| || ChunkAnswer(requests, auth, start).None? then start
    else Cut(requests, auth, ChunkEnd(start, |requests|))
  }

  function ChunkOf(i: nat): nat {
    i / MAX_BATCH_SIZE * MAX_BATCH_SIZE
  }

  /** A result was granted beyond the last check: the code indexes its list of checks with it, and panics. */
  predicate Overruns(answer: seq<bool>, start: nat, n: nat) {
    exists k :: 0 <= k < |answer| && answer[k] && start + k >= n
  }

  /** What a chunk's answer grants, by position from the chunk's start; None when it overruns. */
  function FromChunk(checks: seq<CapabilityCheck>, answer: seq<bool>, start: nat): Option<set<string>> {
    if Overruns(answer, start, |checks|) then None
    else Some(set k: nat | k < |answer| && answer[k] :: checks[start + k].capability)
  }

  function Individually(checks: seq<CapabilityCheck>, requests: seq<Request>, auth: Authorizer, from: nat): set<string>
    requires |checks| == |requests|
  {
    set i: nat | from <= i < |requests| && auth.check(i, requests[i]) == Some(true) :: checks[i].capability
  }

  /** What resolving from a chunk on yields, whatever the lengths of the answers; None is a panic. */
  function Collected(checks: seq<CapabilityCheck>, requests: seq<Request>, auth: Authorizer,
                     start: nat): Option<set<string>>
    requires |checks| == |requests|
    decreases |requests| - start
  {
    if start >= |requests| then Some({})
    else
      match ChunkAnswer(requests, auth, start)
      case None => Some(Individually(checks, requests, auth, start))
      case Some(answer) =>
        match FromChunk(checks, answer, start)
        case None => None
        case Some(granted) => Adding(granted, Collected(checks, requests, auth, ChunkEnd(start, |requests|)))
  }

  function Adding(granted: set<string>, rest: Option<set<string>>): Option<set<string>> {
    match rest case None => None case Some(more) => Some(granted + more)
  }

  lemma AddingTwice(a: set<string>, b: set<string>, rest: Option<set<string>>)
    ensures Adding(a, Adding(b, rest)) == Adding(a + b, rest)
    ensures Adding({}, rest) == rest
  {
    if rest.Some? {
      assert a + (b + rest.value) == a + b + rest.value;
      assert {} + rest.value == rest.value;
    }
  }

  /** It panics exactly when an answered chunk before the first failing one overruns. */
  lemma {:induction false} PanicsExactly(checks: seq<CapabilityCheck>, requests: seq<Request>, auth: Authorizer,
                                         start: nat)
    requires |checks| == |requests| && start <= |requests| && (start % MAX_BATCH_SIZE == 0 || start == |requests|)
    ensures Collected(checks, requests, auth, start).None? <==>
            exists c: nat :: start <= c < Cut(requests, auth, start) && c % MAX_BATCH_SIZE == 0
                             && OverrunsAt(requests, auth, c)
    decreases |requests| - start
  {
    hide Overruns;
    if start < |requests| && ChunkAnswer(requests, auth, start).Some? {
      var end := ChunkEnd(start, |requests|);
      PanicsExactly(checks, requests, auth, end);
      assert forall c: nat :: start <= c < end && c % MAX_BATCH_SIZE == 0 ==> c == start;
      if OverrunsAt(requests, auth, start) { assert start < Cut(requests, auth, start); }
    }
  }

  predicate OverrunsAt(requests: seq<Request>, auth: Authorizer, c: nat)
    requires c < |requests|
  {
    ChunkAnswer(requests, auth, c).Some? && Overruns(ChunkAnswer(requests, auth, c).value, c, |requests|)
  }

  /** Check i was granted: by its batch when it lies before the cut, by its own check otherwise. */
  predicate GrantedAt(requests: seq<Request>, auth: Authorizer, cut: nat, i: nat)
    requires i < |requests|
  {
    if i < cut then
      var a := ChunkAnswer(requests, auth, ChunkOf(i));
      a.Some? && i - ChunkOf(i) < |a.value| && a.value[i - ChunkOf(i)]
    else auth.check(i, requests[i]) == Some(true)
  }

  function Granted(checks: seq<CapabilityCheck>, requests: seq<Request>, auth: Authorizer, cut: nat,
                   from: nat): set<string>
    requires |checks| == |requests|
  {
    set i: nat | from <= i < |checks| && GrantedAt(requests, auth, cut, i) :: checks[i].capability
  }

  /** Result k of the answered chunk at c grants, but lies beyond the requests of that chunk. */
  predicate Surplus(requests: seq<Request>, auth: Authorizer, cut: nat, c: nat, k: nat) {
    && c < cut <= |requests| && c % MAX_BATCH_SIZE == 0
    && var a := ChunkAnswer(requests, auth, c);
       a.Some? && ChunkEnd(c, |requests|) - c <= k < |a.value| && a.value[k]
  }

  /** A surplus result from start on names a check of that capability. */
  ghost predicate NamedBySurplus(checks: seq<CapabilityCheck>, requests: seq<Request>, auth: Authorizer, cut: nat,
                                 start: nat, capability: string) {
    exists c: nat, k: nat :: start <= c && c + k < |checks| && Surplus(requests, auth, cut, c, k)
                             && checks[c + k].capability == capability
  }

  predicate ChunkStart(start: nat, n: nat) {
    start <= n && (start % MAX_BATCH_SIZE == 0 || start == n)
  }

  lemma InChunk(checks: seq<CapabilityCheck>, answer: seq<bool>, start: nat, capability: string)
    requires FromChunk(checks, answer, start).Some?
    ensures capability in FromChunk(checks, answer, start).value <==>
            exists k: nat :: NamesInChunk(checks, answer, start, capability, k)
  {
    if capability in FromChunk(checks, answer, start).value {
      var k: nat :| k < |answer| && answer[k] && start + k < |checks| && checks[start + k].capability == capability;
      assert NamesInChunk(checks, answer, start, capability, k);
    }
  }

  predicate NamesInChunk(checks: seq<CapabilityCheck>, answer: seq<bool>, start: nat, capability: string, k: nat) {
    k < |answer| && answer[k] && start + k < |checks| && checks[start + k].capability == capability
  }

  lemma GrantedInChunk(requests: seq<Request>, auth: Authorizer, cut: nat, start: nat, i: nat)
    requires start < |requests| && start % MAX_BATCH_SIZE == 0 && start <= i < ChunkEnd(start, |requests|) <= cut
    requires ChunkAnswer(requests, auth, start).Some?
    ensures var answer := ChunkAnswer(requests, auth, start).value;
            GrantedAt(requests, auth, cut, i) <==> i - start < |answer| && answer[i - start]
  {
    assert ChunkOf(i) == start;
  }

  lemma ChunkGrants(checks: seq<CapabilityCheck>, requests: seq<Request>, auth: Authorizer, cut: nat, start: nat,
                    capability: string, k: nat)
    requires |checks| == |requests| && start < |requests| && start % MAX_BATCH_SIZE == 0
    requires ChunkAnswer(requests, auth, start).Some? && ChunkEnd(start, |requests|) <= cut <= |requests|
    requires NamesInChunk(checks, ChunkAnswer(requests, auth, start).value, start, capability, k)
    ensures capability in Granted(checks, requests, auth, cut, start)
            || NamedBySurplus(checks, requests, auth, cut, start, capability)
  {
    if start + k < ChunkEnd(start, |requests|) {
      GrantedInChunk(requests, auth, cut, start, start + k);
    } else {
      assert Surplus(requests, auth, cut, start, k);
    }
  }

  lemma GrantedByChunk(checks: seq<CapabilityCheck>, requests: seq<Request>, auth: Authorizer, cut: nat, start: nat,
                       capability: string)
    requires |checks| == |requests| && start < |requests| && start % MAX_BATCH_SIZE == 0
    requires ChunkAnswer(requests, auth, start).Some? && ChunkEnd(start, |requests|) <= cut <= |requests|
    requires capability in Granted(checks, requests, auth, cut, start)
             || NamedBySurplus(checks, requests, auth, cut, start, capability)
    ensures (exists k: nat :: NamesInChunk(checks, ChunkAnswer(requests, auth, start).value, start, capability, k))
            || capability in Granted(checks, requests, auth, cut, ChunkEnd(start, |requests|))
            || NamedBySurplus(checks, requests, auth, cut, ChunkEnd(start, |requests|), capability)
  {
    hide GrantedAt;
    var answer, end := ChunkAnswer(requests, auth, start).value, ChunkEnd(start, |requests|);
    if capability in Granted(checks, requests, auth, cut, start) {
      var i: nat :| start <= i < |checks| && GrantedAt(requests, auth, cut, i) && checks[i].capability == capability;
      if i < end {
        GrantedInChunk(requests, auth, cut, start, i);
        assert NamesInChunk(checks, answer, start, capability, i - start);
      }
    } else {
      var c: nat, k: nat :| start <= c && c + k < |checks| && Surplus(requests, auth, cut, c, k)
                            && checks[c + k].capability == capability;
      if c < end {
        assert c == start;
        assert NamesInChunk(checks, answer, start, capability, k);
      }
    }
  }

  lemma ChunkMembers(checks: seq<CapabilityCheck>, requests: seq<Request>, auth: Authorizer, cut: nat, start: nat,
                     capability: string)
    requires |checks| == |requests| && start < |requests| && start % MAX_BATCH_SIZE == 0
    requires ChunkAnswer(requests, auth, start).Some? && ChunkEnd(start, |requests|) <= cut <= |requests|
    requires FromChunk(checks, ChunkAnswer(requests, auth, start).value, start).Some?
    ensures var answer, end := ChunkAnswer(requests, auth, start).value, ChunkEnd(start, |requests|);
            capability in FromChunk(checks, answer, start).value
            || capability in Granted(checks, requests, auth, cut, end)
            || NamedBySurplus(checks, requests, auth, cut, end, capability)
            <==> capability in Granted(checks, requests, auth, cut, start)
                 || NamedBySurplus(checks, requests, auth, cut, start, capability)
  {
    hide FromChunk, GrantedAt, Surplus, NamesInChunk;
    var answer, end := ChunkAnswer(requests, auth, start).value, ChunkEnd(start, |requests|);
    InChunk(checks, answer, start, capability);
    if k: nat :| NamesInChunk(checks, answer, start, capability, k) {
      ChunkGrants(checks, requests, auth, cut, start, capability, k);
    }
    if capability in Granted(checks, requests, auth, cut, start)
       || NamedBySurplus(checks, requests, auth, cut, start, capability) {
      GrantedByChunk(checks, requests, auth, cut, start, capability);
    }
  }

  /** Whatever the lengths of the answers, granted is what each check's own answer grants and what the surplus names. */
  lemma {:induction false} CollectedMembers(checks: seq<CapabilityCheck>, requests: seq<Request>, auth: Authorizer,
                                            start: nat, capability: string)
    requires |checks| == |requests| && ChunkStart(start, |requests|)
    requires Collected(checks, requests, auth, start).Some?
    ensures var cut := Cut(requests, auth, start);
            capability in Collected(checks, requests, auth, start).value <==>
            capability in Granted(checks, requests, auth, cut, start)
            || NamedBySurplus(checks, requests, auth, cut, start, capability)
    decreases |requests| - start
  {
    hide FromChunk, ChunkOf, Surplus;
    if start < |requests| && ChunkAnswer(requests, auth, start).Some? {
      CollectedMembers(checks, requests, auth, ChunkEnd(start, |requests|), capability);
      ChunkMembers(checks, requests, auth, Cut(requests, auth, start), start, capability);
    } else {
      NothingBeyond(checks, requests, auth, start, capability);
    }
  }

  lemma NothingBeyond(checks: seq<CapabilityCheck>, requests: seq<Request>, auth: Authorizer, cut: nat,
                      capability: string)
    requires |checks| == |requests| && cut <= |requests|
    ensures !NamedBySurplus(checks, requests, auth, cut, cut, capability)
    ensures Granted(checks, requests, auth, cut, cut) == Individually(checks, requests, auth, cut)
  {
  }

  /** Without surplus the result is what each check's own answer, batched or individual, grants. */
  lemma CollectedIsGranted(checks: seq<CapabilityCheck>, requests: seq<Request>, auth: Authorizer)
    requires |checks| == |requests|
    requires forall c: nat, k: nat :: !Surplus(requests, auth, Cut(requests, auth, 0), c, k)
    ensures Collected(checks, requests, auth, 0) ==
            Some(Granted(checks, requests, auth, Cut(requests, auth, 0), 0))
  {
    hide Collected, Granted, Cut, Surplus;
    var cut := Cut(requests, auth, 0);
    SurplusOrNoPanic(checks, requests, auth);
    forall capability { CollectedMembers(checks, requests, auth, 0, capability); }
    assert Collected(checks, requests, auth, 0).value == Granted(checks, requests, auth, cut, 0);
  }

  /** It panics exactly when a surplus result lies past the last check. */
  lemma SurplusOrNoPanic(checks: seq<CapabilityCheck>, requests: seq<Request>, auth: Authorizer)
    requires |checks| == |requests|
    ensures Collected(checks, requests, auth, 0).None? <==>
            exists c: nat, k: nat :: Surplus(requests, auth, Cut(requests, auth, 0), c, k) && c + k >= |checks|
  {
    hide Collected, Cut;
    var cut := Cut(requests, auth, 0);
    PanicsExactly(checks, requests, auth, 0);
    if Collected(checks, requests, auth, 0).None? {
      var c: nat :| c < cut && c % MAX_BATCH_SIZE == 0 && OverrunsAt(requests, auth, c);
      var answer := ChunkAnswer(requests, auth, c).value;
      var k: nat :| k < |answer| && answer[k] && c + k >= |requests|;
      assert Surplus(requests, auth, cut, c, k);
    }
    if c: nat, k: nat :| Surplus(requests, auth, cut, c, k) && c + k >= |checks| {
      assert OverrunsAt(requests, auth, c);
    }
  }

  /** Every surplus result grants the capability of a check its batch did not ask about. */
  lemma LongAnswerSpills(checks: seq<CapabilityCheck>, requests: seq<Request>, auth: Authorizer, c: nat, k: nat)
    requires |checks| == |requests| && Surplus(requests, auth, Cut(requests, auth, 0), c, k)
    requires Collected(checks, requests, auth, 0).Some?
    ensures ChunkEnd(c, |checks|) <= c + k < |checks|
    ensures checks[c + k].capability in Collected(checks, requests, auth, 0).value
  {
    hide Collected, Cut, Surplus;
    SurplusOrNoPanic(checks, requests, auth);
    assert c + k < |checks|;
    CollectedMembers(checks, requests, auth, 0, checks[c + k].capability);
    assert c + k >= ChunkEnd(c, |requests|) by { SurplusBeyond(requests, auth, Cut(requests, auth, 0), c, k); }
  }

  lemma SurplusBeyond(requests: seq<Request>, auth: Authorizer, cut: nat, c: nat, k: nat)
    requires Surplus(requests, auth, cut, c, k)
    ensures c + k >= ChunkEnd(c, |requests|)
  {
  }

  // ---------- agreement with a pointwise check ----------

  predicate RightAt(requests: seq<Request>, auth: Authorizer, allowed: Request -> bool, c: nat, k: nat)
    requires c < |requests|
  {
    var a := ChunkAnswer(requests, auth, c);
    a.Some? && c + k < ChunkEnd(c, |requests|) && k < |a.value| ==> a.value[k] == allowed(requests[c + k])
  }

  /** Every answer to a question asked is the right one; what follows the answers is not looked at. */
  ghost predicate Truthful(requests: seq<Request>, auth: Authorizer, allowed: Request -> bool) {
    && (forall c: nat, k: nat :: c < Cut(requests, auth, 0) && c % MAX_BATCH_SIZE == 0 ==>
          RightAt(requests, auth, allowed, c, k))
    && (forall i: nat :: Cut(requests, auth, 0) <= i < |requests| && auth.check(i, requests[i]).Some? ==>
          auth.check(i, requests[i]).value == allowed(requests[i]))
  }

  function Pointwise(checks: seq<CapabilityCheck>, requests: seq<Request>, allowed: Request -> bool): set<string>
    requires |checks| == |requests|
  {
    set i: nat | i < |checks| && allowed(requests[i]) :: checks[i].capability
  }

  lemma {:induction false} ChunksBeforeCut(requests: seq<Request>, auth: Authorizer, start: nat, i: nat)
    requires start <= |requests| && start % MAX_BATCH_SIZE == 0
    requires start <= i < Cut(requests, auth, start)
    ensures ChunkOf(i) <= i < |requests| && ChunkAnswer(requests, auth, ChunkOf(i)).Some?
    decreases |requests| - start
  {
    var end := ChunkEnd(start, |requests|);
    if i < end {
      assert ChunkOf(i) == start;
    } else {
      ChunksBeforeCut(requests, auth, end, i);
    }
  }

  /** Check i has an answer: in its batch before the cut, of its own after it. */
  predicate HasAnswer(requests: seq<Request>, auth: Authorizer, i: nat)
    requires i < |requests|
  {
    if i < Cut(requests, auth, 0) then
      var a := ChunkAnswer(requests, auth, ChunkOf(i)); a.Some? && i - ChunkOf(i) < |a.value|
    else auth.check(i, requests[i]).Some?
  }

  lemma GrantedAtIsPointwise(requests: seq<Request>, auth: Authorizer, allowed: Request -> bool, i: nat)
    requires Truthful(requests, auth, allowed) && i < |requests|
    ensures GrantedAt(requests, auth, Cut(requests, auth, 0), i) <==>
            allowed(requests[i]) && HasAnswer(requests, auth, i)
  {
    if i < Cut(requests, auth, 0) {
      ChunksBeforeCut(requests, auth, 0, i);
      assert RightAt(requests, auth, allowed, ChunkOf(i), i - ChunkOf(i));
    }
  }

  /** Some answered check, batched or individual, grants the capability of check i. */
  ghost predicate Answered(checks: seq<CapabilityCheck>, requests: seq<Request>, auth: Authorizer,
                           allowed: Request -> bool, i: nat)
    requires |checks| == |requests| && i < |checks|
  {
    exists j: nat :: j < |checks| && checks[j].capability == checks[i].capability && allowed(requests[j])
                     && HasAnswer(requests, auth, j)
  }

  lemma GotWithinWant(checks: seq<CapabilityCheck>, requests: seq<Request>, auth: Authorizer, allowed: Request -> bool)
    requires |checks| == |requests| && Truthful(requests, auth, allowed)
    ensures Granted(checks, requests, auth, Cut(requests, auth, 0), 0) <= Pointwise(checks, requests, allowed)
  {
    forall i: nat | i < |checks| && GrantedAt(requests, auth, Cut(requests, auth, 0), i) ensures allowed(requests[i]) {
      GrantedAtIsPointwise(requests, auth, allowed, i);
    }
  }

  lemma AnsweredDecides(checks: seq<CapabilityCheck>, requests: seq<Request>, auth: Authorizer,
                        allowed: Request -> bool, i: nat)
    requires |checks| == |requests| && Truthful(requests, auth, allowed) && i < |checks|
    ensures checks[i].capability in Granted(checks, requests, auth, Cut(requests, auth, 0), 0)
            <==> Answered(checks, requests, auth, allowed, i)
  {
    var cut := Cut(requests, auth, 0);
    forall j: nat | j < |checks|
      ensures GrantedAt(requests, auth, cut, j) <==> allowed(requests[j]) && HasAnswer(requests, auth, j)
    {
      GrantedAtIsPointwise(requests, auth, allowed, j);
    }
    hide GrantedAt, Cut, HasAnswer, Truthful;
    if Answered(checks, requests, auth, allowed, i) {
      var j: nat :| j < |checks| && checks[j].capability == checks[i].capability && allowed(requests[j])
                    && HasAnswer(requests, auth, j);
      assert GrantedAt(requests, auth, cut, j);
    }
  }

  /**
   * Whichever chunk fails first and however short the answers are, the result never exceeds the pointwise answer,
   * and equals it exactly when every allowed capability had an answered check.
   */
  lemma ChunkedEqualsPointwise(checks: seq<CapabilityCheck>, requests: seq<Request>, auth: Authorizer,
                               allowed: Request -> bool)
    requires |checks| == |requests| && Truthful(requests, auth, allowed)
    requires forall c: nat, k: nat :: !Surplus(requests, auth, Cut(requests, auth, 0), c, k)
    ensures var got := Collected(checks, requests, auth, 0);
            && got.Some? && got.value <= Pointwise(checks, requests, allowed)
            && (got.value == Pointwise(checks, requests, allowed) <==>
                forall i: nat :: i < |checks| && allowed(requests[i]) ==> Answered(checks, requests, auth, allowed, i))
    ensures (forall i: nat :: i < |requests| ==> HasAnswer(requests, auth, i)) ==>
            Collected(checks, requests, auth, 0) == Some(Pointwise(checks, requests, allowed))
  {
    hide HasAnswer, Truthful, Collected, Cut, Granted, Surplus;
    CollectedIsGranted(checks, requests, auth);
    var got, want := Collected(checks, requests, auth, 0).value, Pointwise(checks, requests, allowed);
    forall i: nat | i < |checks|
      ensures allowed(requests[i]) ==> checks[i].capability in want
      ensures allowed(requests[i]) ==> (checks[i].capability in got <==> Answered(checks, requests, auth, allowed, i))
    {
      AnsweredDecides(checks, requests, auth, allowed, i);
    }
    GotWithinWant(checks, requests, auth, allowed);
    if forall i: nat :: i < |checks| && allowed(requests[i]) ==> Answered(checks, requests, auth, allowed, i) {
      assert want <= got;
    }
    if forall i: nat :: i < |requests| ==> HasAnswer(requests, auth, i) {
      forall i: nat | i < |checks| && allowed(requests[i]) ensures Answered(checks, requests, auth, allowed, i) {}
    }
  }

  /**
   * When the answers to the questions asked are right, nothing beyond the pointwise answer is granted, and nothing
   * panics, exactly when every surplus result names a check whose capability is allowed anyway.
   */
  lemma WithinPointwiseExactly(checks: seq<CapabilityCheck>, requests: seq<Request>, auth: Authorizer,
                               allowed: Request -> bool)
    requires |checks| == |requests| && Truthful(requests, auth, allowed)
    ensures var got, want := Collected(checks, requests, auth, 0), Pointwise(checks, requests, allowed);
            (got.Some? && got.value <= want) <==>
            forall c: nat, k: nat :: Surplus(requests, auth, Cut(requests, auth, 0), c, k) ==>
              c + k < |checks| && checks[c + k].capability in want
  {
    hide Collected, Cut, Surplus, Truthful, Pointwise, Granted;
    var got, want := Collected(checks, requests, auth, 0), Pointwise(checks, requests, allowed);
    SurplusOrNoPanic(checks, requests, auth);
    GotWithinWant(checks, requests, auth, allowed);
    if got.Some? {
      forall capability { CollectedMembers(checks, requests, auth, 0, capability); }
      forall c: nat, k: nat | Surplus(requests, auth, Cut(requests, auth, 0), c, k)
        ensures c + k < |checks| && checks[c + k].capability in got.value
      {
        LongAnswerSpills(checks, requests, auth, c, k);
      }
    }
  }

  // ---------- the checks themselves ----------

  /** ':' becomes '_', every other character stays. */
  function Underscored(capability: string): string {
    seq(|capability|, i requires 0 <= i < |capability| => if capability[i] == ':' then '_' else capability[i])
  }

  /** Every question answered is answered by allowed, on the namespace, path, permission and subject of the request. */
  ghost predicate AnswersWith(auth: Authorizer, allowed: (string, string, string, string) -> bool) {
    && (forall n: nat, rs: seq<Request> :: auth.batch(n, rs).Some? ==>
          && |auth.batch(n, rs).value| == |rs|
          && forall k :: 0 <= k < |rs| ==>
               auth.batch(n, rs).value[k] == allowed(rs[k].namespace, rs[k].path, rs[k].permission, rs[k].subject))
    && (forall n: nat, r: Request :: auth.check(n, r) == Some(allowed(r.namespace, r.path, r.permission, r.subject)))
  }

  function OnRequest(allowed: (string, string, string, string) -> bool): Request -> bool {
    (r: Request) => allowed(r.namespace, r.path, r.permission, r.subject)
  }

  lemma AnswersAreTruthful(requests: seq<Request>, auth: Authorizer, allowed: (string, string, string, string) -> bool)
    requires AnswersWith(auth, allowed)
    ensures Truthful(requests, auth, OnRequest(allowed))
    ensures forall c: nat, k: nat :: !Surplus(requests, auth, Cut(requests, auth, 0), c, k)
    ensures forall i: nat :: i < |requests| ==> HasAnswer(requests, auth, i)
  {
    hide Cut;
    forall i: nat | i < |requests| ensures HasAnswer(requests, auth, i) {
      if i < Cut(requests, auth, 0) { ChunksBeforeCut(requests, auth, 0, i); }
    }
  }

  /**
   * Whichever batches fail, the capabilities granted are exactly those of the checks whose own namespace and permission
   * the authorizer allows the subject on the tenancy path.
   */
  lemma ResolvedOnChecks(checks: seq<CapabilityCheck>, subject: string, path: string, auth: Authorizer,
                         allowed: (string, string, string, string) -> bool)
    requires AnswersWith(auth, allowed)
    ensures var caps := Collected(checks, RequestsFor(checks, subject, path), auth, 0);
            caps.Some? && forall c :: c in caps.value <==>
              exists i :: 0 <= i < |checks| && checks[i].capability == c
                          && allowed(checks[i].namespace, path, Underscored(c), subject)
  {
    hide Collected, Cut, Surplus, Truthful, HasAnswer;
    var requests := RequestsFor(checks, subject, path);
    AnswersAreTruthful(requests, auth, allowed);
    ChunkedEqualsPointwise(checks, requests, auth, OnRequest(allowed));
    forall i: nat | i < |checks|
      ensures requests[i] == Request(checks[i].namespace, path, Underscored(checks[i].capability), subject)
    {
      assert CapabilityToPermission(checks[i].capability) == Underscored(checks[i].capability);
    }
    hide Underscored;
    forall c | c in Pointwise(checks, requests, OnRequest(allowed))
      ensures exists i :: 0 <= i < |checks| && checks[i].capability == c
                          && allowed(checks[i].namespace, path, Underscored(c), subject)
    {
      var i :| 0 <= i < |checks| && OnRequest(allowed)(requests[i]) && checks[i].capability == c;
    }
    forall i | 0 <= i < |checks| && allowed(checks[i].namespace, path, Underscored(checks[i].capability), subject)
      ensures checks[i].capability in Pointwise(checks, requests, OnRequest(allowed))
    {
      assert OnRequest(allowed)(requests[i]);
    }
  }

  /** The batches sent: consecutive chunks from 0 on, the last one possibly failing. */
  predicate IsChunking(batches: seq<(nat, nat)>, n: nat) {
    forall k :: 0 <= k < |batches| ==>
      && batches[k].0 == k * MAX_BATCH_SIZE && batches[k].1 == ChunkEnd(batches[k].0, n)
      && 1 <= batches[k].1 - batches[k].0 <= MAX_BATCH_SIZE
  }

  /** What is granted, or None when an answer overruns; the chunks sent and the checks made one by one. */
  method ResolveCapabilities(checks: seq<CapabilityCheck>, subject: string, tenant: string, partition: string,
                             auth: Authorizer)
    returns (caps: Option<set<string>>, batches: seq<(nat, nat)>, individual: seq<nat>)
    ensures var requests := RequestsFor(checks, subject, tenant + "/" + partition);
            var cut := Cut(requests, auth, 0);
            && caps == Collected(checks, requests, auth, 0)
            && (caps.Some? ==> individual == seq(|checks| - cut, i => cut + i))
            && (caps.Some? ==> cut == if individual == [] then |checks| else individual[0])
            && (caps.None? ==> individual == [])
    ensures forall allowed :: AnswersWith(auth, allowed) ==>
              caps.Some? && forall c :: c in caps.value <==>
                exists i :: 0 <= i < |checks| && checks[i].capability == c
                            && allowed(checks[i].namespace, tenant + "/" + partition, Underscored(c), subject)
    ensures forall k :: 0 <= k < |batches| ==>
              batches[k] == (10 * k, if 10 * k + 10 < |checks| then 10 * k + 10 else |checks|) && 10 * k < |checks|
    ensures caps.Some? && individual == [] ==> |checks| <= |batches| * MAX_BATCH_SIZE
    ensures individual != [] ==> individual[0] == (|batches| - 1) * MAX_BATCH_SIZE
  {
    hide Overruns, FromChunk, Individually, Underscored, AnswersWith;
    forall allowed | AnswersWith(auth, allowed)
      ensures var found := Collected(checks, RequestsFor(checks, subject, tenant + "/" + partition), auth, 0);
              found.Some? && forall c :: c in found.value <==>
                exists i :: 0 <= i < |checks| && checks[i].capability == c
                            && allowed(checks[i].namespace, tenant + "/" + partition, Underscored(c), subject)
    {
      ResolvedOnChecks(checks, subject, tenant + "/" + partition, auth, allowed);
    }
    caps, batches, individual := Some({}), [], [];
    if |checks| == 0 {
      return;
    }
    var requests := RequestsFor(checks, subject, tenant + "/" + partition);
    var granted: set<string> := {};
    var start: nat := 0;
    AddingTwice({}, {}, Collected(checks, requests, auth, 0));
    while start < |requests|
      invariant start == |batches| * MAX_BATCH_SIZE || start == |requests| <= |batches| * MAX_BATCH_SIZE
      invariant start <= |requests|
      invariant IsChunking(batches, |checks|)
      invariant Cut(requests, auth, 0) == Cut(requests, auth, start)
      invariant Collected(checks, requests, auth, 0) == Adding(granted, Collected(checks, requests, auth, start))
    {
      var end := ChunkEnd(start, |requests|);
      batches := batches + [(start, end)];
      var results := auth.batch(start, requests[start..end]);
      if results.None? {
        var fallback;
        fallback, individual := FallbackIndividualChecks(checks, requests, auth, start);
        return Some(granted + fallback), batches, individual;
      }
      var more := GrantResults(checks, results.value, start);
      if more.None? {
        return None, batches, [];
      }
      AddingTwice(granted, more.value, Collected(checks, requests, auth, end));
      granted := granted + more.value;
      start := end;
    }
    assert granted + {} == granted;
    caps := Some(granted);
  }

  /** The inner loop over one batch's results, up to the index that lies outside the list of checks. */
  method GrantResults(checks: seq<CapabilityCheck>, results: seq<bool>, start: nat) returns (r: Option<set<string>>)
    ensures r == FromChunk(checks, results, start)
  {
    var granted: set<string> := {};
    for i := 0 to |results|
      invariant forall k :: 0 <= k < i && results[k] ==> start + k < |checks|
      invariant granted == set k: nat | k < i && results[k] :: checks[start + k].capability
    {
      if results[i] {
        if start + i >= |checks| {
          return None;
        }
        granted := granted + {checks[start + i].capability};
      }
    }
    r := Some(granted);
  }

  /** Each remaining check on its own; an error only skips that check. */
  method FallbackIndividualChecks(checks: seq<CapabilityCheck>, requests: seq<Request>, auth: Authorizer, offset: nat)
    returns (caps: set<string>, individual: seq<nat>)
    requires |checks| == |requests| && offset <= |requests|
    ensures caps == Individually(checks, requests, auth, offset)
    ensures individual == seq(|requests| - offset, i => offset + i)
  {
    caps, individual := {}, [];
    for i := offset to |requests|
      invariant caps == set k: nat | offset <= k < i && auth.check(k, requests[k]) == Some(true) :: checks[k].capability
      invariant individual == seq(i - offset, k => offset + k)
    {
      individual := individual + [i];
      var result := auth.check(i, requests[i]);
      if result == Some(true) {
        caps := caps + {checks[i].capability};
      }
    }
  }
}
