// The concurrent fan-in of search providers: spawned senders on a buffered
// channel, a closer waiting for them, and a collector draining the channel.
module FanIn {
  import opened Wrappers

  /** results[i] is what provider i will deliver; each provider is one goroutine. */
  datatype State<R> = State(
    spawned: nat,
    sent: set<nat>,
    finished: set<nat>,
    closerStarted: bool,
    closed: bool,
    channel: seq<R>,
    collected: seq<R>,
    ended: bool)

  datatype Step = Spawn | Send(i: nat) | Finish(i: nat) | StartCloser | Close | Receive | End

  function Init<R>(): State<R> {
    State(0, {}, {}, false, false, [], [], false)
  }

  /** The wait group's counter. */
  function Pending<R>(s: State<R>): int {
    s.spawned - |s.finished|
  }

  /** The goroutine is at its send statement. */
  predicate WantsToSend<R>(s: State<R>, i: nat) {
    i < s.spawned && i !in s.sent
  }

  /** The step can be taken: a send needs an open channel with room, a receive a non-empty one. */
  predicate Enabled<R>(s: State<R>, results: seq<R>, step: Step) {
    match step
    case Spawn => s.spawned < |results|
    case Send(i) => WantsToSend(s, i) && i < |results| && !s.closed && |s.channel| < |results|
    case Finish(i) => i in s.sent && i !in s.finished
    case StartCloser => s.spawned == |results| && !s.closerStarted
    case Close => s.closerStarted && !s.closed && Pending(s) == 0
    case Receive => s.closerStarted && !s.ended && s.channel != []
    case End => s.closerStarted && !s.ended && s.channel == [] && s.closed
  }

  function Apply<R>(s: State<R>, results: seq<R>, step: Step): State<R>
    requires Enabled(s, results, step)
  {
    match step
    case Spawn => s.(spawned := s.spawned + 1)
    case Send(i) => s.(sent := s.sent + {i}, channel := s.channel + [results[i]])
    case Finish(i) => s.(finished := s.finished + {i})
    case StartCloser => s.(closerStarted := true)
    case Close => s.(closed := true)
    case Receive => s.(collected := s.collected + [s.channel[0]], channel := s.channel[1..])
    case End => s.(ended := true)
  }

  /** The state an interleaving leads to, if every step was enabled when taken. */
  function Run<R>(results: seq<R>, steps: seq<Step>): Option<State<R>> {
    if steps == [] then Some(Init())
    else
      var last := |steps| - 1;
      match Run(results, steps[..last])
      case None => None
      case Some(s) => if Enabled(s, results, steps[last]) then Some(Apply(s, results, steps[last])) else None
  }

  /** The channel is first in, first out: what is collected is what was sent, in the order it was sent. */
  lemma ChannelIsFifo<R>(s: State<R>, results: seq<R>, step: Step)
    requires Enabled(s, results, step)
    ensures var next := Apply(s, results, step);
            next.collected + next.channel ==
            s.collected + s.channel + match step case Send(i) => [results[i]] case _ => []
    ensures s.collected <= Apply(s, results, step).collected
  {
  }

  // ---------- the invariant ----------

  /** The results of the providers in a set, with multiplicity. */
  ghost function ResultsOf<R>(results: seq<R>, who: set<nat>): multiset<R> {
    if results == [] then multiset{}
    else
      var last := |results| - 1;
      ResultsOf(results[..last], who) + if last in who then multiset{results[last]} else multiset{}
  }

  ghost function Upto(n: nat): (r: set<nat>)
    ensures |r| == n
    ensures forall i: nat :: i in r <==> i < n
  {
    if n == 0 then {} else Upto(n - 1) + {n - 1}
  }

  ghost predicate Inv<R>(s: State<R>, results: seq<R>) {
    && s.spawned <= |results|
    && s.finished <= s.sent <= Upto(s.spawned)
    && (s.closerStarted ==> s.spawned == |results|)
    && (s.closed ==> s.closerStarted && Pending(s) == 0)
    && (s.ended ==> s.closed && s.channel == [])
    && multiset(s.collected) + multiset(s.channel) == ResultsOf(results, s.sent)
    && |s.collected| + |s.channel| == |s.sent|
  }

  lemma {:induction false} ResultsOfAdd<R>(results: seq<R>, who: set<nat>, i: nat)
    requires i !in who
    ensures ResultsOf(results, who + {i}) ==
            ResultsOf(results, who) + if i < |results| then multiset{results[i]} else multiset{}
  {
    if results != [] {
      var last := |results| - 1;
      ResultsOfAdd(results[..last], who, i);
      if i == last {
        assert last in who + {i};
      } else {
        assert last in who + {i} <==> last in who;
      }
    }
  }

  lemma {:induction false} ResultsOfAll<R>(results: seq<R>, who: set<nat>)
    requires forall i: nat :: i < |results| ==> i in who
    ensures ResultsOf(results, who) == multiset(results)
  {
    if results != [] {
      var last := |results| - 1;
      ResultsOfAll(results[..last], who);
      assert results == results[..last] + [results[last]];
    }
  }

  lemma {:induction false} ResultsOfNone<R>(results: seq<R>)
    ensures ResultsOf(results, {}) == multiset{}
  {
    if results != [] { ResultsOfNone(results[..|results| - 1]); }
  }

  lemma SubsetCard(a: set<nat>, b: set<nat>)
    requires a <= b
    ensures |a| <= |b| && (|a| == |b| ==> a == b)
  {
    var d := b - a;
    assert b == a + d;
    assert |b| == |a| + |d|;
  }

  lemma StepKeepsInv<R>(s: State<R>, results: seq<R>, step: Step)
    requires Inv(s, results) && Enabled(s, results, step)
    ensures Inv(Apply(s, results, step), results)
  {
    hide ResultsOf;
    match step
    case Spawn => assert Upto(s.spawned) <= Upto(s.spawned + 1);
    case Send(i) => SendKeepsInv(s, results, i);
    case Finish(i) => if s.closed { AllSent(s, results); }
    case Receive => assert s.channel == [s.channel[0]] + s.channel[1..];
    case _ =>
  }

  lemma SendKeepsInv<R>(s: State<R>, results: seq<R>, i: nat)
    requires Inv(s, results) && Enabled(s, results, Send(i))
    ensures Inv(Apply(s, results, Send(i)), results)
  {
    ResultsOfAdd(results, s.sent, i);
    hide ResultsOf;
    assert multiset(s.channel + [results[i]]) == multiset(s.channel) + multiset{results[i]};
    assert |s.sent + {i}| == |s.sent| + 1;
  }

  /** When the wait group is at zero every provider has sent. */
  lemma AllSent<R>(s: State<R>, results: seq<R>)
    requires Inv(s, results) && s.closerStarted && Pending(s) == 0
    ensures s.sent == s.finished == Upto(|results|)
  {
    SubsetCard(s.finished, Upto(|results|));
  }

  /** A sender never waits for room and never finds the channel closed. */
  lemma NoSendBlocks<R>(s: State<R>, results: seq<R>, i: nat)
    requires Inv(s, results) && WantsToSend(s, i)
    ensures Enabled(s, results, Send(i))
  {
    var n := |results|;
    SubsetCard(s.sent + {i}, Upto(s.spawned));
    if s.closed { AllSent(s, results); }
  }

  /** Until the collector ends some step is always possible. */
  lemma NoDeadlock<R>(s: State<R>, results: seq<R>)
    requires Inv(s, results) && !s.ended
    ensures exists step :: Enabled(s, results, step)
  {
    if s.spawned < |results| {
      assert Enabled(s, results, Spawn);
    } else if exists i: nat :: WantsToSend(s, i) {
      var i: nat :| WantsToSend(s, i);
      NoSendBlocks(s, results, i);
    } else if exists i :: i in s.sent && i !in s.finished {
      var i :| i in s.sent && i !in s.finished;
      assert Enabled(s, results, Finish(i));
    } else if !s.closerStarted {
      assert Enabled(s, results, StartCloser);
    } else if !s.closed {
      forall i: nat | i < s.spawned ensures i in s.sent { assert !WantsToSend(s, i); }
      assert s.sent == Upto(s.spawned) == s.finished;
      assert Enabled(s, results, Close);
    } else {
      assert Enabled(s, results, Receive) || Enabled(s, results, End);
    }
  }

  // ---------- termination ----------

  /** Steps still to be taken. */
  function Remaining<R>(s: State<R>, results: seq<R>): int {
    (|results| - s.spawned) + (|results| - |s.sent|) + (|results| - |s.finished|) + (|results| - |s.collected|)
    + (if s.closerStarted then 0 else 1) + (if s.closed then 0 else 1) + (if s.ended then 0 else 1)
  }

  lemma RemainingBounds<R>(s: State<R>, results: seq<R>)
    requires Inv(s, results)
    ensures Remaining(s, results) >= 0
    ensures s.ended <==> Remaining(s, results) == 0
  {
    SubsetCard(s.sent, Upto(s.spawned));
    SubsetCard(s.finished, s.sent);
    if s.ended { AllSent(s, results); }
  }

  lemma StepDecreases<R>(s: State<R>, results: seq<R>, step: Step)
    requires Inv(s, results) && Enabled(s, results, step)
    ensures Remaining(Apply(s, results, step), results) == Remaining(s, results) - 1
  {
  }

  /**
   * Every interleaving keeps the invariant and counts down, so exactly 4n+3 steps bring any schedule to its end,
   * and only then has the collector left its loop.
   */
  lemma {:induction false} RunCountsDown<R>(results: seq<R>, steps: seq<Step>)
    requires Run(results, steps).Some?
    ensures var s := Run(results, steps).value;
            && Inv(s, results)
            && |steps| + Remaining(s, results) == 4 * |results| + 3
            && (s.ended <==> |steps| == 4 * |results| + 3)
  {
    if steps == [] {
      ResultsOfNone(results);
    } else {
      var before := steps[..|steps| - 1];
      var s := Run(results, before).value;
      RunCountsDown(results, before);
      StepKeepsInv(s, results, steps[|steps| - 1]);
      StepDecreases(s, results, steps[|steps| - 1]);
    }
    RemainingBounds(Run(results, steps).value, results);
  }

  /** When the collector ends it holds every provider's result, each once, in some order. */
  lemma CollectsEveryResult<R>(results: seq<R>, steps: seq<Step>)
    requires Run(results, steps).Some? && Run(results, steps).value.ended
    ensures multiset(Run(results, steps).value.collected) == multiset(results)
  {
    var s := Run(results, steps).value;
    RunCountsDown(results, steps);
    AllSent(s, results);
    ResultsOfAll(results, s.sent);
  }
}
