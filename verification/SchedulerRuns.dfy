/**
 Whole runs of the batching scheduler (scheduler/scheduler.py): each request is resolved exactly once, all are
 resolved in the end, and admission is the best possible.
 */
module SchedulerRuns {
  import opened Wrappers
  import opened RateLimiter
  import opened Requests
  import opened Scheduling

  // ----- Exactly-once resolution -----

  /** A future once resolved, or failed by the limiter, never changes. */
  lemma {:induction false} ResolvedOnce(c: Config, start: real, events: seq<Event>, more: seq<Event>, r: Request)
    requires Possible(c, Start(c, start), events + more)
    requires r in Run(c, start, events).futures && !Run(c, start, events).futures[r].Pending?
    ensures r in Run(c, start, events + more).futures
    ensures Run(c, start, events + more).futures[r] == Run(c, start, events).futures[r]
  {
    hide Inv, Possible, Reach, Start;
    StartInv(c, start);
    ReachConcat(c, Start(c, start), events, more);
    ReachKeeps(c, Start(c, start), events);
    ReachKeeps(c, Run(c, start, events), more);
  }

  /**
   In every run, each submitted request is in exactly one of: on its way to the queue, queued, in the current batch
   with its future unresolved (once in all), or settled; a rate-limited one is never queued; requests_processed
   counts the accepted requests resolved, those of the batch being resolved excepted, so exactly at the loop's
   boundaries; and a batch has at most max_batch_size requests (one when that is below one).
   */
  lemma {:induction false} ExactlyOnce(c: Config, start: real, events: seq<Event>)
    requires Possible(c, Start(c, start), events)
    ensures var s := Run(c, start, events);
            && (forall r | r in s.futures :: InHand(s, r) == if s.futures[r].Pending? then 1 else 0)
            && (forall r | r !in s.futures :: InHand(s, r) == 0)
            && s.processed + s.settled == |Resolved(s.futures)|
            && (s.batch == [] ==> s.processed == |Resolved(s.futures)|)
            && |s.batch| <= (if c.maxBatchSize < 1 then 1 else c.maxBatchSize)
  {
    hide Possible, Reach, Start, InHand, Resolved;
    StartInv(c, start);
    ReachKeeps(c, Start(c, start), events);
  }

  // ----- Every request gets its own answer -----

  /** The futures of the batch resolved so far have the answers of their places in it. */
  ghost predicate OwnSoFar(s: Sched) {
    && s.settled <= |s.batch|
    && (s.answers.None? ==> s.settled == 0)
    && forall i | 0 <= i < s.settled ::
         && s.batch[i] in s.futures && !s.futures[s.batch[i]].Pending?
         && s.answers.Some?
         && (s.answers.value.Results? ==>
               i < |s.answers.value.tokens| && s.futures[s.batch[i]] == Answered(s.answers.value.tokens[i]))
         && (s.answers.value.Raised? ==> s.futures[s.batch[i]] == Errored)
  }

  lemma StepOwn(c: Config, s: Sched, e: Event)
    requires Inv(c, s) && Enabled(c, s, e) && OwnSoFar(s)
    ensures OwnSoFar(Step(c, s, e))
  {
    if e.Settle? {
      SettleOwn(c, s);
    } else if e.Admit? {
      AdmitOwn(c, s, e.r, e.now);
    } else {
      hide Inv, Smallest, Acquire, Allows;
    }
  }

  lemma SettleOwn(c: Config, s: Sched)
    requires Inv(c, s) && Enabled(c, s, Settle) && OwnSoFar(s)
    ensures OwnSoFar(Step(c, s, Settle))
  {
    SettleKeeps(c, s);
    assert s.answers.value.Results? ==> |s.answers.value.tokens| == |s.batch|;
    hide Inv, KeepsSettled;
  }

  lemma AdmitOwn(c: Config, s: Sched, r: Request, now: real)
    requires r !in s.futures && OwnSoFar(s)
    ensures OwnSoFar(Step(c, s, Admit(r, now)))
  {
    hide Acquire, Allows;
  }

  /**
   In every interleaving: while a batch is being resolved, the future of its i-th request, for every i already
   reached, holds the model run's i-th result, or the error when the run raised.
   */
  lemma {:induction false} OwnAnswers(c: Config, start: real, events: seq<Event>)
    requires Possible(c, Start(c, start), events)
    ensures var s := Run(c, start, events);
            && s.settled <= |s.batch| && (s.answers.None? ==> s.settled == 0)
            && forall i | 0 <= i < s.settled ::
                 && s.batch[i] in s.futures && s.answers.Some?
                 && (s.answers.value.Results? ==>
                       i < |s.answers.value.tokens| && s.futures[s.batch[i]] == Answered(s.answers.value.tokens[i]))
                 && (s.answers.value.Raised? ==> s.futures[s.batch[i]] == Errored)
  {
    OwnAlways(c, start, events);
    hide Possible, Run;
    var s := Run(c, start, events);
    forall i | 0 <= i < s.settled
      ensures s.batch[i] in s.futures && s.answers.Some?
      ensures s.answers.value.Results? ==>
                i < |s.answers.value.tokens| && s.futures[s.batch[i]] == Answered(s.answers.value.tokens[i])
      ensures s.answers.value.Raised? ==> s.futures[s.batch[i]] == Errored
    {
      assert !s.futures[s.batch[i]].Pending?;
    }
  }

  lemma {:induction false} OwnAlways(c: Config, start: real, events: seq<Event>)
    requires Possible(c, Start(c, start), events)
    ensures OwnSoFar(Run(c, start, events))
  {
    hide Possible, Reach, Start, Step, Enabled, Inv, OwnSoFar;
    if events == [] {
      NoneYet(c, start);
    } else {
      var front, e := events[..|events| - 1], events[|events| - 1];
      assert front + [e] == events;
      ReachSnoc(c, Start(c, start), front, e);
      OwnAlways(c, start, front);
      StartInv(c, start);
      ReachKeeps(c, Start(c, start), front);
      StepOwn(c, Run(c, start, front), e);
    }
  }

  lemma NoneYet(c: Config, start: real)
    ensures OwnSoFar(Run(c, start, []))
  {}

  // ----- Every accepted request is resolved in the end -----

  /** At most how many steps are left for the requests in hand. */
  function Left(s: Sched): nat {
    5 * |s.entering| + 4 * |s.queue| + |Unsettled(s)| + if s.batch == [] then 0 else if s.answers.None? then 2 else 1
  }

  lemma {:induction false} EveryStepCounts(c: Config, s: Sched, e: Event)
    requires Inv(c, s) && Enabled(c, s, e) && !e.Admit?
    ensures Left(Step(c, s, e)) < Left(s)
  {
    if e.Settle? { NextUnsettled(s); }
  }

  lemma {:induction false} SomeSmallest(bag: multiset<Request>) returns (r: Request)
    requires bag != multiset{}
    ensures Smallest(r, bag)
    decreases |bag|
  {
    var x :| x in bag;
    var rest := bag - multiset{x};
    if rest == multiset{} {
      assert bag == multiset{x};
      return x;
    }
    r := SomeSmallest(rest);
    assert forall y | y in bag :: y == x || y in rest;
    if Before(x, r) { r := x; }
  }

  /** While a request is in hand some step for it is enabled, whatever the model run turns out to do. */
  lemma {:induction false} NeverStuck(c: Config, s: Sched) returns (e: Event)
    requires Inv(c, s) && Left(s) > 0
    ensures !e.Admit? && Enabled(c, s, e)
  {
    if s.answers.Some? {
      return if s.settled < |s.batch| then Settle else Tally;
    } else if s.batch != [] {
      return Answer(Raised);
    } else if s.queue != multiset{} {
      var r := SomeSmallest(s.queue);
      return Take(r);
    }
    assert Unsettled(s) == [];
    var r :| r in s.entering;
    return Enqueue(r);
  }

  ghost predicate NoAdmits(events: seq<Event>) {
    forall e | e in events :: !e.Admit?
  }

  /** Nothing is left to do for the requests submitted so far. */
  ghost predicate Idle(c: Config, s: Sched) {
    forall e: Event :: Enabled(c, s, e) ==> e.Admit?
  }

  lemma {:induction false} AtMostLeft(c: Config, s: Sched, more: seq<Event>)
    requires Inv(c, s) && Possible(c, s, more) && NoAdmits(more)
    ensures |more| + Left(Reach(c, s, more)) <= Left(s)
  {
    if more != [] {
      var front, e := more[..|more| - 1], more[|more| - 1];
      assert front + [e] == more && !e.Admit? && NoAdmits(front);
      hide Inv, Possible, Step, Enabled, Left, NoAdmits;
      ReachSnoc(c, s, front, e);
      AtMostLeft(c, s, front);
      ReachKeeps(c, s, front);
      EveryStepCounts(c, Reach(c, s, front), e);
    }
  }

  /**
   Once submissions stop, the scheduler makes at most Left(s) steps more, however its threads interleave and whatever
   the model runs do; and when no step is left, every request accepted has its answer or its error.
   */
  lemma {:induction false} DrainLaw(c: Config, start: real, events: seq<Event>, more: seq<Event>)
    requires Possible(c, Start(c, start), events + more) && NoAdmits(more)
    ensures |more| <= Left(Run(c, start, events))
    ensures var s := Run(c, start, events + more);
            Idle(c, s) ==> s.queue == multiset{} && s.batch == [] && forall r | r in s.futures :: !s.futures[r].Pending?
  {
    hide Possible, Reach, Enabled, Start, NoAdmits;
    StartInv(c, start);
    ReachConcat(c, Start(c, start), events, more);
    ReachKeeps(c, Start(c, start), events);
    AtMostLeft(c, Run(c, start, events), more);
    ReachKeeps(c, Run(c, start, events), more);
    var s := Run(c, start, events + more);
    if Idle(c, s) {
      if Left(s) > 0 { var e := NeverStuck(c, s); }
      NothingInHand(c, s);
    }
  }

  // ----- Admission -----

  /** The times of the submissions so far. */
  function SubmitTimes(events: seq<Event>): seq<real> {
    if events == [] then []
    else SubmitTimes(events[..|events| - 1]) + if events[|events| - 1].Admit? then [events[|events| - 1].now] else []
  }

  function Accepted(futures: map<Request, Future>): set<Request> {
    set r | r in futures && !futures[r].Limited?
  }

  /** A submission is one unit acquire, and is accepted when the limiter allows it. */
  lemma SubmitAdmits(c: Config, s: Sched, r: Request, now: real)
    requires r !in s.futures
    ensures var q := Step(c, s, Admit(r, now));
            && q.bucket == Acquire(c.limits, s.bucket, 1.0, now)
            && |Accepted(q.futures)|
               == |Accepted(s.futures)| + if Allows(c.limits, s.bucket, 1.0, now) then 1 else 0
  {
    hide Acquire, Allows;
    var q := Step(c, s, Admit(r, now));
    assert Accepted(q.futures)
        == if Allows(c.limits, s.bucket, 1.0, now) then Accepted(s.futures) + {r} else Accepted(s.futures);
  }

  /** No other step touches the limiter or the accepted requests. */
  lemma OthersAdmitNothing(c: Config, s: Sched, e: Event)
    requires Inv(c, s) && Enabled(c, s, e) && !e.Admit?
    ensures Step(c, s, e).bucket == s.bucket && Accepted(Step(c, s, e).futures) == Accepted(s.futures)
  {
    if e.Settle? { SettleKeeps(c, s); }
  }

  lemma {:induction false} RunSnoc(c: Config, start: real, events: seq<Event>, e: Event)
    requires Possible(c, Start(c, start), events + [e])
    ensures Possible(c, Start(c, start), events) && Inv(c, Run(c, start, events))
            && Enabled(c, Run(c, start, events), e)
    ensures Run(c, start, events + [e]) == Step(c, Run(c, start, events), e)
    ensures SubmitTimes(events + [e]) == SubmitTimes(events) + if e.Admit? then [e.now] else []
  {
    hide Possible, Enabled, Step, Inv, Reach;
    ReachSnoc(c, Start(c, start), events, e);
    StartInv(c, start);
    ReachKeeps(c, Start(c, start), events);
    assert (events + [e])[..|events|] == events;
  }

  lemma NothingYet(c: Config, start: real)
    ensures Run(c, start, []).bucket
            == PolicyAfter(c.limits, start, SubmitTimes([]), Greedy(c.limits, start, SubmitTimes([])))
    ensures |Accepted(Run(c, start, []).futures)| == Granted(Greedy(c.limits, start, SubmitTimes([])))
  {
    assert Accepted(map[]) == {} && SubmitTimes([]) == [];
  }

  lemma KnownOnce(c: Config, s: Sched, e: Event)
    requires Enabled(c, s, e) && e.Admit?
    ensures e.r !in s.futures
  {}

  /** The limiter sees one unit acquire per submission, and exactly those it allows are accepted. */
  lemma {:induction false} AdmissionIsGreedy(c: Config, start: real, events: seq<Event>)
    requires Possible(c, Start(c, start), events)
    ensures var s, times := Run(c, start, events), SubmitTimes(events);
            && s.bucket == PolicyAfter(c.limits, start, times, Greedy(c.limits, start, times))
            && |Accepted(s.futures)| == Granted(Greedy(c.limits, start, times))
  {
    hide *;
    if events == [] {
      NothingYet(c, start);
    } else {
      var front, e := events[..|events| - 1], events[|events| - 1];
      assert front + [e] == events;
      RunSnoc(c, start, front, e);
      AdmissionIsGreedy(c, start, front);
      var s, times := Run(c, start, front), SubmitTimes(front);
      if e.Admit? {
        KnownOnce(c, s, e);
        SubmitAdmits(c, s, e.r, e.now);
        GreedySnoc(c.limits, start, times, e.now);
      } else {
        OthersAdmitNothing(c, s, e);
        assert times + [] == times;
      }
    }
  }

  /**
   At every moment the scheduler has accepted at least as many of the requests submitted so far as any
   policy that never overdraws a bucket of the same rate and capacity.
   */
  lemma {:induction false} AdmissionOptimal(c: Config, start: real, events: seq<Event>, grants: seq<bool>)
    requires Possible(c, Start(c, start), events) && |grants| == |SubmitTimes(events)|
    requires NeverOverdraws(c.limits, start, SubmitTimes(events), grants)
    ensures Granted(grants) <= |Accepted(Run(c, start, events).futures)|
  {
    var times := SubmitTimes(events);
    AdmissionIsGreedy(c, start, events);
    GreedyOptimal(c.limits, start, times, grants, |times|);
    assert grants[..|times|] == grants && times[..|times|] == times;
  }
}
