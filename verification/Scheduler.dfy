/**
 The batching scheduler (scheduler/scheduler.py) as steps: API threads submit, the worker thread pops requests into
 a batch, runs the model on it and resolves its futures. A submission is two steps, as the limiter and the queue
 have a lock each; resolving a batch is one step a future and a last one for the counters. Steps of different
 threads may fall in any order; when the worker stops collecting is left open, as its deadline is a matter of timing.
 */
module Scheduling {
  import opened Wrappers
  import opened RateLimiter
  import opened Requests

  /** A request's future. A rate-limited one is created already failed. */
  datatype Future = Pending | Answered(tokens: nat) | Errored | Limited

  datatype Config = Config(limits: Limits, maxBatchSize: int)

  /** What _run_batch does: one result per request, or an exception. */
  datatype Outcome = Results(tokens: seq<nat>) | Raised

  /**
   `entering` are the requests admitted but not yet pushed; once the model run has given `answers`, `settled` counts
   the futures of the batch resolved so far.
   */
  datatype Sched = Sched(bucket: Bucket, entering: multiset<Request>, queue: multiset<Request>, batch: seq<Request>,
                         answers: Option<Outcome>, settled: nat, futures: map<Request, Future>,
                         batches: nat, processed: nat)

  datatype Event = Admit(r: Request, now: real) | Enqueue(r: Request)
                 | Take(r: Request) | Answer(outcome: Outcome) | Settle | Tally

  function Start(c: Config, now: real): Sched {
    Sched(Created(c.limits, now), multiset{}, multiset{}, [], None, 0, map[], 0, 0)
  }

  function FutureOf(outcome: Outcome, i: nat): Future {
    match outcome
    case Raised => Errored
    case Results(tokens) => if i < |tokens| then Answered(tokens[i]) else Pending
  }

  /** Whether an event can happen now. Each request object is submitted once. */
  ghost predicate Enabled(c: Config, s: Sched, e: Event) {
    match e
    case Admit(r, now) => r !in s.futures
    case Enqueue(r) => r in s.entering
    case Take(r) => s.answers.None? && Smallest(r, s.queue) && (s.batch == [] || |s.batch| < c.maxBatchSize)
    case Answer(outcome) => s.answers.None? && s.batch != [] && (outcome.Results? ==> |outcome.tokens| == |s.batch|)
    case Settle => s.answers.Some? && s.settled < |s.batch|
    case Tally => s.answers.Some? && s.settled >= |s.batch|
  }

  function Step(c: Config, s: Sched, e: Event): Sched {
    match e
    case Admit(r, now) =>
      var bucket := Acquire(c.limits, s.bucket, 1.0, now);
      if Allows(c.limits, s.bucket, 1.0, now)
      then s.(bucket := bucket, entering := s.entering + multiset{r}, futures := s.futures[r := Pending])
      else s.(bucket := bucket, futures := s.futures[r := Limited])
    case Enqueue(r) => s.(entering := s.entering - multiset{r}, queue := s.queue + multiset{r})
    case Take(r) => s.(queue := s.queue - multiset{r}, batch := s.batch + [r])
    case Answer(outcome) => s.(answers := Some(outcome), settled := 0)
    case Settle =>
      if s.answers.Some? && s.settled < |s.batch|
      then s.(futures := s.futures[s.batch[s.settled] := FutureOf(s.answers.value, s.settled)],
          settled := s.settled + 1)
      else s
    case Tally =>
      s.(batch := [], answers := None, settled := 0, batches := s.batches + 1, processed := s.processed + |s.batch|)
  }

  function Reach(c: Config, s: Sched, events: seq<Event>): Sched {
    if events == [] then s else Step(c, Reach(c, s, events[..|events| - 1]), events[|events| - 1])
  }

  function Run(c: Config, start: real, events: seq<Event>): Sched {
    Reach(c, Start(c, start), events)
  }

  ghost predicate Possible(c: Config, s: Sched, events: seq<Event>) {
    forall i: nat | i < |events| :: EnabledAt(c, s, events, i)
  }

  ghost predicate EnabledAt(c: Config, s: Sched, events: seq<Event>, i: nat)
    requires i < |events|
  {
    Enabled(c, Reach(c, s, events[..i]), events[i])
  }

  lemma ReachSnoc(c: Config, s: Sched, events: seq<Event>, e: Event)
    ensures Reach(c, s, events + [e]) == Step(c, Reach(c, s, events), e)
    ensures Possible(c, s, events + [e]) <==> Possible(c, s, events) && Enabled(c, Reach(c, s, events), e)
  {
    hide Step, Enabled;
    var all := events + [e];
    assert all[..|events|] == events;
    forall i: nat | i < |events| ensures EnabledAt(c, s, all, i) == EnabledAt(c, s, events, i) {
      assert all[..i] == events[..i];
    }
    assert EnabledAt(c, s, all, |events|) == Enabled(c, Reach(c, s, events), e);
  }

  // ----- Exactly-once resolution -----

  /** The requests of the batch whose futures are not resolved yet. */
  function Unsettled(s: Sched): seq<Request> {
    if s.settled <= |s.batch| then s.batch[s.settled..] else []
  }

  /** How often a request is on its way to the queue, queued, or in the batch with its future unresolved. */
  function InHand(s: Sched, r: Request): nat {
    s.entering[r] + s.queue[r] + multiset(Unsettled(s))[r]
  }

  /** Accepted requests whose future has an answer or an error. */
  function Resolved(futures: map<Request, Future>): set<Request> {
    set r | r in futures && (futures[r].Answered? || futures[r].Errored?)
  }

  predicate Waits(futures: map<Request, Future>, r: Request) {
    r in futures && futures[r].Pending?
  }

  ghost predicate Inv(c: Config, s: Sched) {
    && (forall r :: InHand(s, r) == if Waits(s.futures, r) then 1 else 0)
    && s.processed + s.settled == |Resolved(s.futures)|
    && s.settled <= |s.batch| && (s.answers.None? ==> s.settled == 0)
    && (s.answers.Some? ==> s.batch != [] && (s.answers.value.Results? ==> |s.answers.value.tokens| == |s.batch|))
    && (|s.batch| <= 1 || |s.batch| <= c.maxBatchSize)
  }

  /** No event but Settle changes the future of a request already known, and Settle only one that waits. */
  ghost predicate KeepsSettled(s: Sched, q: Sched) {
    forall r | r in s.futures && !s.futures[r].Pending? :: r in q.futures && q.futures[r] == s.futures[r]
  }

  lemma AdmitMoves(c: Config, s: Sched, r: Request, now: real, x: Request)
    ensures InHand(Step(c, s, Admit(r, now)), x)
            == InHand(s, x) + if x == r && Allows(c.limits, s.bucket, 1.0, now) then 1 else 0
  {
    hide Acquire, Allows;
  }

  lemma AdmitKeeps(c: Config, s: Sched, r: Request, now: real)
    requires Inv(c, s) && r !in s.futures
    ensures Inv(c, Step(c, s, Admit(r, now))) && KeepsSettled(s, Step(c, s, Admit(r, now)))
  {
    var q := Step(c, s, Admit(r, now));
    assert Resolved(q.futures) == Resolved(s.futures);
    hide Acquire, Allows, InHand, Resolved;
    forall x ensures InHand(q, x) == if Waits(q.futures, x) then 1 else 0 {
      AdmitMoves(c, s, r, now, x);
      assert InHand(s, x) == if Waits(s.futures, x) then 1 else 0;
    }
  }

  lemma EnqueueKeeps(c: Config, s: Sched, r: Request)
    requires Inv(c, s) && r in s.entering
    ensures Inv(c, Step(c, s, Enqueue(r)))
  {
    var q := Step(c, s, Enqueue(r));
    forall x ensures InHand(q, x) == InHand(s, x) {}
  }

  lemma TakeMoves(c: Config, s: Sched, r: Request, x: Request)
    requires s.settled == 0 && r in s.queue
    ensures InHand(Step(c, s, Take(r)), x) == InHand(s, x)
  {
    var q := Step(c, s, Take(r));
    assert Unsettled(s) == s.batch && Unsettled(q) == s.batch + [r];
    assert multiset(s.batch + [r]) == multiset(s.batch) + multiset{r};
  }

  lemma TakeKeeps(c: Config, s: Sched, r: Request)
    requires Inv(c, s) && Enabled(c, s, Take(r))
    ensures Inv(c, Step(c, s, Take(r)))
  {
    hide InHand, Resolved, AtMost;
    var q := Step(c, s, Take(r));
    forall x ensures InHand(q, x) == if Waits(q.futures, x) then 1 else 0 {
      TakeMoves(c, s, r, x);
      assert InHand(s, x) == if Waits(s.futures, x) then 1 else 0;
    }
  }

  /** Resolving one pending future more. */
  lemma ResolveOne(futures: map<Request, Future>, r: Request, f: Future)
    requires Waits(futures, r) && (f.Answered? || f.Errored?)
    ensures |Resolved(futures[r := f])| == |Resolved(futures)| + 1
  {
    assert Resolved(futures[r := f]) == Resolved(futures) + {r};
  }

  lemma NextUnsettled(s: Sched)
    requires s.settled < |s.batch|
    ensures Unsettled(s) == [s.batch[s.settled]] + s.batch[s.settled + 1..]
    ensures multiset(Unsettled(s)) == multiset{s.batch[s.settled]} + multiset(s.batch[s.settled + 1..])
  {}

  lemma SettleMoves(c: Config, s: Sched, x: Request)
    requires Enabled(c, s, Settle)
    ensures InHand(s, x) == InHand(Step(c, s, Settle), x) + if x == s.batch[s.settled] then 1 else 0
  {
    NextUnsettled(s);
    assert Unsettled(Step(c, s, Settle)) == s.batch[s.settled + 1..];
  }

  lemma SettleKeeps(c: Config, s: Sched)
    requires Inv(c, s) && Enabled(c, s, Settle)
    ensures Inv(c, Step(c, s, Settle)) && KeepsSettled(s, Step(c, s, Settle))
    ensures Waits(s.futures, s.batch[s.settled])
  {
    var q, r := Step(c, s, Settle), s.batch[s.settled];
    hide InHand, Resolved;
    SettleMoves(c, s, r);
    assert InHand(s, r) == if Waits(s.futures, r) then 1 else 0;
    ResolveOne(s.futures, r, FutureOf(s.answers.value, s.settled));
    forall x ensures InHand(q, x) == if Waits(q.futures, x) then 1 else 0 {
      assert InHand(s, x) == if Waits(s.futures, x) then 1 else 0;
      SettleMoves(c, s, x);
    }
  }

  lemma TallyKeeps(c: Config, s: Sched)
    requires Inv(c, s) && Enabled(c, s, Tally)
    ensures Inv(c, Step(c, s, Tally))
  {
    var q := Step(c, s, Tally);
    assert Unsettled(s) == [] && Unsettled(q) == [];
    forall x ensures InHand(q, x) == InHand(s, x) {}
  }

  lemma StepKeeps(c: Config, s: Sched, e: Event)
    requires Inv(c, s) && Enabled(c, s, e)
    ensures Inv(c, Step(c, s, e)) && KeepsSettled(s, Step(c, s, e))
  {
    match e
    case Admit(r, now) => AdmitKeeps(c, s, r, now);
    case Enqueue(r) => EnqueueKeeps(c, s, r);
    case Take(r) => TakeKeeps(c, s, r);
    case Answer(outcome) => AnswerKeeps(c, s, outcome);
    case Settle => SettleKeeps(c, s);
    case Tally => TallyKeeps(c, s);
  }

  lemma AnswerKeeps(c: Config, s: Sched, outcome: Outcome)
    requires Inv(c, s) && Enabled(c, s, Answer(outcome))
    ensures Inv(c, Step(c, s, Answer(outcome)))
  {
    var q := Step(c, s, Answer(outcome));
    forall x ensures InHand(q, x) == InHand(s, x) {}
  }

  lemma {:induction false} ReachKeeps(c: Config, s: Sched, events: seq<Event>)
    requires Inv(c, s) && Possible(c, s, events)
    ensures Inv(c, Reach(c, s, events)) && KeepsSettled(s, Reach(c, s, events))
  {
    if events != [] {
      hide Inv, Possible, Step, Enabled;
      var front, e := events[..|events| - 1], events[|events| - 1];
      assert front + [e] == events;
      ReachSnoc(c, s, front, e);
      ReachKeeps(c, s, front);
      StepKeeps(c, Reach(c, s, front), e);
    }
  }

  lemma StartInv(c: Config, start: real)
    ensures Inv(c, Start(c, start))
  {
    assert Resolved(map[]) == {};
  }

  lemma {:induction false} ReachConcat(c: Config, s: Sched, a: seq<Event>, b: seq<Event>)
    ensures Reach(c, s, a + b) == Reach(c, Reach(c, s, a), b)
    ensures Possible(c, s, a + b) <==> Possible(c, s, a) && Possible(c, Reach(c, s, a), b)
  {
    if b == [] {
      assert a + b == a;
    } else {
      hide Possible, Step, Enabled;
      var front, e := b[..|b| - 1], b[|b| - 1];
      assert front + [e] == b && a + b == a + front + [e];
      ReachConcat(c, s, a, front);
      ReachSnoc(c, s, a + front, e);
      ReachSnoc(c, Reach(c, s, a), front, e);
    }
  }

  // ----- One batch resolved -----

  function Settles(n: nat): (events: seq<Event>)
    ensures |events| == n
  {
    seq(n, i => Settle)
  }

  /** Everything _process_batch does with no other thread's step in between. */
  function WholeProcess(n: nat, outcome: Outcome): seq<Event> {
    [Answer(outcome)] + Settles(n) + [Tally]
  }

  lemma AnswerFirst(c: Config, s: Sched, outcome: Outcome)
    ensures Reach(c, s, [Answer(outcome)]) == Step(c, s, Answer(outcome))
    ensures Possible(c, s, [Answer(outcome)]) <==> Enabled(c, s, Answer(outcome))
  {
    hide Step, Enabled;
    var none: seq<Event> := [];
    assert none + [Answer(outcome)] == [Answer(outcome)];
    ReachSnoc(c, s, none, Answer(outcome));
    assert Possible(c, s, none) && Reach(c, s, none) == s;
  }

  lemma SettlesSnoc(outcome: Outcome, n: nat)
    ensures [Answer(outcome)] + Settles(n + 1) == [Answer(outcome)] + Settles(n) + [Settle]
  {}

  /** The first n futures of a batch have their answers and no other has changed. */
  ghost predicate FuturesUpTo(was: map<Request, Future>, now: map<Request, Future>, batch: seq<Request>,
      outcome: Outcome, n: nat)
    requires n <= |batch|
  {
    && now.Keys == was.Keys
    && (forall i | 0 <= i < n :: batch[i] in now && now[batch[i]] == FutureOf(outcome, i))
    && (forall r | r in was && r !in batch[..n] :: now[r] == was[r])
  }

  /** Part-way through resolving a batch, and nothing else has changed. */
  ghost predicate SettledUpTo(s: Sched, q: Sched, outcome: Outcome, n: nat)
    requires n <= |s.batch|
  {
    && q == s.(answers := Some(outcome), settled := n, futures := q.futures)
    && FuturesUpTo(s.futures, q.futures, s.batch, outcome, n)
  }

  lemma FuturesNext(was: map<Request, Future>, now: map<Request, Future>, batch: seq<Request>, outcome: Outcome, n: nat)
    requires n < |batch| && FuturesUpTo(was, now, batch, outcome, n) && batch[n] in was
    requires forall i | 0 <= i < n :: batch[i] != batch[n]
    ensures FuturesUpTo(was, now[batch[n] := FutureOf(outcome, n)], batch, outcome, n + 1)
  {
    hide FutureOf;
    var more := now[batch[n] := FutureOf(outcome, n)];
    assert batch[..n + 1] == batch[..n] + [batch[n]];
    assert more.Keys == now.Keys;
  }

  /** A request of the batch is in it only once. */
  lemma BatchDistinct(c: Config, s: Sched, i: nat, j: nat)
    requires Inv(c, s) && s.answers.None? && i < j < |s.batch|
    ensures s.batch[i] != s.batch[j] && s.batch[i] in s.futures && s.batch[j] in s.futures
  {
    assert Unsettled(s) == s.batch;
    assert s.batch == s.batch[..j] + s.batch[j..];
    assert multiset(s.batch) == multiset(s.batch[..j]) + multiset(s.batch[j..]);
    assert s.batch[i] in s.batch[..j] && s.batch[j] in s.batch[j..];
    assert InHand(s, s.batch[i]) <= 1 && InHand(s, s.batch[j]) >= 1 && InHand(s, s.batch[i]) >= 1;
  }

  lemma BatchKnown(c: Config, s: Sched, i: nat)
    requires Inv(c, s) && s.answers.None? && i < |s.batch|
    ensures Waits(s.futures, s.batch[i])
  {
    assert s.batch[i] in multiset(Unsettled(s));
    assert InHand(s, s.batch[i]) >= 1;
  }

  lemma SettleOne(c: Config, s: Sched, q: Sched, outcome: Outcome, n: nat)
    requires Inv(c, s) && s.answers.None? && n < |s.batch| && SettledUpTo(s, q, outcome, n)
    ensures Enabled(c, q, Settle) && SettledUpTo(s, Step(c, q, Settle), outcome, n + 1)
  {
    BatchKnown(c, s, n);
    forall i | 0 <= i < n ensures s.batch[i] != s.batch[n] { BatchDistinct(c, s, i, n); }
    hide Inv, FutureOf, FuturesUpTo;
    FuturesNext(s.futures, q.futures, s.batch, outcome, n);
  }

  lemma SettlesNone(c: Config, s: Sched, outcome: Outcome)
    requires Enabled(c, s, Answer(outcome))
    ensures Possible(c, s, [Answer(outcome)] + Settles(0))
    ensures SettledUpTo(s, Reach(c, s, [Answer(outcome)] + Settles(0)), outcome, 0)
  {
    AnswerFirst(c, s, outcome);
    assert [Answer(outcome)] + Settles(0) == [Answer(outcome)];
    hide Reach, Possible, Enabled;
    assert s.batch[..0] == [];
  }

  lemma {:induction false} SettlesUpTo(c: Config, s: Sched, outcome: Outcome, n: nat)
    requires Inv(c, s) && Enabled(c, s, Answer(outcome)) && n <= |s.batch|
    ensures Possible(c, s, [Answer(outcome)] + Settles(n))
    ensures SettledUpTo(s, Reach(c, s, [Answer(outcome)] + Settles(n)), outcome, n)
  {
    hide SettledUpTo, Inv, Possible, Reach, Step, Settles;
    if n == 0 {
      SettlesNone(c, s, outcome);
    } else {
      SettlesUpTo(c, s, outcome, n - 1);
      var front := [Answer(outcome)] + Settles(n - 1);
      SettlesSnoc(outcome, n - 1);
      ReachSnoc(c, s, front, Settle);
      SettleOne(c, s, Reach(c, s, front), outcome, n - 1);
    }
  }

  lemma FuturesAll(was: map<Request, Future>, now: map<Request, Future>, batch: seq<Request>, outcome: Outcome)
    requires FuturesUpTo(was, now, batch, outcome, |batch|)
    ensures now.Keys == was.Keys
    ensures forall i | 0 <= i < |batch| :: batch[i] in now && now[batch[i]] == FutureOf(outcome, i)
    ensures forall r | r in was && r !in batch :: now[r] == was[r]
  {
    assert batch[..|batch|] == batch;
  }

  /**
   _process_batch resolves every future of its batch, each with its own result or all with the error, changes no
   other, counts the batch and its requests, and is ready for the next batch.
   */
  lemma ProcessLaw(c: Config, s: Sched, outcome: Outcome)
    requires Inv(c, s) && Enabled(c, s, Answer(outcome))
    ensures Possible(c, s, WholeProcess(|s.batch|, outcome))
    ensures var q := Reach(c, s, WholeProcess(|s.batch|, outcome));
            && q == s.(batch := [], settled := 0, futures := q.futures,
                       batches := s.batches + 1, processed := s.processed + |s.batch|)
            && q.futures.Keys == s.futures.Keys
            && (forall i | 0 <= i < |s.batch| :: s.batch[i] in q.futures)
            && (outcome.Results? ==>
                  forall i | 0 <= i < |s.batch| :: q.futures[s.batch[i]] == Answered(outcome.tokens[i]))
            && (outcome.Raised? ==> forall i | 0 <= i < |s.batch| :: q.futures[s.batch[i]] == Errored)
            && (forall r | r in s.futures && r !in s.batch :: q.futures[r] == s.futures[r])
  {
    hide Possible, Reach, Inv, FuturesUpTo;
    var n := |s.batch|;
    SettlesUpTo(c, s, outcome, n);
    var front := [Answer(outcome)] + Settles(n);
    ReachSnoc(c, s, front, Tally);
    FuturesAll(s.futures, Reach(c, s, front).futures, s.batch, outcome);
  }

  /** One turn of the worker: it takes a batch and processes it. */
  lemma TurnKeeps(c: Config, s: Sched, taken: seq<Request>, rest: multiset<Request>, outcome: Outcome)
    requires Inv(c, s) && s.batch == [] && s.answers.None? && Takes(s.queue, taken, rest) && taken != []
    requires |taken| <= 1 || |taken| <= c.maxBatchSize
    requires outcome.Results? ==> |outcome.tokens| == |taken|
    ensures var q := Reach(c, s.(queue := rest, batch := taken), WholeProcess(|taken|, outcome));
            && Inv(c, q) && KeepsSettled(s, q) && q.queue == rest && q.entering == s.entering
            && (forall i | 0 <= i < |taken| :: taken[i] in q.futures)
            && (outcome.Results? ==>
                  forall i | 0 <= i < |taken| :: q.futures[taken[i]] == Answered(outcome.tokens[i]))
            && (outcome.Raised? ==> forall i | 0 <= i < |taken| :: q.futures[taken[i]] == Errored)
            && (forall r | r in s.futures && r !in taken :: r in q.futures && q.futures[r] == s.futures[r])
  {
    var m := s.(queue := rest, batch := taken);
    assert Unsettled(s) == [] && Unsettled(m) == taken;
    forall x ensures InHand(m, x) == InHand(s, x) {}
    assert Inv(c, m) && Enabled(c, m, Answer(outcome));
    hide Inv, Reach, Possible, Takes;
    ProcessLaw(c, m, outcome);
    ReachKeeps(c, m, WholeProcess(|taken|, outcome));
  }

  lemma NothingInHand(c: Config, s: Sched)
    requires Inv(c, s) && s.entering == s.queue == multiset{} && s.batch == []
    ensures forall r | r in s.futures :: !s.futures[r].Pending?
  {
    assert Unsettled(s) == [];
    forall r | r in s.futures ensures !s.futures[r].Pending? {
      assert InHand(s, r) == 0;
    }
  }
}

/** The scheduler object, updated in place. */
module Schedulers {
  import opened Wrappers
  import opened RateLimiter
  import opened TokenBuckets
  import opened Requests
  import opened PriorityQueues
  import opened Scheduling

  /** How many clock readings in a row leave time to wait. */
  function Open(remaining: seq<real>): (n: nat)
    ensures n <= |remaining|
  {
    if remaining == [] || remaining[0] <= 0.0 then 0 else 1 + Open(remaining[1..])
  }

  lemma {:induction false} OpenSplits(remaining: seq<real>, k: nat)
    requires k <= |remaining| && forall i | 0 <= i < k :: remaining[i] > 0.0
    ensures k <= Open(remaining)
    ensures k == |remaining| || remaining[k] <= 0.0 ==> Open(remaining) == k
  {
    if k > 0 { OpenSplits(remaining[1..], k - 1); }
  }

  function Least(a: nat, b: nat): nat {
    if a < b then a else b
  }

  /** A batch takes what is queued, up to its limit, while the waiting time lasts; the first request always goes. */
  function BatchSize(queued: nat, maxBatchSize: int, readings: nat): nat {
    if maxBatchSize < 1 then Least(queued, 1) else Least(queued, Least(maxBatchSize, 1 + readings))
  }

  /** The model run: one result per request of the batch, or an exception. */
  ghost predicate OnePerRequest(run: seq<Request> -> Outcome) {
    forall batch :: run(batch).Results? ==> |run(batch).tokens| == |batch|
  }

  /** ProcessLaw for a state that may not meet the invariant. */
  lemma Processed(c: Config, s: Sched, outcome: Outcome)
    requires Enabled(c, s, Answer(outcome))
    ensures var now := Reach(c, s, WholeProcess(|s.batch|, outcome)).futures;
            Inv(c, s) ==>
              && (forall i | 0 <= i < |s.batch| ::
                    && s.batch[i] in now
                    && (outcome.Results? ==> now[s.batch[i]] == Answered(outcome.tokens[i]))
                    && (outcome.Raised? ==> now[s.batch[i]] == Errored))
              && forall r | r in s.futures && r !in s.batch :: r in now && now[r] == s.futures[r]
  {
    hide Inv, Reach, WholeProcess;
    if Inv(c, s) { ProcessLaw(c, s, outcome); }
  }

  lemma SettledAlready(s: Sched)
    ensures KeepsSettled(s, s)
  {}

  lemma SettledThrough(s: Sched, q: Sched, r: Sched)
    requires KeepsSettled(s, q) && KeepsSettled(q, r)
    ensures KeepsSettled(s, r)
  {}

  lemma TookNone(bag: multiset<Request>, rest: multiset<Request>)
    requires Takes(bag, [], rest)
    ensures rest == bag
  {}

  lemma TakenSize(bag: multiset<Request>, taken: seq<Request>, rest: multiset<Request>)
    requires Takes(bag, taken, rest)
    ensures |taken| + |rest| == |bag|
  {
    assert |multiset(taken)| == |taken|;
  }

  lemma ReachOne(c: Config, s: Sched, e: Event)
    ensures Reach(c, s, [e]) == Step(c, s, e)
  {
    hide Step;
    assert [e][..0] == [];
  }

  lemma SettlesZero(outcome: Outcome)
    ensures [Answer(outcome)] + Settles(0) == [Answer(outcome)]
  {}

  lemma ReachTwo(c: Config, s: Sched, e: Event, f: Event)
    ensures Reach(c, s, [e, f]) == Step(c, Step(c, s, e), f)
  {
    ReachOne(c, s, e);
    hide Step;
    assert [e, f][..1] == [e];
  }

  lemma TakeIs(c: Config, s: Sched, r: Request)
    requires s.answers.None? && Smallest(r, s.queue) && (s.batch == [] || |s.batch| < c.maxBatchSize)
    ensures Enabled(c, s, Take(r)) && Step(c, s, Take(r)) == s.(queue := s.queue - multiset{r}, batch := s.batch + [r])
  {}

  class Scheduler {
    const maxBatchSize: int
    const queue: PriorityQueue
    const rateLimiter: TokenBucket
    var batch: seq<Request>
    var futures: map<Request, Future>
    var batchesProcessed: nat
    var requestsProcessed: nat
    ghost var entering: multiset<Request>
    ghost var answers: Option<Outcome>
    ghost var settled: nat

    function Settings(): Config {
      Config(rateLimiter.Limit(), maxBatchSize)
    }

    ghost predicate Valid()
      reads this, queue
    {
      queue.Valid()
    }

    ghost function View(): Sched
      reads this, queue, rateLimiter
    {
      Sched(rateLimiter.View(), entering, queue.Bag(), batch, answers, settled, futures, batchesProcessed,
          requestsProcessed)
    }

    /** The worker is between two batches. */
    ghost predicate Between()
      reads this
    {
      batch == [] && answers == None && settled == 0
    }

    constructor (maxBatchSize: int, rate: real, burst: real, now: real)
      ensures Valid() && Between() && fresh(queue) && fresh(rateLimiter)
      ensures Settings() == Config(Limits(rate, burst), maxBatchSize) && View() == Start(Settings(), now)
    {
      this.maxBatchSize := maxBatchSize;
      queue := new PriorityQueue();
      rateLimiter := new TokenBucket(rate, burst, now);
      batch, futures := [], map[];
      batchesProcessed, requestsProcessed := 0, 0;
      entering, answers, settled := multiset{}, None, 0;
    }

    method SubmitRequest(r: Request, now: real)
      requires Valid() && r !in futures
      modifies this, queue, rateLimiter
      ensures Valid()
      ensures View() == Reach(Settings(), old(View()), if Allows(Settings().limits, old(rateLimiter.View()), 1.0, now)
                                                       then [Admit(r, now), Enqueue(r)] else [Admit(r, now)])
    {
      hide Acquire, Allows;
      ReachOne(Settings(), View(), Admit(r, now));
      ReachTwo(Settings(), View(), Admit(r, now), Enqueue(r));
      hide Reach;
      var allowed := rateLimiter.Acquire(1.0, now);
      if !allowed {
        futures := futures[r := Limited];
        return;
      }
      futures := futures[r := Pending];
      entering := entering + multiset{r};
      queue.Push(r);
      entering := entering - multiset{r};
    }

    /** The worker's pop, for the first or a further request of a batch; false when nothing came in time. */
    method TakeRequest() returns (found: bool)
      requires Valid() && answers == None && (batch == [] || |batch| < maxBatchSize)
      modifies this`batch, queue
      ensures Valid() && (found <==> old(View()).queue != multiset{})
      ensures found ==> batch != [] && Enabled(Settings(), old(View()), Take(batch[|batch| - 1]))
                        && View() == Step(Settings(), old(View()), Take(batch[|batch| - 1]))
      ensures !found ==> View() == old(View())
    {
      hide Smallest, IsHeap, Before, AtMost, Step, Enabled;
      ghost var s := View();
      var r;
      found, r := queue.Pop();
      if found {
        TakeIs(Settings(), s, r);
        batch := batch + [r];
      }
    }

    /** _process_batch, given what the model run did. */
    method ProcessBatch(outcome: Outcome)
      requires Valid() && Enabled(Settings(), View(), Answer(outcome))
      modifies this
      ensures Valid() && Between()
      ensures View() == Reach(Settings(), old(View()), WholeProcess(|old(batch)|, outcome))
      ensures Inv(Settings(), old(View())) ==>
                && (forall i | 0 <= i < |old(batch)| ::
                      && old(batch)[i] in futures
                      && (outcome.Results? ==> futures[old(batch)[i]] == Answered(outcome.tokens[i]))
                      && (outcome.Raised? ==> futures[old(batch)[i]] == Errored))
                && forall r | r in old(futures) && r !in old(batch) :: r in futures && futures[r] == old(futures)[r]
    {
      hide Reach, WholeProcess, Inv, Enabled;
      Processed(Settings(), View(), outcome);
      ResolveBatch(outcome);
    }

    /** The model run's answers, given to the futures one by one, and the counters. */
    method ResolveBatch(outcome: Outcome)
      requires Valid() && Enabled(Settings(), View(), Answer(outcome))
      modifies this
      ensures Valid() && Between()
      ensures View() == Reach(Settings(), old(View()), WholeProcess(|old(batch)|, outcome))
    {
      ghost var c, s := Settings(), View();
      AnswerFirst(c, s, outcome);
      answers, settled := Some(outcome), 0;
      hide Reach, Possible, Enabled, Step, Settles, IsHeap;
      SettlesZero(outcome);
      for i := 0 to |batch|
        invariant batch == old(batch) && answers == Some(outcome) && settled == i
        invariant Valid() && View() == Reach(c, s, [Answer(outcome)] + Settles(i))
      {
        SettlesSnoc(outcome, i);
        ReachSnoc(c, s, [Answer(outcome)] + Settles(i), Settle);
        SettleFuture(i, outcome);
      }
      ReachSnoc(c, s, [Answer(outcome)] + Settles(|batch|), Tally);
      CountBatch();
    }

    /** set_result, or set_exception, of one future of the batch. */
    method SettleFuture(i: nat, outcome: Outcome)
      requires answers == Some(outcome) && settled == i < |batch| && (outcome.Results? ==> |outcome.tokens| == |batch|)
      modifies this`futures, this`settled
      ensures View() == Step(Settings(), old(View()), Settle) && settled == i + 1
      ensures outcome.Results? ==> futures == old(futures)[batch[i] := Answered(outcome.tokens[i])]
      ensures outcome.Raised? ==> futures == old(futures)[batch[i] := Errored]
    {
      futures := futures[batch[i] := if outcome.Raised? then Errored else Answered(outcome.tokens[i])];
      settled := settled + 1;
    }

    /** The locked update of the counters. */
    method CountBatch()
      modifies this
      ensures View() == Step(Settings(), old(View()), Tally) && Between()
    {
      batchesProcessed := batchesProcessed + 1;
      requestsProcessed := requestsProcessed + |batch|;
      batch := [];
      answers, settled := None, 0;
    }

    /** Collect a batch: one request, then more until it is full, the time is up or none is left. */
    method CollectBatch(remaining: seq<real>)
      requires Valid() && Between()
      modifies this`batch, queue
      ensures Valid() && Takes(old(queue.Bag()), batch, queue.Bag())
      ensures |batch| == BatchSize(|old(queue.Bag())|, maxBatchSize, Open(remaining))
      ensures batch == [] <==> old(queue.Bag()) == multiset{}
      ensures |batch| <= 1 || |batch| <= maxBatchSize
      ensures |batch| <= |remaining| + 1 && forall i | 0 <= i < |batch| - 1 :: remaining[i] > 0.0
      ensures batch == [] || queue.Bag() == multiset{} || |batch| >= maxBatchSize
              || |batch| == |remaining| + 1 || remaining[|batch| - 1] <= 0.0
      ensures View() == old(View()).(queue := queue.Bag(), batch := batch)
    {
      hide Takes, Open, IsHeap;
      TakesNone(queue.Bag());
      var found := TakeFurther();
      if !found { return; }
      var k := 0;
      while |batch| < maxBatchSize
        invariant Valid() && Takes(old(queue.Bag()), batch, queue.Bag())
        invariant |batch| == k + 1 && (k == 0 || |batch| <= maxBatchSize)
        invariant |batch| + |queue.Bag()| == |old(queue.Bag())|
        invariant k <= |remaining| && forall i | 0 <= i < k :: remaining[i] > 0.0
      {
        OpenSplits(remaining, k);
        if k == |remaining| || remaining[k] <= 0.0 { break; }
        found := TakeFurther();
        if !found { break; }
        k := k + 1;
      }
      OpenSplits(remaining, k);
    }

    /** TakeRequest inside one turn of the worker: the batch stays a list of the smallest. */
    method TakeFurther() returns (found: bool)
      requires Valid() && answers == None && (batch == [] || |batch| < maxBatchSize)
      modifies this`batch, queue
      ensures Valid() && (found <==> old(queue.Bag()) != multiset{})
      ensures forall bag | Takes(bag, old(batch), old(queue.Bag())) :: Takes(bag, batch, queue.Bag())
      ensures |batch| == |old(batch)| + (if found then 1 else 0)
      ensures |queue.Bag()| == |old(queue.Bag())| - if found then 1 else 0
    {
      ghost var before, rest := batch, queue.Bag();
      found := TakeRequest();
      if found {
        forall bag | Takes(bag, before, rest) ensures Takes(bag, batch, queue.Bag()) {
          TakeNext(bag, before, rest, batch[|batch| - 1]);
        }
      }
    }

    /**
     One turn of the worker loop while nothing is submitted: the smallest queued requests, in order, are
     resolved with what the model run made of them; with nothing queued nothing happens.
     */
    method WorkerTurn(remaining: seq<real>, run: seq<Request> -> Outcome) returns (taken: seq<Request>)
      requires Valid() && Between() && OnePerRequest(run)
      modifies this, queue
      ensures Valid() && Between() && Takes(old(queue.Bag()), taken, queue.Bag())
      ensures |taken| == BatchSize(|old(queue.Bag())|, maxBatchSize, Open(remaining))
      ensures taken == [] <==> old(queue.Bag()) == multiset{}
      ensures |taken| <= 1 || |taken| <= maxBatchSize
      ensures |taken| <= |remaining| + 1 && forall i | 0 <= i < |taken| - 1 :: remaining[i] > 0.0
      ensures taken == [] || queue.Bag() == multiset{} || |taken| >= maxBatchSize
              || |taken| == |remaining| + 1 || remaining[|taken| - 1] <= 0.0
      ensures taken == [] ==> View() == old(View())
      ensures taken != [] ==>
                View() == Reach(Settings(), old(View()).(queue := queue.Bag(), batch := taken),
                                WholeProcess(|taken|, run(taken)))
      ensures Inv(Settings(), old(View())) ==>
                && (forall i | 0 <= i < |taken| ::
                      && taken[i] in futures
                      && (run(taken).Results? ==>
                            i < |run(taken).tokens| && futures[taken[i]] == Answered(run(taken).tokens[i]))
                      && (run(taken).Raised? ==> futures[taken[i]] == Errored))
                && forall r | r in old(futures) && r !in taken :: r in futures && futures[r] == old(futures)[r]
    {
      hide Reach, Takes, WholeProcess, Inv;
      CollectBatch(remaining);
      taken := batch;
      if |taken| != 0 {
        ProcessBatch(run(taken));
        if Inv(Settings(), old(View())) {
          TurnKeeps(Settings(), old(View()), taken, queue.Bag(), run(taken));
        }
      } else {
        TookNone(old(queue.Bag()), queue.Bag());
      }
    }

    /**
     The worker loop for as many turns as there are lists of clock readings, nothing being submitted meanwhile: with
     a turn for every request queued, the queue is empty in the end and every accepted request resolved.
     */
    method WorkerLoop(turns: seq<seq<real>>, run: seq<Request> -> Outcome)
      requires Valid() && Between() && OnePerRequest(run) && Inv(Settings(), View())
      modifies this, queue
      ensures Valid() && Between() && Inv(Settings(), View()) && KeepsSettled(old(View()), View())
      ensures |queue.Bag()| + |turns| <= |old(queue.Bag())| || queue.Bag() == multiset{}
      ensures |turns| >= |old(queue.Bag())| && old(entering) == multiset{} ==>
                queue.Bag() == multiset{} && forall r | r in futures :: !futures[r].Pending?
    {
      hide Inv, KeepsSettled, Takes, Reach, WholeProcess;
      ghost var first := View();
      SettledAlready(first);
      for n := 0 to |turns|
        invariant Valid() && Between() && Inv(Settings(), View()) && KeepsSettled(first, View())
                  && entering == old(entering)
        invariant |queue.Bag()| + n <= |old(queue.Bag())| || queue.Bag() == multiset{}
      {
        ghost var s := View();
        var taken := WorkerTurn(turns[n], run);
        TakenSize(s.queue, taken, queue.Bag());
        if |taken| != 0 {
          TurnKeeps(Settings(), s, taken, queue.Bag(), run(taken));
          SettledThrough(first, s, View());
        }
      }
      if |turns| >= |old(queue.Bag())| && old(entering) == multiset{} {
        NothingInHand(Settings(), View());
      }
    }
  }
}
