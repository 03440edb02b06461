/** The PID controller (metrics/pid.py) over real numbers; the clock reading is a parameter. */
module Pid {
  import opened Reals

  /** What is fixed between retunings. */
  datatype Gains = Gains(kp: real, ki: real, kd: real, target: real, outputMin: real, outputMax: real,
      integralMax: real)

  datatype State = State(integral: real, lastError: real, lastTime: real)

  datatype Output = Output(state: State, u: real)

  const LEAK := 0.95
  const MIN_DT := 0.000001

  function Initial(now: real): State {
    State(0.0, 0.0, now)
  }

  /** Time since the last update, never zero. */
  function Elapsed(s: State, now: real): (dt: real)
    ensures dt > 0.0
  {
    if now - s.lastTime <= 0.0 then MIN_DT else now - s.lastTime
  }

  /** Anti-windup clamp, then the leak when the error is small. */
  function Integrate(g: Gains, integral: real, e: real, dt: real): real {
    var clamped := Max(-g.integralMax, Min(g.integralMax, integral + e * dt));
    if Abs(e) < 0.5 then clamped * LEAK else clamped
  }

  /** The proportional and integral terms. */
  function Drive(g: Gains, e: real, integral: real): real {
    g.kp * e + g.ki * integral
  }

  function Derivative(g: Gains, e: real, lastError: real, dt: real): real
    requires dt > 0.0
  {
    g.kd * (e - lastError) / dt
  }

  /** The unclamped control signal. */
  function Signal(g: Gains, s: State, e: real, dt: real): real
    requires dt > 0.0
  {
    Drive(g, e, Integrate(g, s.integral, e, dt)) + Derivative(g, e, s.lastError, dt)
  }

  function Update(g: Gains, s: State, measured: real, now: real): Output {
    var e, dt := measured - g.target, Elapsed(s, now);
    Output(State(Integrate(g, s.integral, e, dt), e, now),
           Max(g.outputMin, Min(g.outputMax, Signal(g, s, e, dt))))
  }

  // ----- Runs -----

  /** One sample: the depth measured and the clock reading. */
  datatype Sample = Sample(measured: real, now: real)

  function Run(g: Gains, s: State, samples: seq<Sample>): State {
    if samples == [] then s
    else Update(g, Run(g, s, samples[..|samples| - 1]), samples[|samples| - 1].measured,
        samples[|samples| - 1].now).state
  }

  lemma IntegrateBounded(g: Gains, integral: real, e: real, dt: real)
    requires g.integralMax >= 0.0
    ensures Abs(Integrate(g, integral, e, dt)) <= g.integralMax
    ensures integral >= 0.0 && e >= 0.0 && dt > 0.0 ==> 0.0 <= Integrate(g, integral, e, dt)
  {
    if e >= 0.0 && dt > 0.0 { assert e * dt >= 0.0; }
  }

  /** The depth never measured below the target: then the integral and the last error are never negative. */
  ghost predicate NeverBelow(g: Gains, samples: seq<Sample>) {
    forall i | 0 <= i < |samples| :: samples[i].measured >= g.target
  }

  lemma {:induction false} IntegralInRange(g: Gains, start: real, samples: seq<Sample>)
    requires g.integralMax >= 0.0
    ensures Abs(Run(g, Initial(start), samples).integral) <= g.integralMax
    ensures NeverBelow(g, samples)
            ==> 0.0 <= Run(g, Initial(start), samples).integral && 0.0 <= Run(g, Initial(start), samples).lastError
  {
    if samples != [] {
      var front, last := samples[..|samples| - 1], samples[|samples| - 1];
      var s := Run(g, Initial(start), front);
      IntegralInRange(g, start, front);
      IntegrateBounded(g, s.integral, last.measured - g.target, Elapsed(s, last.now));
    }
  }

  /** The time from the sample before (or the controller's creation) to this one, never zero. */
  function Since(start: real, samples: seq<Sample>): (dt: real)
    requires samples != []
    ensures dt > 0.0
  {
    var n := |samples| - 1;
    var gap := samples[n].now - if n == 0 then start else samples[n - 1].now;
    if gap > 0.0 then gap else MIN_DT
  }

  function Strip(e: real, dt: real): real {
    e * dt
  }

  /** The Riemann sum of the error. */
  function Area(g: Gains, start: real, samples: seq<Sample>): real {
    if samples == [] then 0.0
    else
      Area(g, start, samples[..|samples| - 1])
      + Strip(samples[|samples| - 1].measured - g.target, Since(start, samples))
  }

  /** The same sum without signs. */
  function Swept(g: Gains, start: real, samples: seq<Sample>): real {
    if samples == [] then 0.0
    else
      Swept(g, start, samples[..|samples| - 1])
      + Strip(Abs(samples[|samples| - 1].measured - g.target), Since(start, samples))
  }

  lemma StripAbs(e: real, dt: real)
    requires dt > 0.0
    ensures Strip(Abs(e), dt) >= 0.0 && Abs(Strip(e, dt)) == Strip(Abs(e), dt)
  {}

  lemma StepShrinks(g: Gains, integral: real, e: real, dt: real)
    requires g.integralMax >= 0.0 && dt > 0.0
    ensures Abs(Integrate(g, integral, e, dt)) <= Abs(integral) + Strip(Abs(e), dt)
    ensures e >= 0.0 && integral >= 0.0 ==> Integrate(g, integral, e, dt) <= integral + Strip(e, dt)
  {
    StripAbs(e, dt);
    assert e * dt == Strip(e, dt);
    hide Strip;
    LeakShrinks(Max(-g.integralMax, Min(g.integralMax, integral + e * dt)));
  }

  lemma LeakShrinks(x: real)
    ensures Abs(x * LEAK) <= Abs(x) && (x >= 0.0 ==> x * LEAK <= x)
  {}

  /**
   Clamp and leak only ever pull the integral towards zero: it never exceeds the area swept by the error, and on a
   run never below target it lies between zero and the area under the error.
   */
  lemma {:induction false} IntegralWithinArea(g: Gains, start: real, samples: seq<Sample>)
    requires g.integralMax >= 0.0
    ensures Abs(Run(g, Initial(start), samples).integral) <= Swept(g, start, samples)
    ensures NeverBelow(g, samples) ==>
              0.0 <= Run(g, Initial(start), samples).integral <= Area(g, start, samples)
  {
    if samples != [] {
      hide Run, Area, Swept, Integrate, Elapsed, Strip;
      var front, x := samples[..|samples| - 1], samples[|samples| - 1];
      assert front + [x] == samples;
      assert NeverBelow(g, samples) ==> NeverBelow(g, front);
      IntegralInRange(g, start, samples);
      IntegralWithinArea(g, start, front);
      AreaSnoc(g, start, front, x);
      var s := Run(g, Initial(start), front);
      StepShrinks(g, s.integral, x.measured - g.target, Elapsed(s, x.now));
    } else {
      NothingYet(g, start);
    }
  }

  lemma NothingYet(g: Gains, start: real)
    ensures Run(g, Initial(start), []).integral == 0.0 && Area(g, start, []) == 0.0 && Swept(g, start, []) == 0.0
  {}

  /** Errors never close to zero, and never enough of them to wind up. */
  ghost predicate Unclamped(g: Gains, start: real, samples: seq<Sample>) {
    && (forall i | 0 <= i < |samples| :: Abs(samples[i].measured - g.target) >= 0.5)
    && (forall i: nat | i <= |samples| :: InReach(g, start, samples, i))
  }

  ghost predicate InReach(g: Gains, start: real, samples: seq<Sample>, i: nat)
    requires i <= |samples|
  {
    Abs(Area(g, start, samples[..i])) <= g.integralMax
  }

  lemma UnclampedSnoc(g: Gains, start: real, front: seq<Sample>, x: Sample)
    requires Unclamped(g, start, front + [x])
    ensures Unclamped(g, start, front) && Abs(x.measured - g.target) >= 0.5
            && Abs(Area(g, start, front + [x])) <= g.integralMax
  {
    hide Area;
    var all := front + [x];
    assert all[|front|] == x && all[..|all|] == all && InReach(g, start, all, |all|);
    assert forall i | 0 <= i < |front| :: all[i] == front[i];
    forall i: nat | i <= |front| ensures InReach(g, start, front, i) {
      assert InReach(g, start, all, i) && all[..i] == front[..i];
    }
  }

  lemma {:induction false} LastTimeIs(g: Gains, start: real, samples: seq<Sample>)
    ensures Run(g, Initial(start), samples).lastTime == if samples == [] then start else samples[|samples| - 1].now
  {
    hide Integrate, Signal;
  }

  lemma Accumulates(g: Gains, integral: real, e: real, dt: real)
    requires Abs(e) >= 0.5 && Abs(integral + Strip(e, dt)) <= g.integralMax
    ensures Integrate(g, integral, e, dt) == integral + Strip(e, dt)
  {}

  lemma AreaSnoc(g: Gains, start: real, front: seq<Sample>, x: Sample)
    ensures var s := Run(g, Initial(start), front);
            && Run(g, Initial(start), front + [x]).integral
                == Integrate(g, s.integral, x.measured - g.target, Elapsed(s, x.now))
            && s.lastTime == (if front == [] then start else front[|front| - 1].now)
            && Elapsed(s, x.now) > 0.0
            && Area(g, start, front + [x]) == Area(g, start, front) + Strip(x.measured - g.target, Elapsed(s, x.now))
            && Swept(g, start, front + [x])
                == Swept(g, start, front) + Strip(Abs(x.measured - g.target), Elapsed(s, x.now))
  {
    hide Integrate, Signal, Strip;
    assert (front + [x])[..|front|] == front;
    LastTimeIs(g, start, front);
  }

  /** The bound is attained: while neither the clamp nor the leak acts, the integral is the area under the error. */
  lemma {:induction false} IntegralIsArea(g: Gains, start: real, samples: seq<Sample>)
    requires Unclamped(g, start, samples)
    ensures Run(g, Initial(start), samples).integral == Area(g, start, samples)
  {
    if samples != [] {
      hide Run, Area, Unclamped, Integrate, Elapsed, Strip;
      var front, x := samples[..|samples| - 1], samples[|samples| - 1];
      assert front + [x] == samples;
      UnclampedSnoc(g, start, front, x);
      IntegralIsArea(g, start, front);
      AreaSnoc(g, start, front, x);
      var s := Run(g, Initial(start), front);
      Accumulates(g, s.integral, x.measured - g.target, Elapsed(s, x.now));
    }
  }

  function Ratio(a: real, b: real, c: real): real
    requires c > 0.0
  {
    a * b / c
  }

  /** How far the error must fall between two updates to bring the output down to a threshold. */
  function DropNeeded(g: Gains, e: real, integral: real, threshold: real, dt: real): real
    requires g.kd > 0.0
  {
    Ratio(Drive(g, e, integral) - threshold, dt, g.kd)
  }

  lemma LeqCancel(a: real, b: real, c: real)
    requires c > 0.0
    ensures a * c <= b * c <==> a <= b
  {}

  /**
   The output is at or below a threshold exactly when the error fell since the last update by at least
   (kp * e + ki * integral - threshold) * dt / kd, where dt is the time since then, or a microsecond when the clock
   has not moved; and it never leaves the output limits.
   */
  lemma {:induction false} LowOutputExactly(g: Gains, s: State, measured: real, now: real, e: real, dt: real,
      integral: real, threshold: real)
    requires g.kd > 0.0 && g.outputMin <= threshold < g.outputMax
    requires e == measured - g.target && dt == if now - s.lastTime > 0.0 then now - s.lastTime else 0.000001
    requires integral == Update(g, s, measured, now).state.integral
    ensures Update(g, s, measured, now).u <= threshold
            <==> s.lastError - e >= (g.kp * e + g.ki * integral - threshold) * dt / g.kd
    ensures g.outputMin <= Update(g, s, measured, now).u <= g.outputMax
    ensures Update(g, s, measured, now).state == State(integral, e, now)
  {
    assert dt == Elapsed(s, now);
    hide *;
    LowUpdate(g, s, measured, now, e, dt, integral, threshold);
    DropBy(g, e, integral, threshold, dt, s.lastError - e);
  }

  lemma LowUpdate(g: Gains, s: State, measured: real, now: real, e: real, dt: real, integral: real, threshold: real)
    requires g.kd > 0.0 && g.outputMin <= threshold < g.outputMax
    requires e == measured - g.target && dt == Elapsed(s, now) && integral == Update(g, s, measured, now).state.integral
    ensures var r := Update(g, s, measured, now);
            && (r.u <= threshold <==> s.lastError - e >= DropNeeded(g, e, integral, threshold, dt))
            && g.outputMin <= r.u <= g.outputMax && r.state == State(integral, e, now)
  {
    LowSignal(g, s, e, dt, threshold);
    hide Signal, DropNeeded, Integrate, Elapsed;
  }

  lemma DropBy(g: Gains, e: real, integral: real, threshold: real, dt: real, drop: real)
    requires g.kd > 0.0
    ensures drop >= DropNeeded(g, e, integral, threshold, dt)
            <==> drop >= (g.kp * e + g.ki * integral - threshold) * dt / g.kd
  {}

  lemma LowSignal(g: Gains, s: State, e: real, dt: real, threshold: real)
    requires g.kd > 0.0 && dt > 0.0
    ensures Signal(g, s, e, dt) <= threshold
            <==> s.lastError - e >= DropNeeded(g, e, Integrate(g, s.integral, e, dt), threshold, dt)
  {
    hide Integrate;
  }

  /**
   The integral is the value within plus or minus integral_max that is nearest to the old one with the error of this
   interval added; an error of less than a half leaves 95 percent of that.
   */
  lemma {:induction false} IntegralExactly(g: Gains, s: State, measured: real, now: real, e: real, dt: real, v: real)
    requires Abs(v) <= g.integralMax
    requires e == measured - g.target && dt == if now - s.lastTime > 0.0 then now - s.lastTime else 0.000001
    ensures var r := Update(g, s, measured, now);
            var sum := s.integral + e * dt;
            var kept := if Abs(e) < 0.5 then r.state.integral / 0.95 else r.state.integral;
            Abs(kept) <= g.integralMax && Abs(kept - sum) <= Abs(v - sum)
  {
    assert dt == Elapsed(s, now);
    hide *;
    UpdateIntegral(g, s, measured, now, e, dt);
    IntegrateNearest(g, s.integral, e, dt, v);
  }

  lemma UpdateIntegral(g: Gains, s: State, measured: real, now: real, e: real, dt: real)
    requires e == measured - g.target && dt == Elapsed(s, now)
    ensures Update(g, s, measured, now).state.integral == Integrate(g, s.integral, e, dt)
  {
    hide Signal, Integrate, Elapsed;
  }

  lemma IntegrateNearest(g: Gains, integral: real, e: real, dt: real, v: real)
    requires Abs(v) <= g.integralMax
    ensures var sum, r := integral + e * dt, Integrate(g, integral, e, dt);
            var kept := if Abs(e) < 0.5 then r / 0.95 else r;
            Abs(kept) <= g.integralMax && Abs(kept - sum) <= Abs(v - sum)
  {
    var sum := integral + e * dt;
    Unleaked(Max(-g.integralMax, Min(g.integralMax, sum)));
  }

  lemma Unleaked(x: real)
    ensures x * LEAK / 0.95 == x
  {}

  /** A depth that has not fallen, and whose proportional term alone reaches a threshold, gets an output that does. */
  lemma {:induction false} HighOutput(g: Gains, start: real, samples: seq<Sample>, measured: real, now: real,
      threshold: real)
    requires g.ki > 0.0 && g.kd > 0.0 && g.integralMax >= 0.0 && threshold <= g.outputMax
    requires NeverBelow(g, samples) && measured >= g.target
    requires g.kp * (measured - g.target) >= threshold
    ensures var s := Run(g, Initial(start), samples);
            measured - g.target >= s.lastError ==> Update(g, s, measured, now).u >= threshold
  {
    var s := Run(g, Initial(start), samples);
    var e, dt := measured - g.target, Elapsed(s, now);
    IntegralInRange(g, start, samples);
    IntegrateBounded(g, s.integral, e, dt);
    hide Integrate, Run, Derivative;
    ScaleLeq(0.0, Integrate(g, s.integral, e, dt), g.ki);
    if e >= s.lastError { RisingTerm(g, e, s.lastError, dt); }
  }

  lemma RisingTerm(g: Gains, e: real, last: real, dt: real)
    requires g.kd >= 0.0 && e >= last && dt > 0.0
    ensures Derivative(g, e, last, dt) >= 0.0
  {
    assert g.kd * (e - last) >= 0.0;
  }

  lemma DropPositive(g: Gains, e: real, integral: real, threshold: real, dt: real)
    requires g.kp > 0.0 && g.ki > 0.0 && g.kd > 0.0 && e >= 0.0 && integral >= 0.0 && threshold < 0.0 && dt > 0.0
    ensures DropNeeded(g, e, integral, threshold, dt) > 0.0
  {
    assert g.kp * e >= 0.0 && g.ki * integral >= 0.0;
    var need := Drive(g, e, integral) - threshold;
    assert need > 0.0;
    assert need * dt > 0.0;
  }

  /**
   With the depth at or above target throughout, an output at or below a negative threshold means the depth
   fell since the last update, by at least DropNeeded: non-decreasing load never asks for fewer workers.
   */
  lemma RisingLoadNeverLow(g: Gains, start: real, samples: seq<Sample>, measured: real, now: real, threshold: real)
    requires g.kp > 0.0 && g.ki > 0.0 && g.kd > 0.0 && g.integralMax >= 0.0
    requires g.outputMin <= threshold < g.outputMax && threshold < 0.0
    requires NeverBelow(g, samples) && measured >= g.target
    ensures var s := Run(g, Initial(start), samples);
            Update(g, s, measured, now).u <= threshold ==> measured - g.target < s.lastError
  {
    hide DropNeeded, Signal, Elapsed;
    var s := Run(g, Initial(start), samples);
    var e, dt := measured - g.target, Elapsed(s, now);
    IntegralInRange(g, start, samples);
    IntegrateBounded(g, s.integral, e, dt);
    LowUpdate(g, s, measured, now, e, dt, Integrate(g, s.integral, e, dt), threshold);
    DropPositive(g, e, Integrate(g, s.integral, e, dt), threshold, dt);
  }

  // ----- Quiet ticks -----

  function Power(x: real, n: nat): real {
    if n == 0 then 1.0 else Power(x, n - 1) * x
  }

  /** n updates in a row that measure exactly the target, at the given clock readings. */
  function Quiet(g: Gains, times: seq<real>): (samples: seq<Sample>)
    ensures |samples| == |times|
  {
    seq(|times|, i requires 0 <= i < |times| => Sample(g.target, times[i]))
  }

  /** One zero-error tick more leaks the integral once. */
  lemma QuietNext(g: Gains, s: State, times: seq<real>, now: real)
    requires 0.0 <= Run(g, s, Quiet(g, times)).integral <= g.integralMax
    ensures var q, r := Run(g, s, Quiet(g, times)), Run(g, s, Quiet(g, times + [now]));
            r.integral == q.integral * LEAK && 0.0 <= r.integral <= g.integralMax && r.lastError == 0.0
  {
    hide Integrate, Derivative, Drive, Signal, Elapsed;
    var q := Run(g, s, Quiet(g, times));
    assert Quiet(g, times + [now])[..|times|] == Quiet(g, times);
    assert Quiet(g, times + [now])[|times|] == Sample(g.target, now);
    LeakOnce(g, q.integral, Elapsed(q, now));
  }

  /** A value leaked n times. */
  function Leaked(x: real, n: nat): real {
    if n == 0 then x else Leaked(x, n - 1) * LEAK
  }

  lemma {:induction false} LeakedIsPower(x: real, n: nat)
    ensures Leaked(x, n) == x * Power(LEAK, n)
  {
    if n > 0 {
      LeakedIsPower(x, n - 1);
      Reassociate(x, Power(LEAK, n - 1), LEAK);
      hide Leaked;
    }
  }

  lemma Reassociate(a: real, b: real, c: real)
    ensures a * b * c == a * (b * c)
  {}

  /** n zero-error ticks leak the integral n times. */
  lemma {:induction false} QuietDecay(g: Gains, s: State, times: seq<real>)
    requires 0.0 <= s.integral <= g.integralMax
    ensures var r := Run(g, s, Quiet(g, times));
            && r.integral == Leaked(s.integral, |times|)
            && 0.0 <= r.integral <= g.integralMax
            && (times != [] ==> r.lastError == 0.0)
  {
    if times != [] {
      hide Run, Quiet;
      var front, now := times[..|times| - 1], times[|times| - 1];
      assert front + [now] == times;
      QuietDecay(g, s, front);
      QuietNext(g, s, front, now);
    }
  }

  /** ki * integral_max * 0.95^n. */
  function QuietBound(g: Gains, n: nat): real {
    g.ki * g.integralMax * Power(LEAK, n)
  }

  /** One zero-error update. */
  lemma QuietUpdate(g: Gains, q: State, now: real, bound: real)
    requires g.kd >= 0.0 && g.outputMin <= 0.0 <= bound && 0.0 <= q.integral <= g.integralMax && q.lastError >= 0.0
    requires Drive(g, 0.0, q.integral * LEAK) <= bound
    ensures Update(g, q, g.target, now).u <= bound
  {
    var dt := Elapsed(q, now);
    LeakOnce(g, q.integral, dt);
    FallingTerm(g, q.lastError, dt);
    hide Drive, Derivative, Integrate;
  }

  /**
   After a history never below target, the n-th zero-error tick in a row outputs at most
   ki * integral_max * 0.95^n.
   */
  lemma {:induction false} QuietOutput(g: Gains, start: real, history: seq<Sample>, times: seq<real>)
    requires g.ki >= 0.0 && g.kd >= 0.0 && g.integralMax >= 0.0 && g.outputMin <= 0.0 && times != []
    requires NeverBelow(g, history)
    ensures var s, n := Run(g, Initial(start), history), |times|;
            Update(g, Run(g, s, Quiet(g, times[..n - 1])), g.target, times[n - 1]).u <= QuietBound(g, n)
  {
    hide Update, QuietBound, Drive;
    var s, n := Run(g, Initial(start), history), |times|;
    IntegralInRange(g, start, history);
    var q := Run(g, s, Quiet(g, times[..n - 1]));
    QuietDecay(g, s, times[..n - 1]);
    LeakedIsPower(s.integral, n - 1);
    QuietDrive(g, s.integral, q.integral, n);
    QuietUpdate(g, q, times[n - 1], QuietBound(g, n));
  }

  lemma LeakOnce(g: Gains, integral: real, dt: real)
    requires 0.0 <= integral <= g.integralMax
    ensures Integrate(g, integral, 0.0, dt) == integral * LEAK
  {}

  lemma QuietDrive(g: Gains, start: real, integral: real, n: nat)
    requires g.ki >= 0.0 && 0.0 <= start <= g.integralMax && n > 0 && integral == start * Power(LEAK, n - 1)
    ensures Drive(g, 0.0, integral * LEAK) <= QuietBound(g, n)
    ensures QuietBound(g, n) >= 0.0
  {
    var p := Power(LEAK, n);
    PowerPositive(n);
    assert integral * LEAK == start * p;
    ScaleLeq(start, g.integralMax, p);
    ScaleLeq(start * p, g.integralMax * p, g.ki);
    assert g.ki * (g.integralMax * p) == g.ki * g.integralMax * p;
    ScaleLeq(0.0, g.integralMax * p, g.ki);
  }

  lemma ScaleLeq(a: real, b: real, c: real)
    requires a <= b && c >= 0.0
    ensures a * c <= b * c && c * a <= c * b
  {}

  lemma FallingTerm(g: Gains, last: real, dt: real)
    requires g.kd >= 0.0 && last >= 0.0 && dt > 0.0
    ensures Derivative(g, 0.0, last, dt) <= 0.0
  {
    assert g.kd * (0.0 - last) <= 0.0;
  }

  lemma {:induction false} PowerPositive(n: nat)
    ensures Power(LEAK, n) > 0.0
  {
    if n > 0 { PowerPositive(n - 1); }
  }

  lemma {:induction false} PowerFalls(m: nat, n: nat)
    requires m <= n
    ensures Power(LEAK, n) <= Power(LEAK, m)
  {
    if m < n {
      PowerFalls(m, n - 1);
      PowerPositive(n - 1);
    }
  }

  /** The gains and limits the router starts the controller with. */
  const ROUTER_GAINS := Gains(0.5, 0.1, 0.05, 0.0, -2.0, 2.0, 10.0)

  /** With them, from the tenth zero-error tick in a row on, no tick can reach the scale-up threshold 0.6. */
  lemma {:induction false} TenQuietTicks(start: real, history: seq<Sample>, times: seq<real>)
    requires NeverBelow(ROUTER_GAINS, history) && |times| >= 10
    ensures var g, n := ROUTER_GAINS, |times|;
            Update(g, Run(g, Run(g, Initial(start), history), Quiet(g, times[..n - 1])), g.target, times[n - 1]).u < 0.6
  {
    QuietOutput(ROUTER_GAINS, start, history, times);
    PowerFalls(10, |times|);
    TenthPower();
    ScaleLeq(Power(LEAK, |times|), Power(LEAK, 10), 1.0);
  }

  lemma TenthPower()
    ensures Power(LEAK, 10) < 0.6
  {
    assert Power(LEAK, 2) == 0.9025;
    assert Power(LEAK, 4) == 0.9025 * 0.9025;
    assert Power(LEAK, 6) == 0.9025 * 0.9025 * 0.9025;
    assert Power(LEAK, 8) == 0.9025 * 0.9025 * 0.9025 * 0.9025;
  }
}

/** The controller object, updated in place. */
module PidControllers {
  import opened Reals
  import opened Pid

  /** One entry of the plotting history; the code rounds these for display. */
  datatype Record = Record(ts: real, measured: real, target: real, error: real, p: real, i: real, d: real, output: real,
      integral: real)

  const HISTORY_LENGTH := 200

  /** The history forgets its oldest entry when it is full. */
  function Keep(history: seq<Record>, r: Record): seq<Record> {
    if |history| < HISTORY_LENGTH then history + [r] else history[|history| - HISTORY_LENGTH + 1..] + [r]
  }

  class PIDController {
    const gains: Gains
    var integral: real
    var lastError: real
    var lastTime: real
    var records: seq<Record>

    function View(): State
      reads this
    {
      State(integral, lastError, lastTime)
    }

    constructor (gains: Gains, now: real)
      ensures this.gains == gains && View() == Initial(now) && records == []
    {
      this.gains := gains;
      integral, lastError, lastTime := 0.0, 0.0, now;
      records := [];
    }

    method Update(measured: real, now: real) returns (u: real)
      modifies this
      ensures Pid.Update(gains, old(View()), measured, now) == Output(View(), u)
      ensures exists r :: records == Keep(old(records), r) && r.ts == now && r.measured == measured && r.output == u
                          && r.integral == integral
      ensures |records| == (if |old(records)| < 200 then |old(records)| + 1 else 200)
    {
      var dt := now - lastTime;
      if dt <= 0.0 { dt := MIN_DT; }

      var e := measured - gains.target;
      integral := Accumulate(e, dt);

      var p, i, d := Terms(e, dt);
      hide Drive, Derivative, Integrate, Keep;
      u := Max(gains.outputMin, Min(gains.outputMax, p + i + d));

      lastError := e;
      lastTime := now;
      Remember(Record(now, measured, gains.target, e, p, i, d, u, integral));
    }

    /** The bounded history. */
    method Remember(r: Record)
      modifies this`records
      ensures records == Keep(old(records), r)
      ensures |records| == (if |old(records)| < 200 then |old(records)| + 1 else 200)
      ensures records == old(records)[|old(records)| + 1 - |records|..] + [r]
    {
      records := Keep(records, r);
    }

    /** The three terms of the control signal. */
    method Terms(e: real, dt: real) returns (p: real, i: real, d: real)
      requires dt > 0.0
      ensures p + i == Drive(gains, e, integral) && d == Derivative(gains, e, lastError, dt)
    {
      p := gains.kp * e;
      i := gains.ki * integral;
      d := gains.kd * (e - lastError) / dt;
    }

    /** The clamped, leaking integral after this error. */
    method Accumulate(e: real, dt: real) returns (r: real)
      ensures r == Integrate(gains, integral, e, dt)
    {
      r := Max(-gains.integralMax, Min(gains.integralMax, integral + e * dt));
      if Abs(e) < 0.5 { r := r * LEAK; }
    }

    method Reset(now: real)
      modifies this`integral, this`lastError, this`lastTime
      ensures View() == Initial(now)
    {
      integral, lastError, lastTime := 0.0, 0.0, now;
    }
  }
}
