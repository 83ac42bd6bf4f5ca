/** When to show the next frame (src/client/frame_clock.cpp).  Times are nanoseconds on one clock;
    the division and remainder are those of C++, which truncate toward zero. */
module FrameTiming {
  import opened Arithmetic

  function Rem(a: int, b: int): int
    requires b != 0
  {
    if a >= 0 then a % b else -((-a) % b)
  }

  function Quot(a: int, b: int): int
    requires b > 0
  {
    if a >= 0 then a / b else -((-a) / b)
  }

  datatype Clock = Clock(phase: int, period: nat, configChanged: bool)

  const NEW_CLOCK := Clock(0, 0, false)

  /** What next_frame_after reads from outside: the time, and if it resynchronises, a vsync
      timestamp from the server and the time after that. */
  datatype Reading = Reading(now: int, serverFrame: int, later: int)

  /** `when` moved onto the phase. */
  function Previous(c: Clock, when: int): int
    requires c.period > 0
  {
    when - (Rem(when, c.period) - c.phase)
  }

  function Missed(c: Clock, when: int, now: int): int
    requires c.period > 0
  {
    var target := Previous(c, when) + c.period;
    if now > target then Quot(now - target, c.period) else 0
  }

  predicate Resyncs(c: Clock, when: int, now: int)
    requires c.period > 0
  {
    Missed(c, when, now) > 1 || c.configChanged
  }

  /** The target on a resynchronisation. */
  function Resynced(period: nat, serverFrame: int, later: int): int
    requires period > 0
  {
    if serverFrame > later then serverFrame
    else serverFrame + (Quot(later - serverFrame, period) + 1) * period
  }

  /** next_frame_after: the clock it leaves and the time it returns. */
  function NextFrame(c: Clock, when: int, r: Reading): (Clock, int) {
    if c.period == 0 then (c, when)
    else if Resyncs(c, when, r.now) then
      (Clock(Rem(r.serverFrame, c.period), c.period, false), Resynced(c.period, r.serverFrame, r.later))
    else (c, Previous(c, when) + c.period + Missed(c, when, r.now) * c.period)
  }

  /** Timestamps of a monotone clock. */
  predicate InOrder(r: Reading) {
    r.now <= r.later && 0 <= r.serverFrame
  }

  /** What every method keeps: the phase fits the period, or a resynchronisation is due. */
  predicate InPhase(c: Clock) {
    0 <= c.phase && (c.configChanged || c.period == 0 || c.phase < c.period)
  }

  predicate OnGrid(t: int, phase: int, period: nat)
    requires period > 0
  {
    t % period == phase
  }

  class FrameClock {
    var phase: int
    var period: nat
    var configChanged: bool

    ghost function View(): Clock
      reads this
    {
      Clock(phase, period, configChanged)
    }

    constructor ()
      ensures View() == NEW_CLOCK && InPhase(View())
    {
      phase, period, configChanged := 0, 0, false;
    }

    method SetPeriod(ns: nat)
      requires InPhase(View())
      modifies this
      ensures View() == old(View()).(period := ns, configChanged := true) && InPhase(View())
    {
      period := ns;
      configChanged := true;
    }

    method SetResyncCallback()
      requires InPhase(View())
      modifies this`configChanged
      ensures View() == old(View()).(configChanged := true) && InPhase(View())
    {
      configChanged := true;
    }

    /** next_frame_after. */
    method NextFrameAfter(when: int, r: Reading) returns (target: int)
      requires InPhase(View()) && InOrder(r)
      modifies this`phase, this`configChanged
      ensures (View(), target) == NextFrame(old(View()), when, r)
      ensures InPhase(View())
      ensures period == 0 ==> target == when && View() == old(View())
      ensures period > 0 ==> !configChanged
      ensures period > 0 && !Resyncs(old(View()), when, r.now) ==> phase == old(phase)
      ensures period > 0 && Resyncs(old(View()), when, r.now) ==> phase == r.serverFrame % period
    {
      if period == 0 {
        return when;
      }
      var prev := when - (Rem(when, period) - phase);
      target := prev + period;
      var missedFrames := if r.now > target then Quot(r.now - target, period) else 0;
      assert missedFrames == Missed(View(), when, r.now) >= 0;
      if missedFrames > 1 || configChanged {
        RemInRange(r.serverFrame, period);
        phase := Rem(r.serverFrame, period);
        target := TargetFromVsync(period, r.serverFrame, r.later);
        configChanged := false;
      } else if missedFrames > 0 {
        target := target + missedFrames * period;
      }
    }
  }

  /** The resynchronised target; the assertion the code makes about it holds. */
  method TargetFromVsync(period: nat, serverFrame: int, later: int) returns (target: int)
    requires period > 0
    ensures target == Resynced(period, serverFrame, later) && target > later && target >= serverFrame
    ensures target == serverFrame || target - period <= later
    ensures OnGrid(target, serverFrame % period, period)
  {
    if serverFrame > later {
      target := serverFrame;
    } else {
      var ageFrames := Quot(later - serverFrame, period);
      target := serverFrame + (ageFrames + 1) * period;
    }
    ResyncIsInTheFuture(period, serverFrame, later);
    ResyncIsInPhase(period, serverFrame, later);
    assert target > later;
  }

  // ----- arithmetic

  lemma RemInRange(a: int, b: int)
    requires a >= 0 && b > 0
    ensures 0 <= Rem(a, b) < b
  {
  }

  /** Moving by whole periods stays on the grid. */
  lemma GridSteps(t: int, k: int, phase: int, period: nat)
    requires period > 0 && OnGrid(t, phase, period)
    ensures OnGrid(t + k * period, phase, period)
  {
    DivModUnique(t + k * period, period, t / period + k, phase);
  }

  /** Two times on one grid are whole periods apart. */
  lemma GridApart(t: int, u: int, phase: int, period: nat)
    requires period > 0 && OnGrid(t, phase, period) && OnGrid(u, phase, period)
    ensures u == t + (u / period - t / period) * period
  {
  }

  // ----- the assertions in the code

  /** The second assertion always holds: a resynchronised target lies in the future. */
  lemma ResyncIsInTheFuture(period: nat, serverFrame: int, later: int)
    requires period > 0
    ensures Resynced(period, serverFrame, later) > later
  {
    if serverFrame <= later {
      var age := later - serverFrame;
      assert age / period * period + age % period == age;
    }
  }

  lemma ResyncIsInPhase(period: nat, serverFrame: int, later: int)
    requires period > 0
    ensures var target := Resynced(period, serverFrame, later);
            && OnGrid(target, serverFrame % period, period) && target >= serverFrame
            && (target == serverFrame || target - period <= later)
  {
    if serverFrame <= later {
      var age := later - serverFrame;
      assert age / period * period + age % period == age;
      Multiple(age / period + 1, period);
      GridSteps(serverFrame, age / period + 1, serverFrame % period, period);
    }
  }

  /** The first assertion holds exactly when the stored phase fits the period and `when` is not a
      whole period before the epoch (or the phase is zero). */
  lemma PhaseAssertionHoldsIff(c: Clock, when: int)
    requires c.period > 0 && 0 <= c.phase
    ensures Rem(Previous(c, when), c.period) == c.phase <==>
            c.phase < c.period && (when + c.period > 0 || c.phase == 0)
  {
    if c.phase < c.period {
      PhaseAssertionInRange(c, when);
    }
  }

  lemma PhaseAssertionInRange(c: Clock, when: int)
    requires 0 <= c.phase < c.period
    ensures Rem(Previous(c, when), c.period) == c.phase <==> when + c.period > 0 || c.phase == 0
  {
    var p: int := c.period;
    if when >= 0 {
      PreviousSinceEpoch(c, when);
    } else if when + p > 0 {
      PreviousJustBeforeEpoch(c, when);
    } else {
      PhaseAssertionBeforeEpoch(c, when);
    }
  }

  lemma PreviousSinceEpoch(c: Clock, when: nat)
    requires 0 <= c.phase < c.period
    ensures Previous(c, when) >= 0 && Previous(c, when) % c.period == c.phase
  {
    var q := when / c.period;
    Multiple(q, c.period);
    assert Previous(c, when) == q * c.period + c.phase;
    DivModUnique(Previous(c, when), c.period, q, c.phase);
  }

  lemma PreviousJustBeforeEpoch(c: Clock, when: int)
    requires 0 <= c.phase < c.period && 0 < when + c.period && when < 0
    ensures Previous(c, when) == c.phase && c.phase % c.period == c.phase
  {
    DivModUnique(-when, c.period, 0, -when);
    DivModUnique(c.phase, c.period, 0, c.phase);
  }

  lemma PhaseAssertionBeforeEpoch(c: Clock, when: int)
    requires 0 <= c.phase < c.period && when + c.period <= 0
    ensures Rem(Previous(c, when), c.period) == c.phase <==> c.phase == 0
  {
    var p: int := c.period;
    var q := (-when) / p;
    var back := -Previous(c, when);
    assert back == q * p - c.phase;
    Scaled(q, p);
    if c.phase == 0 {
      DivModUnique(back, p, q, 0);
    } else {
      DivModUnique(back, p, q - 1, p - c.phase);
    }
  }

  /** Setting a shorter period than the stored phase makes the first assertion fail. */
  lemma ShorterPeriodBreaksAssertion()
    ensures var c := Clock(7, 10, false);
            var shortened := Clock(7, 5, true);
            && InPhase(c) && InPhase(shortened)
            && Rem(Previous(c, 0), 10) == 7 && Rem(Previous(shortened, 0), 5) != 7
  {
  }

  // ----- bounds

  lemma BasicTarget(c: Clock, when: int, now: int)
    requires c.period > 0 && 0 <= c.phase < c.period
    ensures var target := Previous(c, when) + c.period;
            && when < target && (0 <= when ==> target <= when + 2 * c.period)
            && OnGrid(target, c.phase, c.period)
            && target + Missed(c, when, now) * c.period > now - c.period
            && (now > target ==> target + Missed(c, when, now) * c.period <= now)
            && Missed(c, when, now) >= 0
  {
    var p := c.period;
    var target := Previous(c, when) + p;
    assert when - Rem(when, p) == Quot(when, p) * p;
    DivModUnique(target, p, Quot(when, p) + 1, c.phase);
    if now > target {
      assert (now - target) / p * p + (now - target) % p == now - target;
    }
  }

  /** The start of the frame that `when` belongs to, moved by the phase. */
  function FrameStart(when: int, phase: int, period: nat): int
    requires period > 0
  {
    (if when >= 0 then when - when % period else when + (-when) % period) + phase
  }

  /** The server is asked exactly when the configuration changed, or when the frame that `when`
      belongs to started three periods ago or more. */
  lemma ResyncsIff(c: Clock, when: int, now: int)
    requires c.period > 0
    ensures Resyncs(c, when, now) <==>
            c.configChanged || now >= FrameStart(when, c.phase, c.period) + 3 * c.period
  {
    var target := FrameStart(when, c.phase, c.period) + c.period;
    if now > target {
      MissedOver(target, now, c.period);
    }
  }

  /** Otherwise the target is the next frame, or the one after it if the next started a period ago. */
  lemma TargetOtherwise(c: Clock, when: int, r: Reading)
    requires c.period > 0 && !Resyncs(c, when, r.now)
    ensures var start := FrameStart(when, c.phase, c.period);
            NextFrame(c, when, r) == (c, start + if r.now >= start + 2 * c.period then 2 * c.period else c.period)
  {
    var target := FrameStart(when, c.phase, c.period) + c.period;
    if r.now > target {
      MissedOver(target, r.now, c.period);
    }
  }

  lemma MissedOver(target: int, now: int, period: nat)
    requires period > 0 && now > target
    ensures (now - target) / period >= 1 <==> now >= target + period
    ensures (now - target) / period >= 2 <==> now >= target + 2 * period
    ensures (now - target) / period >= 0
  {
    var d, p: int := now - target, period;
    assert d / p * p + d % p == d;
    Scaled(d / p - 1, p);
    Scaled(d / p - 2, p);
    Scaled(-(d / p), p);
    Scaled(1 - d / p, p);
  }

  /** Every target is later than one period ago, and on the grid of the phase the clock keeps. */
  lemma TargetIsTimely(c: Clock, when: int, r: Reading)
    requires InPhase(c) && c.period > 0 && InOrder(r)
    ensures var (c', target) := NextFrame(c, when, r);
            && OnGrid(target, c'.phase, c.period)
            && (Resyncs(c, when, r.now) ==> target > r.later)
            && (!Resyncs(c, when, r.now) ==> target > r.now - c.period)
  {
    var p := c.period;
    if Resyncs(c, when, r.now) {
      ResyncIsInTheFuture(p, r.serverFrame, r.later);
      ResyncIsInPhase(p, r.serverFrame, r.later);
    } else {
      BasicTarget(c, when, r.now);
      GridSteps(Previous(c, when) + p, Missed(c, when, r.now), c.phase, p);
    }
  }

  /** On a resynchronisation, whatever the vsync, the target is the first time in phase with it that
      is after now and not before the vsync itself. */
  lemma ResyncTargetsNextVsync(period: nat, serverFrame: int, later: int, t: int)
    requires period > 0
    requires t > later && t >= serverFrame && OnGrid(t, serverFrame % period, period)
    ensures var target := Resynced(period, serverFrame, later);
            && target > later && target >= serverFrame && OnGrid(target, serverFrame % period, period)
            && target <= t
  {
    var target := Resynced(period, serverFrame, later);
    ResyncIsInTheFuture(period, serverFrame, later);
    ResyncIsInPhase(period, serverFrame, later);
    if serverFrame <= later {
      GridApart(target, t, serverFrame % period, period);
      Scaled(t / period - target / period, period);
    }
  }

  /** With no configuration change pending, the target is strictly after `when`. */
  lemma TargetIsAfterWhen(c: Clock, when: int, r: Reading)
    requires InPhase(c) && c.period > 0 && !c.configChanged && InOrder(r)
    ensures NextFrame(c, when, r).1 > when
  {
    BasicTarget(c, when, r.now);
    if Resyncs(c, when, r.now) {
      ResyncIsInTheFuture(c.period, r.serverFrame, r.later);
    } else {
      assert Missed(c, when, r.now) * c.period >= 0;
    }
  }

  /** A time in phase is its own start of frame, exactly from the epoch on or when the phase is zero. */
  lemma PreviousIsItselfIff(c: Clock, when: int)
    requires 0 <= c.phase < c.period && OnGrid(when, c.phase, c.period)
    ensures Previous(c, when) == when <==> 0 <= when || c.phase == 0
  {
    if when < 0 {
      var p: int := c.period;
      assert -when == -(when / p) * p - c.phase;
      if c.phase == 0 {
        DivModUnique(-when, p, -(when / p), 0);
      } else {
        DivModUnique(-when, p, -(when / p) - 1, p - c.phase);
      }
    }
  }

  lemma StepFromGrid(c: Clock, when: int, now: int)
    requires InPhase(c) && c.period > 0 && OnGrid(when, c.phase, c.period) && !Resyncs(c, when, now)
    requires 0 <= when || c.phase == 0
    ensures Previous(c, when) == when
    ensures var missed := Missed(c, when, now);
            && 0 <= missed <= 1
            && NextFrame(c, when, Reading(now, 0, now)).1 == when + (1 + missed) * c.period
            && (missed == 1 ==> now >= when + 2 * c.period)
  {
    PreviousIsItselfIff(c, when);
    MissedAtMostOne(c, when, now, when + c.period);
  }

  lemma MissedAtMostOne(c: Clock, when: int, now: int, target: int)
    requires c.period > 0 && target == Previous(c, when) + c.period && Missed(c, when, now) <= 1
    ensures Missed(c, when, now) >= 0 && (Missed(c, when, now) == 1 ==> now >= target + c.period)
  {
    if now > target {
      assert (now - target) / c.period * c.period + (now - target) % c.period == now - target;
    }
  }

  /** Without resynchronisation, from a time in phase, the target is the first in-phase time that
      is after `when` and less than one period late: one period on, or two. */
  lemma TargetIsFirstNotLate(c: Clock, when: int, now: int, t: int)
    requires InPhase(c) && c.period > 0 && OnGrid(when, c.phase, c.period) && !Resyncs(c, when, now)
    requires 0 <= when || c.phase == 0
    requires OnGrid(t, c.phase, c.period) && t > when && t > now - c.period
    ensures var target := NextFrame(c, when, Reading(now, 0, now)).1;
            && target > now - c.period
            && (target == when + c.period || target == when + 2 * c.period)
            && target <= t
  {
    StepFromGrid(c, when, now);
    BasicTarget(c, when, now);
    GridApart(when, t, c.phase, c.period);
    FirstGridTime(t / c.period - when / c.period, Missed(c, when, now), c.period, t - when);
  }

  lemma FirstGridTime(k: int, missed: int, period: nat, distance: int)
    requires period > 0 && distance == k * period && 0 <= missed <= 1 && distance > missed * period
    ensures (1 + missed) * period <= distance
  {
    Scaled(k - missed, period);
    assert (k - missed) * period == distance - missed * period;
  }

  // ----- no drift: runs without resynchronisation

  /** Feeding each result back as the next `when`, with these readings of the time. */
  ghost function Iterate(c: Clock, when: int, nows: seq<int>): int
    decreases |nows|
  {
    if nows == [] then when
    else Iterate(c, NextFrame(c, when, Reading(nows[0], 0, nows[0])).1, nows[1..])
  }

  ghost predicate NeverResyncs(c: Clock, when: int, nows: seq<int>)
    requires c.period > 0
    decreases |nows|
  {
    nows == [] || (!Resyncs(c, when, nows[0])
                   && NeverResyncs(c, NextFrame(c, when, Reading(nows[0], 0, nows[0])).1, nows[1..]))
  }

  /** n frames advance by k whole periods with n <= k <= 2n: never between two slots, never
      standing still, never skipping more than every other one. */
  lemma {:induction false} NoDrift(c: Clock, when: int, nows: seq<int>) returns (k: nat)
    requires InPhase(c) && c.period > 0 && OnGrid(when, c.phase, c.period) && NeverResyncs(c, when, nows)
    requires 0 <= when || c.phase == 0
    ensures Iterate(c, when, nows) == when + k * c.period
    ensures |nows| <= k <= 2 * |nows|
    ensures OnGrid(Iterate(c, when, nows), c.phase, c.period)
    decreases |nows|
  {
    k := 0;
    if nows != [] {
      StepFromGrid(c, when, nows[0]);
      var missed := Missed(c, when, nows[0]);
      Multiple(1 + missed, c.period);
      GridSteps(when, 1 + missed, c.phase, c.period);
      var rest := NoDrift(c, when + (1 + missed) * c.period, nows[1..]);
      k := 1 + missed + rest;
      Sum(1 + missed, rest, c.period);
    }
  }

  // ----- runs with resynchronisation

  /** The results of successive calls, each fed back as the next `when`. */
  ghost function Results(c: Clock, when: int, readings: seq<Reading>): (r: seq<int>)
    ensures |r| == |readings|
    decreases |readings|
  {
    if readings == [] then []
    else
      var (c', target) := NextFrame(c, when, readings[0]);
      [target] + Results(c', target, readings[1..])
  }

  ghost predicate Increasing(s: seq<int>) {
    forall i, j :: 0 <= i < j < |s| ==> s[i] < s[j]
  }

  lemma IncreasingFrom(a: int, s: seq<int>)
    requires Increasing(s) && (s != [] ==> a < s[0])
    ensures Increasing([a] + s)
  {
    var t := [a] + s;
    forall i, j | 0 <= i < j < |t|
      ensures t[i] < t[j]
    {
      assert t[j] == s[j - 1] && s[0] <= s[j - 1];
    }
  }

  /** With no configuration change pending, the targets of any run, missed frames and resyncs
      included, strictly increase, and all come after the first `when`. */
  lemma {:induction false} TargetsIncrease(c: Clock, when: int, readings: seq<Reading>)
    requires InPhase(c) && c.period > 0 && !c.configChanged
    requires forall i :: 0 <= i < |readings| ==> InOrder(readings[i])
    ensures Increasing([when] + Results(c, when, readings))
    decreases |readings|
  {
    if readings != [] {
      var (c', target) := NextFrame(c, when, readings[0]);
      TargetIsAfterWhen(c, when, readings[0]);
      TargetIsTimely(c, when, readings[0]);
      assert InPhase(c') && !c'.configChanged && c'.period == c.period;
      TargetsIncrease(c', target, readings[1..]);
      IncreasingFrom(when, [target] + Results(c', target, readings[1..]));
    }
  }

  // ----- the fallback callback

  /** fallback_resync_callback */
  function FallbackFrame(period: nat, now: int): int {
    if period != 0 then now - Rem(now, period) else now
  }

  datatype Call = SetPeriod(ns: nat) | Next(when: int, now: int, asked: nat, later: int)

  ghost predicate CallInOrder(call: Call) {
    call.Next? ==> call.now <= call.asked <= call.later
  }

  /** A clock that was never given a callback, after one more call; the second part is the result
      of a Next with a non-zero period. */
  function FallbackCall(c: Clock, call: Call): (Clock, int) {
    match call
    case SetPeriod(ns) => (c.(period := ns, configChanged := true), 0)
    case Next(when, now, asked, later) =>
      NextFrame(c, when, Reading(now, FallbackFrame(c.period, asked), later))
  }

  /** After a change of period the server is asked again, whatever the time. */
  lemma NewPeriodResyncs(c: Clock, ns: nat, when: int, now: int)
    requires ns > 0
    ensures var c' := FallbackCall(c, SetPeriod(ns)).0;
            c'.period == ns && c'.phase == c.phase && Resyncs(c', when, now)
  {
  }

  ghost function FallbackClock(calls: seq<Call>): Clock
    decreases |calls|
  {
    if calls == [] then NEW_CLOCK
    else FallbackCall(FallbackClock(calls[..|calls| - 1]), calls[|calls| - 1]).0
  }

  lemma FallbackFrameOnGrid(period: nat, now: nat)
    requires period > 0
    ensures OnGrid(FallbackFrame(period, now), 0, period) && 0 <= FallbackFrame(period, now) <= now
    ensures FallbackFrame(period, now) > now - period
  {
    var q := now / period;
    assert now - now % period == q * period;
    assert q * period >= 0;
    DivModUnique(q * period, period, q, 0);
  }

  lemma FallbackStepKeepsPhase(c: Clock, call: Call)
    requires c.phase == 0
    ensures FallbackCall(c, call).0.phase == 0
  {
    if call.Next? && c.period > 0 {
      FallbackFrameOnGrid(c.period, call.asked);
    }
  }

  lemma {:induction false} FallbackPhaseIsZero(calls: seq<Call>)
    ensures FallbackClock(calls).phase == 0
    decreases |calls|
  {
    if calls != [] {
      var before := calls[..|calls| - 1];
      FallbackPhaseIsZero(before);
      FallbackStepKeepsPhase(FallbackClock(before), calls[|calls| - 1]);
    }
  }

  lemma FallbackReading(c: Clock, next: Call)
    requires next.Next? && CallInOrder(next) && c.period > 0
    ensures InOrder(Reading(next.now, FallbackFrame(c.period, next.asked), next.later))
  {
    FallbackFrameOnGrid(c.period, next.asked);
  }

  /** Clocks without a callback agree: after any calls, with any times, a target is a multiple of
      the period then in force, so clocks of equal period land on one grid. */
  lemma FallbackClocksAgree(calls: seq<Call>, next: Call)
    requires next.Next? && CallInOrder(next) && FallbackClock(calls).period > 0
    ensures OnGrid(FallbackCall(FallbackClock(calls), next).1, 0, FallbackClock(calls).period)
  {
    var c := FallbackClock(calls);
    FallbackPhaseIsZero(calls);
    FallbackReading(c, next);
    FallbackStepKeepsPhase(c, next);
    TargetIsTimely(c, next.when, Reading(next.now, FallbackFrame(c.period, next.asked), next.later));
  }
}
