/**
 * A weapon updated once per frame over a sequence of frame deltas, and what
 * its fire-control timers promise across many updates.
 */
module WeaponRuns {
  import opened Timers
  import opened Weapons

  /** The timers after the last update, and the result of each update in order. */
  datatype Trace = Trace(final: FireClock, outputs: seq<bool>)

  /** Update the timers once per delta, in order, collecting the results. */
  function Run(s: FireClock, mode: FireMode, deltas: seq<nat>): (r: Trace)
    ensures |r.outputs| == |deltas|
    ensures s.Valid() ==> r.final.Valid()
    decreases |deltas|
  {
    if deltas == [] then Trace(s, [])
    else
      var step := s.Update(mode, deltas[0]);
      var rest := Run(step.clock, mode, deltas[1..]);
      Trace(rest.final, [step.fireable] + rest.outputs)
  }

  /**
   * Reference for the reload phase of an Automatic weapon: starting from
   * `acc` accumulated nanoseconds, a shot falls on each delta that brings
   * the time since the last shot up to `period`; the surplus is dropped.
   */
  function Countdown(acc: nat, period: nat, deltas: seq<nat>): (r: seq<bool>)
    decreases |deltas|
  {
    if deltas == [] then []
    else if acc + deltas[0] >= period then [true] + Countdown(0, period, deltas[1..])
    else [false] + Countdown(acc + deltas[0], period, deltas[1..])
  }

  /**
   * Reference for the reload phase of a Manual weapon: starting from `acc`
   * accumulated nanoseconds, each delta reports whether the time since the
   * last reset has reached `period`. Nothing restarts the count, so once it
   * is reached every later delta reports it too.
   */
  function Latch(acc: nat, period: nat, deltas: seq<nat>): (r: seq<bool>)
    ensures |r| == |deltas|
    decreases |deltas|
  {
    if deltas == [] then []
    else [acc + deltas[0] >= period] + Latch(acc + deltas[0], period, deltas[1..])
  }

  /** Once the count has reached the period, the latch reports true for good. */
  lemma {:induction false} LatchStaysTrue(acc: nat, period: nat, deltas: seq<nat>)
    requires acc >= period
    ensures forall k :: 0 <= k < |deltas| ==> Latch(acc, period, deltas)[k]
    decreases |deltas|
  {
    if deltas != [] {
      LatchStaysTrue(acc + deltas[0], period, deltas[1..]);
    }
  }

  /** The initial timer sees every delta: once finished, further ticks are no-ops. */
  lemma {:induction false} RunTicksInitialByEveryDelta(s: FireClock, mode: FireMode, deltas: seq<nat>)
    ensures Run(s, mode, deltas).final.initial == TickAll(s.initial, deltas)
    decreases |deltas|
  {
    if deltas != [] {
      var step := s.Update(mode, deltas[0]);
      assert step.clock.initial == s.initial.Tick(deltas[0]);
      RunTicksInitialByEveryDelta(step.clock, mode, deltas[1..]);
    }
  }

  /**
   * The initial delay ends on the first update whose cumulative delta reaches
   * it, and not before.
   */
  lemma InitialDelayEndsWhenTotalReachesIt(s: FireClock, mode: FireMode, deltas: seq<nat>)
    requires !s.initial.finished && deltas != []
    ensures Run(s, mode, deltas).final.initial.finished <==>
              s.initial.elapsed + Sum(deltas) >= s.initial.duration
  {
    RunTicksInitialByEveryDelta(s, mode, deltas);
    TickAllIsTickOfSum(s.initial, deltas);
  }

  /**
   * While the cumulative delta stays short of the initial delay, every update
   * reports false and the reload timer is never touched.
   */
  lemma {:induction false} NoShotDuringInitialDelay(s: FireClock, mode: FireMode, deltas: seq<nat>)
    requires !s.initial.finished
    requires s.initial.elapsed + Sum(deltas) < s.initial.duration
    ensures forall k :: 0 <= k < |deltas| ==> !Run(s, mode, deltas).outputs[k]
    ensures Run(s, mode, deltas).final.reload == s.reload
    ensures !Run(s, mode, deltas).final.initial.finished
    decreases |deltas|
  {
    if deltas != [] {
      var step := s.Update(mode, deltas[0]);
      NoShotDuringInitialDelay(step.clock, mode, deltas[1..]);
    }
  }

  /** Once the initial delay is over, no sequence of updates brings it back. */
  lemma {:induction false} InitialDelayNeverReturns(s: FireClock, mode: FireMode, deltas: seq<nat>)
    requires s.initial.finished
    ensures Run(s, mode, deltas).final.initial == s.initial
    decreases |deltas|
  {
    if deltas != [] {
      InitialDelayNeverReturns(s.Update(mode, deltas[0]).clock, mode, deltas[1..]);
    }
  }

  /**
   * Manual mode: once both timers are finished, every later update reports
   * true and changes nothing, until a caller resets the reload timer.
   */
  lemma {:induction false} ManualStaysReady(s: FireClock, deltas: seq<nat>)
    requires s.initial.finished && s.reload.finished
    ensures Run(s, Manual, deltas).final == s
    ensures forall k :: 0 <= k < |deltas| ==> Run(s, Manual, deltas).outputs[k]
    decreases |deltas|
  {
    if deltas != [] {
      assert s.Update(Manual, deltas[0]) == Step(s, true);
      ManualStaysReady(s, deltas[1..]);
    }
  }

  /**
   * Manual mode, reload phase: after the initial delay, and with the reload
   * timer not finished (as after an outside reset), updates report false
   * until the time accumulated on the reload timer reaches its duration and
   * true from then on.
   */
  lemma {:induction false} ManualFollowsLatch(s: FireClock, deltas: seq<nat>)
    requires s.initial.finished && !s.reload.finished
    ensures Run(s, Manual, deltas).outputs == Latch(s.reload.elapsed, s.reload.duration, deltas)
    decreases |deltas|
  {
    if deltas != [] {
      var step := s.Update(Manual, deltas[0]);
      var rest := deltas[1..];
      var acc := s.reload.elapsed + deltas[0];
      if step.fireable {
        ManualStaysReady(step.clock, rest);
        LatchStaysTrue(acc, s.reload.duration, rest);
        assert Run(step.clock, Manual, rest).outputs == Latch(acc, s.reload.duration, rest);
      } else {
        ManualFollowsLatch(step.clock, rest);
      }
    }
  }

  /**
   * Automatic mode, reload phase: the results are those of a countdown that
   * restarts from zero at every shot, and between updates the reload timer is
   * never left finished.
   */
  lemma {:induction false} AutomaticFollowsCountdown(s: FireClock, deltas: seq<nat>)
    requires s.initial.finished && !s.reload.finished
    ensures Run(s, Automatic, deltas).outputs == Countdown(s.reload.elapsed, s.reload.duration, deltas)
    ensures !Run(s, Automatic, deltas).final.reload.finished
    ensures Run(s, Automatic, deltas).final.reload.duration == s.reload.duration
    decreases |deltas|
  {
    if deltas != [] {
      var step := s.Update(Automatic, deltas[0]);
      AutomaticFollowsCountdown(step.clock, deltas[1..]);
    }
  }

  /**
   * Initial delay 2 s, reload 1 s, Automatic, four 1 s frames: the delay
   * ends on the second frame, and from then on each 1 s frame completes a
   * full reload, so the results are false, false, true, true.
   */
  lemma AutomaticOneSecondFrames()
    ensures Run(FireClock(Once(2 * NanosPerSecond), Once(NanosPerSecond)), Automatic,
                [NanosPerSecond, NanosPerSecond, NanosPerSecond, NanosPerSecond]).outputs
            == [false, false, true, true]
  {
    var n := NanosPerSecond;
    var s0 := FireClock(Once(2 * n), Once(n));
    var s1 := FireClock(Timer(2 * n, n, false), Once(n));
    var s2 := FireClock(Timer(2 * n, 2 * n, true), Once(n));
    assert s0.Update(Automatic, n) == Step(s1, false);
    assert s1.Update(Automatic, n) == Step(s2, false);
    assert s2.Update(Automatic, n) == Step(s2, true);
    assert Run(s2, Automatic, [n]).outputs == [true];
    assert Run(s2, Automatic, [n, n]).outputs == [true, true];
    assert Run(s1, Automatic, [n, n, n]).outputs == [false, true, true];
  }

  /**
   * Initial delay 0, reload 0.5 s, Manual. The zero-length initial timer is
   * only marked finished by its first tick, so the first update reports
   * false; the next two report true without any reset in between. After a
   * reset of the reload timer, 0.4 s reports false and a further 0.1 s true.
   */
  lemma ManualHalfSecondReload()
    ensures var t := Run(FireClock(Once(0), Once(NanosPerSecond / 2)), Manual,
                         [NanosPerSecond / 2, NanosPerSecond / 2, NanosPerSecond / 2]);
            t.outputs == [false, true, true] &&
            Run(FireClock(t.final.initial, t.final.reload.Reset()), Manual,
                [4 * NanosPerSecond / 10, NanosPerSecond / 10]).outputs == [false, true]
  {
    var h := NanosPerSecond / 2;
    var s0 := FireClock(Once(0), Once(h));
    var s1 := FireClock(Timer(0, 0, true), Once(h));
    var s2 := FireClock(Timer(0, 0, true), Timer(h, h, true));
    assert s0.Update(Manual, h) == Step(s1, false);
    assert s1.Update(Manual, h) == Step(s2, true);
    ManualStaysReady(s2, [h]);
    assert Run(s1, Manual, [h, h]).outputs == [true, true];
    var t := Run(s0, Manual, [h, h, h]);
    assert t.final == s2;
    var r0 := FireClock(Timer(0, 0, true), Once(h));
    var r1 := FireClock(Timer(0, 0, true), Timer(h, 4 * NanosPerSecond / 10, false));
    assert r0.Update(Manual, 4 * NanosPerSecond / 10) == Step(r1, false);
    assert r1.Update(Manual, NanosPerSecond / 10).fireable;
    assert Run(r1, Manual, [NanosPerSecond / 10]).outputs == [true];
  }
}
