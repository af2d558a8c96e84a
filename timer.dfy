/**
 * The engine's countdown timer in its one-shot mode (`TimerMode::Once`).
 * Durations are whole nanoseconds, as `std::time::Duration` counts them.
 * `finished` is a flag that only `Tick` sets and only `Reset` clears: a
 * zero-length timer is therefore not finished until it has been ticked once.
 */
module Timers {
  const NanosPerSecond: nat := 1_000_000_000

  datatype Timer = Timer(duration: nat, elapsed: nat, finished: bool) {

    /** The timer never runs past its duration, and a finished timer sits at it. */
    predicate Valid() {
      elapsed <= duration && (finished ==> elapsed == duration)
    }

    /** Time still to run before the timer finishes. */
    function Remaining(): nat {
      if elapsed <= duration then duration - elapsed else 0
    }

    /** Advance by `delta`; a finished one-shot timer ignores ticks. */
    function Tick(delta: nat): (t: Timer)
      ensures t.duration == duration
      ensures finished ==> t == this
      ensures t.finished <==> finished || elapsed + delta >= duration
      ensures Valid() ==> (t.finished <==> finished || delta >= Remaining())
      ensures !t.finished ==> t.elapsed == elapsed + delta
      ensures !finished && t.finished ==> t.elapsed == duration
      ensures Valid() ==> t.Valid()
    {
      if finished then this
      else
        var e := elapsed + delta;
        Timer(duration, if e >= duration then duration else e, e >= duration)
    }

    /** Rewind to zero elapsed time; the duration is kept. */
    function Reset(): (t: Timer)
      ensures t.Valid()
      ensures t.duration == duration && t.elapsed == 0 && !t.finished
      ensures t.Remaining() == duration
    {
      Timer(duration, 0, false)
    }

    /** Change the duration only; elapsed time and the finished flag stay. */
    function SetDuration(d: nat): (t: Timer)
      ensures t.duration == d && t.elapsed == elapsed && t.finished == finished
      ensures !finished && elapsed <= d ==> t.Valid()
    {
      Timer(d, elapsed, finished)
    }
  }

  /** A fresh one-shot timer of the given duration (`Timer::new(d, TimerMode::Once)`). */
  function Once(d: nat): (t: Timer)
    ensures t.Valid() && t.duration == d && t.elapsed == 0 && !t.finished
  {
    Timer(d, 0, false)
  }

  /** Total of a sequence of frame deltas. */
  function Sum(deltas: seq<nat>): nat {
    if deltas == [] then 0 else deltas[0] + Sum(deltas[1..])
  }

  /** Tick once per delta, in order. */
  function TickAll(t: Timer, deltas: seq<nat>): (r: Timer)
    ensures r.duration == t.duration
    ensures t.finished ==> r == t
    decreases |deltas|
  {
    if deltas == [] then t else TickAll(t.Tick(deltas[0]), deltas[1..])
  }

  /** Two ticks in a row act as one tick by their sum, overshoot included. */
  lemma TickTwice(t: Timer, a: nat, b: nat)
    ensures t.Tick(a).Tick(b) == t.Tick(a + b)
  {
  }

  /** Ticking frame by frame is ticking once by the total time. */
  lemma {:induction false} TickAllIsTickOfSum(t: Timer, deltas: seq<nat>)
    requires deltas != []
    ensures TickAll(t, deltas) == t.Tick(Sum(deltas))
    decreases |deltas|
  {
    var rest := deltas[1..];
    if rest == [] {
      assert Sum(deltas) == deltas[0];
    } else {
      TickAllIsTickOfSum(t.Tick(deltas[0]), rest);
      TickTwice(t, deltas[0], Sum(rest));
    }
  }
}
