/**
 * The engine's timer. The game uses it in `TimerMode::Once` for every cooldown
 * and in `TimerMode::Repeating` for animation frames and the text reveal; the two
 * modes share the fields and differ only in how a tick goes past the duration.
 * Durations and elapsed time are whole milliseconds.
 */
module Timers {

  /**
   * `elapsed` never exceeds `duration` once the timer has been ticked;
   * `justFinished` says whether the last tick is the one that finished it.
   */
  datatype Timer = Timer(elapsed: nat, duration: nat, justFinished: bool)

  predicate Finished(t: Timer) {
    t.elapsed >= t.duration
  }

  /** `Timer::new(duration, TimerMode::Once)`. */
  function OnceTimer(duration: nat): (r: Timer)
    ensures r.duration == duration && r.elapsed == 0 && !r.justFinished
  {
    Timer(0, duration, false)
  }

  function Min(a: nat, b: nat): nat { if a <= b then a else b }

  /**
   * `Timer::tick(delta)`: a finished one-shot timer stays put and is no longer
   * "just finished"; otherwise the elapsed time grows by `delta`, clamped at the
   * duration, and the timer is "just finished" exactly when it reached it now.
   */
  function Tick(t: Timer, delta: nat): (r: Timer)
    ensures r.duration == t.duration
    ensures Finished(t) ==> r == t.(justFinished := false)
    ensures !Finished(t) ==> r.elapsed == Min(t.elapsed + delta, t.duration)
    ensures r.justFinished <==> !Finished(t) && t.elapsed + delta >= t.duration
    ensures Finished(r) <==> Finished(t) || t.elapsed + delta >= t.duration
  {
    if Finished(t) then t.(justFinished := false)
    else if t.elapsed + delta >= t.duration then Timer(t.duration, t.duration, true)
    else Timer(t.elapsed + delta, t.duration, false)
  }

  /** `Timer::reset`: back to zero elapsed time, not finished unless the duration is zero. */
  function Reset(t: Timer): (r: Timer)
    ensures r.duration == t.duration && r.elapsed == 0 && !r.justFinished
    ensures Finished(r) <==> t.duration == 0
  {
    Timer(0, t.duration, false)
  }

  /** Two ticks reach the same elapsed time and finished state as one tick by their sum. */
  lemma TickAdditive(t: Timer, a: nat, b: nat)
    requires t.elapsed <= t.duration
    ensures Tick(Tick(t, a), b).elapsed == Tick(t, a + b).elapsed
    ensures Finished(Tick(Tick(t, a), b)) == Finished(Tick(t, a + b))
  {
  }

  /**
   * `Timer::tick(delta)` in repeating mode: the elapsed time wraps around the
   * duration, and the timer is "just finished" exactly when this tick reached
   * the duration at least once.
   */
  function RepeatingTick(t: Timer, delta: nat): (r: Timer)
    requires t.duration > 0
    ensures r.duration == t.duration && r.elapsed < t.duration
    ensures r.justFinished <==> t.elapsed + delta >= t.duration
    ensures t.elapsed + delta < t.duration ==> r.elapsed == t.elapsed + delta
  {
    var e := t.elapsed + delta;
    Timer(e % t.duration, t.duration, e >= t.duration)
  }
}
