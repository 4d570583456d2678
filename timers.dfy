/** The engine's `Timer`, reduced to what the game logic observes: an
    accumulated time in nanoseconds, a duration, a mode, the `finished` flag
    and how many times the timer completed during the last tick. A repeating
    timer wraps its elapsed time; a one-shot timer latches at its duration. */
module Timers {
  import opened Arith

  /** `u32::MAX`, what the engine reports as the completion count of a
      zero-length repeating timer. */
  const U32Max: nat := 0xFFFF_FFFF

  datatype TimerMode = Once | Repeating

  datatype Timer = Timer(duration: nat, elapsed: nat, mode: TimerMode, finished: bool, timesFinishedThisTick: nat)

  /** `Timer::from_seconds(d, mode)`: nothing elapsed, not finished. */
  function NewTimer(duration: nat, mode: TimerMode): (t: Timer)
    ensures t.duration == duration && t.mode == mode
    ensures t.elapsed == 0 && !t.finished && t.timesFinishedThisTick == 0
  {
    Timer(duration, 0, mode, false, 0)
  }

  /** The states a timer can be in between ticks: elapsed never exceeds the
      duration, a repeating timer has always wrapped below it, and a finished
      one-shot timer sits at its duration. */
  predicate Valid(t: Timer)
  {
    t.elapsed <= t.duration &&
    (t.mode == Repeating && t.duration > 0 ==> t.elapsed < t.duration) &&
    (t.mode == Once && t.finished ==> t.elapsed == t.duration)
  }

  /** `Timer::tick(delta)`. */
  function Tick(t: Timer, delta: nat): Timer
  {
    if t.mode == Once && t.finished then
      t.(timesFinishedThisTick := 0)
    else
      var e := t.elapsed + delta;
      if e < t.duration then
        t.(elapsed := e, finished := false, timesFinishedThisTick := 0)
      else if t.mode == Once then
        t.(elapsed := t.duration, finished := true, timesFinishedThisTick := 1)
      else if t.duration == 0 then
        t.(elapsed := 0, finished := true, timesFinishedThisTick := U32Max)
      else
        t.(elapsed := e % t.duration, finished := true, timesFinishedThisTick := e / t.duration)
  }

  /** `Timer::just_finished`: the timer completed at least once in the last tick. */
  predicate JustFinished(t: Timer)
  {
    t.timesFinishedThisTick > 0
  }

  /** Ticking keeps a timer in a valid state and never changes its duration or mode. */
  lemma TickValid(t: Timer, delta: nat)
    requires Valid(t)
    ensures Valid(Tick(t, delta))
    ensures Tick(t, delta).duration == t.duration && Tick(t, delta).mode == t.mode
  {
  }

  /** A repeating timer loses no time: completions times duration plus what
      remains elapsed is exactly what had accumulated, and it just finished
      exactly when the accumulated time reached the duration. */
  lemma RepeatingTickConserves(t: Timer, delta: nat)
    requires t.mode == Repeating && t.duration > 0
    ensures var r := Tick(t, delta);
      r.timesFinishedThisTick * t.duration + r.elapsed == t.elapsed + delta &&
      r.elapsed < t.duration &&
      (JustFinished(r) <==> t.elapsed + delta >= t.duration) &&
      r.finished == JustFinished(r)
  {
  }

  /** A tick no longer than the period, on a wrapped repeating timer,
      completes it at most once. */
  lemma ShortTickFinishesAtMostOnce(t: Timer, delta: nat)
    requires t.mode == Repeating && t.elapsed < t.duration && delta <= t.duration
    ensures var r := Tick(t, delta);
      r.timesFinishedThisTick == (if t.elapsed + delta >= t.duration then 1 else 0) &&
      r.elapsed + r.timesFinishedThisTick * t.duration == t.elapsed + delta
  {
    var e := t.elapsed + delta;
    if e >= t.duration {
      DivModUnique(e, 1, e - t.duration, t.duration);
    }
  }

  /** A one-shot timer finishes at most once: once finished it stays finished
      and never reports a completion again; before that it finishes exactly
      when the accumulated time reaches its duration. */
  lemma OnceTickLatches(t: Timer, delta: nat)
    requires t.mode == Once && Valid(t)
    ensures var r := Tick(t, delta);
      (t.finished ==> r.finished && !JustFinished(r) && r.elapsed == t.elapsed) &&
      (!t.finished ==> (r.finished <==> t.elapsed + delta >= t.duration)) &&
      (JustFinished(r) <==> !t.finished && r.finished)
  {
  }

  /** Total of a sequence of tick lengths. */
  function Sum(deltas: seq<nat>): nat
  {
    if deltas == [] then 0 else Sum(deltas[..|deltas| - 1]) + deltas[|deltas| - 1]
  }

  /** The timer after ticking by each of `deltas` in turn. */
  function RunTicks(t: Timer, deltas: seq<nat>): Timer
  {
    if deltas == [] then t else Tick(RunTicks(t, deltas[..|deltas| - 1]), deltas[|deltas| - 1])
  }

  /** How many of those ticks reported `just_finished`. */
  function FinishedTicks(t: Timer, deltas: seq<nat>): nat
  {
    if deltas == [] then 0
    else
      var before := RunTicks(t, deltas[..|deltas| - 1]);
      FinishedTicks(t, deltas[..|deltas| - 1]) + (if JustFinished(Tick(before, deltas[|deltas| - 1])) then 1 else 0)
  }

  /** When no tick is longer than the period, a repeating timer reports
      `just_finished` exactly once per full period of accumulated time,
      whatever the tick lengths. */
  lemma {:induction false} FinishedTicksCountPeriods(t: Timer, deltas: seq<nat>)
    requires t.mode == Repeating && t.duration > 0 && t.elapsed < t.duration
    requires forall i :: 0 <= i < |deltas| ==> deltas[i] <= t.duration
    ensures RunTicks(t, deltas).duration == t.duration && RunTicks(t, deltas).mode == Repeating
    ensures RunTicks(t, deltas).elapsed < t.duration
    ensures FinishedTicks(t, deltas) * t.duration + RunTicks(t, deltas).elapsed == t.elapsed + Sum(deltas)
  {
    if deltas != [] {
      var init := deltas[..|deltas| - 1];
      var d := deltas[|deltas| - 1];
      forall i | 0 <= i < |init| ensures init[i] <= t.duration {
        assert init[i] == deltas[i];
      }
      FinishedTicksCountPeriods(t, init);
      var before := RunTicks(t, init);
      ShortTickFinishesAtMostOnce(before, d);
      var r := Tick(before, d);
      var k := FinishedTicks(t, init);
      assert RunTicks(t, deltas) == r;
      assert Sum(deltas) == Sum(init) + d;
      if JustFinished(r) {
        assert FinishedTicks(t, deltas) == k + 1;
        MulSucc(k, t.duration);
      } else {
        assert FinishedTicks(t, deltas) == k;
      }
    }
  }

  /** A tick longer than the period completes the repeating timer several
      times, but `just_finished` is a single yes/no for that tick. */
  lemma LongTickCompletesTwice()
    ensures var r := Tick(NewTimer(100, Repeating), 200);
      r.timesFinishedThisTick == 2 && JustFinished(r) && r.elapsed == 0
  {
  }
}
