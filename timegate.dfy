/** The time gate: `close_to_new_hour` and the choice of the next sleep in
    `process`. The wall clock (minute and second of `datetime.now()`) and the
    draw behind `randint` are parameters, so both are deterministic here. */
module TimeGate {
  import opened Wrappers

  /** `MIN_INTERVAL`. */
  const MinInterval := 10
  const SecondsPerHour := 3600
  /** Seconds slept past the hour mark in the boundary branch (`to_wait + 10`). */
  const BoundaryMargin := 10

  /** Seconds elapsed in the current hour. */
  function Elapsed(minute: int, second: int): int {
    60 * minute + second
  }

  /** `close_to_new_hour(threshold)`: `(True, w)` with `w` the seconds left to
      the next hour when that is at most `threshold`, `(False, -1)` otherwise. */
  function CloseToNewHour(minute: int, second: int, threshold: int): (r: (bool, int))
    requires 0 <= minute < 60 && 0 <= second < 60
    ensures r.0 <==> SecondsPerHour - Elapsed(minute, second) <= threshold
    ensures r.0 ==> 1 <= r.1 <= SecondsPerHour && Elapsed(minute, second) + r.1 == SecondsPerHour
    ensures !r.0 ==> r.1 == -1
  {
    var elapsed := Elapsed(minute, second);
    var timeToWait := if 0 > SecondsPerHour - elapsed then 0 else SecondsPerHour - elapsed;
    if timeToWait <= threshold then (true, timeToWait) else (false, -1)
  }

  /** `max(MIN_INTERVAL + 5, config['max_interval'])`. */
  function EffectiveMaxInterval(configured: int): (m: int)
    ensures m >= MinInterval + 5 && m >= configured
    ensures m == MinInterval + 5 || m == configured
  {
    if MinInterval + 5 > configured then MinInterval + 5 else configured
  }

  /** `randint(lo, hi)` as a function of a free draw. */
  function RandInt(lo: int, hi: int, draw: nat): (v: int)
    requires lo <= hi
    ensures lo <= v <= hi
  {
    lo + draw % (hi - lo + 1)
  }

  /** Every value of the range is drawn by some draw. */
  lemma RandIntCoversRange(lo: int, hi: int, v: int)
    requires lo <= v <= hi
    ensures RandInt(lo, hi, v - lo) == v
  {
    assert (v - lo) % (hi - lo + 1) == v - lo;
  }

  /** What `process` does before checking: how long it sleeps, and the new
      value of the global `interval` (None when the boundary branch leaves it
      alone). */
  datatype Delay = Delay(sleep: int, interval: Option<int>)

  /** A given interval counts only when it is truthy: `None` and `0` both
      select the random draw. */
  predicate IsGiven(given: Option<int>) {
    given.Some? && given.value != 0
  }

  /** The interval choice of `process`. */
  function NextDelay(configuredMax: int, minute: int, second: int, given: Option<int>, draw: nat): (d: Delay)
    requires 0 <= minute < 60 && 0 <= second < 60
    ensures var maxInterval := EffectiveMaxInterval(configuredMax);
      && (d.interval.None? <==> SecondsPerHour - Elapsed(minute, second) <= maxInterval)
      && (d.interval.None? ==> Elapsed(minute, second) + d.sleep == SecondsPerHour + BoundaryMargin)
      && (d.interval.Some? ==> d.sleep == d.interval.value)
      && (d.interval.Some? && IsGiven(given) ==> d.sleep == given.value)
      && (d.interval.Some? && !IsGiven(given) ==> MinInterval <= d.sleep <= maxInterval)
  {
    var maxInterval := EffectiveMaxInterval(configuredMax);
    var (waitNextHour, toWait) := CloseToNewHour(minute, second, maxInterval);
    if waitNextHour then Delay(toWait + BoundaryMargin, None)
    else
      var interval := if IsGiven(given) then given.value else RandInt(MinInterval, maxInterval, draw);
      Delay(interval, Some(interval))
  }

  /** A jittered poll ends before the next hour mark: near the mark the
      boundary branch is taken instead. */
  lemma JitteredPollStaysInHour(configuredMax: int, minute: int, second: int, given: Option<int>, draw: nat)
    requires 0 <= minute < 60 && 0 <= second < 60
    requires !IsGiven(given)
    ensures var d := NextDelay(configuredMax, minute, second, given, draw);
      d.interval.Some? ==> Elapsed(minute, second) + d.sleep < SecondsPerHour
  {
  }

  /** With a maximum of 30 s, at hh:59:45 the gate waits past the hour mark
      and leaves `interval` alone; at hh:10:00 it polls after 10..30 s. */
  lemma BoundaryExamples(given: Option<int>, draw: nat)
    requires !IsGiven(given)
    ensures NextDelay(30, 59, 45, given, draw) == Delay(25, None)
    ensures var d := NextDelay(30, 10, 0, given, draw);
      d.interval.Some? && 10 <= d.sleep <= 30
  {
  }
}
