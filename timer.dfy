/** The countdown of an attempt (TestTaking.tsx, the two timer effects):
    the remaining seconds are derived from the start time and the duration,
    and a one-second tick counts down and triggers submission at zero. */
module Timer {

  /** `max(0, start + duration * 60000 - now)` in milliseconds. */
  function RemainingMillis(startMs: int, durationMinutes: int, nowMs: int): (ms: nat)
    ensures ms == 0 <==> nowMs >= startMs + durationMinutes * 60000
    ensures ms > 0 ==> ms == startMs + durationMinutes * 60000 - nowMs
  {
    var left := startMs + durationMinutes * 60000 - nowMs;
    if left < 0 then 0 else left
  }

  /** `Math.floor(remaining / 1000)`: whole seconds left. */
  function InitialRemaining(startMs: int, durationMinutes: int, nowMs: int): (r: nat)
    ensures r * 1000 <= RemainingMillis(startMs, durationMinutes, nowMs) < (r + 1) * 1000
    ensures r == 0 <==> nowMs > startMs + durationMinutes * 60000 - 1000
    ensures durationMinutes >= 0 && nowMs >= startMs ==> r <= durationMinutes * 60
  {
    RemainingMillis(startMs, durationMinutes, nowMs) / 1000
  }

  /** The remaining time never grows as the clock advances. */
  lemma RemainingNonIncreasing(startMs: int, durationMinutes: int, now1: int, now2: int)
    requires now1 <= now2
    ensures InitialRemaining(startMs, durationMinutes, now2) <= InitialRemaining(startMs, durationMinutes, now1)
  {
    var m1 := RemainingMillis(startMs, durationMinutes, now1);
    var m2 := RemainingMillis(startMs, durationMinutes, now2);
    assert m2 <= m1;
  }

  /** The initialisation effect: the clock is set only while the attempt is
      not completed; otherwise the displayed value is left as it was. */
  function TimerAfterLoad(current: nat, completed: bool, startMs: int, durationMinutes: int, nowMs: int): (r: nat)
    ensures completed ==> r == current
    ensures !completed ==> r == InitialRemaining(startMs, durationMinutes, nowMs)
  {
    if completed then current else InitialRemaining(startMs, durationMinutes, nowMs)
  }

  /** What one tick does: the new remaining seconds, and whether it fired
      the submission. */
  datatype Tick = Tick(remaining: nat, fireSubmit: bool)

  /** The interval callback, installed only while time is left and the
      attempt is open: at one second or less it sets 0 and submits, else it
      counts down by one. */
  function TickOnce(remaining: nat, completed: bool): (t: Tick)
    ensures completed || remaining == 0 ==> t == Tick(remaining, false)
    ensures !completed && remaining > 1 ==> t == Tick(remaining - 1, false)
    ensures !completed && remaining == 1 ==> t == Tick(0, true)
    ensures t.remaining <= remaining
  {
    if remaining > 0 && !completed then
      if remaining <= 1 then Tick(0, true) else Tick(remaining - 1, false)
    else Tick(remaining, false)
  }

  /** The state after `k` ticks: the remaining seconds and how many times the
      submission was fired. */
  function RunTicks(remaining: nat, completed: bool, k: nat): (nat, nat)
  {
    if k == 0 then (remaining, 0)
    else
      var t := TickOnce(remaining, completed);
      var rest := RunTicks(t.remaining, completed, k - 1);
      (rest.0, rest.1 + if t.fireSubmit then 1 else 0)
  }

  /** Expiry fires the submission exactly once: after `k` ticks from `r`
      seconds the clock shows `r - k` with nothing fired while `k < r`, and
      from the `r`-th tick on it shows 0 with exactly one submission. */
  lemma {:induction false} ExpiryFiresOnce(r: nat, k: nat)
    requires r > 0
    ensures RunTicks(r, false, k) == if k < r then (r - k, 0) else (0, 1)
  {
    if k > 0 {
      if r == 1 {
        StoppedClockStaysStopped(0, false, k - 1);
      } else {
        ExpiryFiresOnce(r - 1, k - 1);
      }
    }
  }

  /** A clock at zero, or a completed attempt, never ticks. */
  lemma {:induction false} StoppedClockStaysStopped(r: nat, completed: bool, k: nat)
    requires r == 0 || completed
    ensures RunTicks(r, completed, k) == (r, 0)
  {
    if k > 0 {
      StoppedClockStaysStopped(r, completed, k - 1);
    }
  }

  /** An open attempt loaded in its last second, or after its end, shows 0
      and never ticks, so the countdown never submits it. */
  lemma ExpiredOnLoadNeverSubmits(current: nat, startMs: int, durationMinutes: int, nowMs: int, k: nat)
    requires nowMs > startMs + durationMinutes * 60000 - 1000
    ensures TimerAfterLoad(current, false, startMs, durationMinutes, nowMs) == 0
    ensures RunTicks(TimerAfterLoad(current, false, startMs, durationMinutes, nowMs), false, k) == (0, 0)
  {
    StoppedClockStaysStopped(0, false, k);
  }

  /** The ten-minute scenario of the design: 600 seconds left, submission
      fires on the 600th tick and never again. */
  lemma TenMinuteExpiry(k: nat)
    requires k >= 600
    ensures InitialRemaining(0, 10, 0) == 600
    ensures RunTicks(600, false, 599) == (1, 0)
    ensures RunTicks(600, false, k) == (0, 1)
  {
    ExpiryFiresOnce(600, 599);
    ExpiryFiresOnce(600, k);
  }
}
