/** The session countdown: `clamp`, `Math.round` on whole numbers, and the
    timer sub-state with `setTimerMinutes`, `startTimer`, `tick`,
    `pauseTimer` and `resetTimer`. The monotonic clock
    (`performance.now()`) is an integer number of milliseconds passed in
    by the caller. */
module Timing {
  import opened Wrappers

  const MIN_MINUTES := 5
  const MAX_MINUTES := 180
  /** The timer length the app starts with, twenty minutes. */
  const DEFAULT_SEC := 20 * 60

  /** `clamp(n, a, b)`, i.e. `Math.max(a, Math.min(b, n))`: the point of
      `[lo, hi]` nearest to `n` (and `lo` when the interval is empty). */
  function Clamp(n: int, lo: int, hi: int): (r: int)
    ensures lo <= hi ==> lo <= r <= hi
    ensures lo <= n <= hi ==> r == n
    ensures n < lo ==> r == lo
    ensures lo <= hi < n ==> r == hi
    ensures hi < lo ==> r == lo
  {
    var m := if n < hi then n else hi;
    if lo > m then lo else m
  }

  /** `Math.round(n / d)` for whole `n` and positive `d`: the integer
      nearest to `n / d`, halves rounded up. */
  function RoundDiv(n: int, d: int): (r: int)
    requires d > 0
    ensures 2 * d * r - d <= 2 * n < 2 * d * r + d
  {
    var q := (2 * n + d) / (2 * d);
    assert 2 * n + d == (2 * d) * q + (2 * n + d) % (2 * d);
    q
  }

  lemma MulSign(d: int, y: int)
    requires d > 0
    ensures d * y <= 0 ==> y <= 0
    ensures d * y > 0 ==> y > 0
  {
  }

  /** Rounding a whole multiple gives the multiplier back. */
  lemma RoundDivExact(k: int, d: int)
    requires d > 0
    ensures RoundDiv(k * d, d) == k
  {
    var r := RoundDiv(k * d, d);
    assert d * (2 * r - 2 * k - 1) == 2 * d * r - d - 2 * (k * d);
    assert d * (2 * r - 2 * k + 1) == 2 * d * r + d - 2 * (k * d);
    MulSign(d, 2 * r - 2 * k - 1);
    MulSign(d, 2 * r - 2 * k + 1);
  }

  /** A timer length the app can hold: whole minutes between 5 and 180. */
  predicate ValidTotal(totalSec: int)
  {
    MIN_MINUTES * 60 <= totalSec <= MAX_MINUTES * 60 && totalSec % 60 == 0
  }

  /** `clamp(m, 5, 180) * 60`, the seconds `setTimerMinutes`, `load` and
      the import configure for `m` minutes. */
  function ClampedSeconds(m: int): (sec: int)
    ensures ValidTotal(sec)
    ensures MIN_MINUTES <= m <= MAX_MINUTES ==> sec == m * 60
  {
    Clamp(m, MIN_MINUTES, MAX_MINUTES) * 60
  }

  /** `Math.round(totalSec / 60)`: the minutes saved and logged. */
  function MinutesOf(totalSec: int): int
  {
    RoundDiv(totalSec, 60)
  }

  /** For a valid timer length, rounding to minutes loses nothing and stays
      in the configurable range. */
  lemma MinutesOfValid(totalSec: int)
    requires ValidTotal(totalSec)
    ensures MinutesOf(totalSec) * 60 == totalSec
    ensures MIN_MINUTES <= MinutesOf(totalSec) <= MAX_MINUTES
  {
    RoundDivExact(totalSec / 60, 60);
    assert totalSec / 60 * 60 == totalSec;
  }

  /** The seconds left that `tick` computes:
      `Math.max(0, Math.round(totalSec - (now - startedAt) / 1000))`. */
  function TickLeft(totalSec: int, startedAt: int, now: int): (r: int)
    ensures r >= 0
    ensures startedAt <= now && totalSec >= 0 ==> r <= totalSec
  {
    var left := RoundDiv(1000 * totalSec - (now - startedAt), 1000);
    if left < 0 then 0 else left
  }

  /** `performance.now() - (totalSec - leftSec) * 1000`: the start instant
      `startTimer` records so that the elapsed time already spent counts. */
  function StartedAtFor(now: int, totalSec: int, leftSec: int): int
  {
    now - (totalSec - leftSec) * 1000
  }

  /** Resuming is exact: a tick at the very instant of a (re)start gives
      back the seconds that were left. */
  lemma ResumeExact(totalSec: int, leftSec: int, now: int)
    requires 0 <= leftSec
    ensures TickLeft(totalSec, StartedAtFor(now, totalSec, leftSec), now) == leftSec
  {
    assert 1000 * totalSec - (now - StartedAtFor(now, totalSec, leftSec)) == leftSec * 1000;
    RoundDivExact(leftSec, 1000);
  }

  /** The seconds left fall by exactly the elapsed whole seconds: ticking
      `k` seconds after a (re)start with `left >= k` seconds left shows
      `left - k`. */
  lemma TickAfterWholeSeconds(totalSec: int, leftSec: int, start: int, k: int)
    requires 0 <= k <= leftSec
    ensures TickLeft(totalSec, StartedAtFor(start, totalSec, leftSec), start + 1000 * k) == leftSec - k
  {
    assert 1000 * totalSec - (start + 1000 * k - StartedAtFor(start, totalSec, leftSec)) == (leftSec - k) * 1000;
    RoundDivExact(leftSec - k, 1000);
  }

  /** The timer sub-state `state.timer` (its animation-frame handle is not
      modelled). */
  class Timer {
    var totalSec: int
    var leftSec: int
    var running: bool
    /** Clock reading (ms) from which a run is measured; `null` when idle. */
    var startedAt: Option<int>
    /** The latest clock reading the timer has taken; `performance.now()`
        starts at 0 and never goes back. */
    ghost var clock: int

    ghost predicate Valid()
      reads this
    {
      ValidTotal(totalSec) && 0 <= leftSec <= totalSec && 0 <= clock
      && (running ==> startedAt.Some? && startedAt.value <= clock)
    }

    /** The timer of a freshly opened page: twenty minutes, idle. */
    constructor ()
      ensures Valid()
      ensures totalSec == DEFAULT_SEC && leftSec == DEFAULT_SEC
      ensures !running && startedAt == None && clock == 0
    {
      totalSec, leftSec := DEFAULT_SEC, DEFAULT_SEC;
      running, startedAt := false, None;
      clock := 0;
    }

    /** `setTimerMinutes(min)`: a hard reset to the clamped length. */
    method SetMinutes(min: int)
      requires Valid()
      modifies this
      ensures Valid()
      ensures totalSec == ClampedSeconds(min) && leftSec == totalSec
      ensures !running && startedAt == None && clock == old(clock)
    {
      var sec := Clamp(min, MIN_MINUTES, MAX_MINUTES) * 60;
      totalSec := sec;
      leftSec := sec;
      running := false;
      startedAt := None;
    }

    /** `startTimer()` at clock reading `now`. */
    method Start(now: int)
      requires Valid() && clock <= now
      modifies this
      ensures Valid()
      ensures totalSec == old(totalSec) && leftSec == old(leftSec) && running
      ensures old(running) ==> startedAt == old(startedAt) && clock == old(clock)
      ensures !old(running) ==> startedAt == Some(StartedAtFor(now, totalSec, leftSec)) && clock == now
    {
      if running {
        return;
      }
      running := true;
      startedAt := Some(now - (totalSec - leftSec) * 1000);
      clock := now;
    }

    /** `tick()` at clock reading `now`; `expired` is the moment the source
        plays its completion sound. */
    method Tick(now: int) returns (expired: bool)
      requires Valid() && clock <= now
      modifies this
      ensures Valid()
      ensures totalSec == old(totalSec)
      ensures !old(running) ==>
        !expired && !running && leftSec == old(leftSec) && startedAt == old(startedAt) && clock == old(clock)
      ensures old(running) ==>
        leftSec == TickLeft(totalSec, old(startedAt).value, now) && clock == now
        && expired == (leftSec == 0) && running == !expired
        && startedAt == if expired then None else old(startedAt)
    {
      expired := false;
      if !running {
        return;
      }
      clock := now;
      var elapsedMs := now - startedAt.value;
      var left := RoundDiv(1000 * totalSec - elapsedMs, 1000);
      if left < 0 {
        left := 0;
      }
      leftSec := left;
      if left <= 0 {
        running := false;
        startedAt := None;
        expired := true;
      }
    }

    /** The timer update of `load` and of the import: a new length with all
        of it left, while a run in progress goes on running. */
    method Adopt(sec: int)
      requires Valid() && ValidTotal(sec)
      modifies this
      ensures Valid()
      ensures totalSec == sec && leftSec == sec
      ensures running == old(running) && startedAt == old(startedAt) && clock == old(clock)
    {
      totalSec := sec;
      leftSec := sec;
    }

    /** `pauseTimer()`: stops the run and freezes the seconds left. */
    method Pause()
      requires Valid()
      modifies this
      ensures Valid()
      ensures !running
      ensures totalSec == old(totalSec) && leftSec == old(leftSec)
      ensures startedAt == old(startedAt) && clock == old(clock)
    {
      if !running {
        return;
      }
      running := false;
    }

    /** `resetTimer()`: back to idle with the full length left. */
    method Reset()
      requires Valid()
      modifies this
      ensures Valid()
      ensures totalSec == old(totalSec) && leftSec == totalSec
      ensures !running && startedAt == None && clock == old(clock)
    {
      running := false;
      leftSec := totalSec;
      startedAt := None;
    }
  }

  /** A ten-minute session paused after 30 s shows 570 s; resumed later and
      paused after 10 more seconds it shows 560 s: no drift from the pause. */
  method PauseResumeScenario() returns (firstPause: int, secondPause: int)
    ensures firstPause == 570 && secondPause == 560
  {
    var t := new Timer();
    t.SetMinutes(10);
    t.Start(1000);
    TickAfterWholeSeconds(600, 600, 1000, 30);
    var done := t.Tick(31000);
    t.Pause();
    assert !done;
    firstPause := t.leftSec;
    t.Start(90000);
    TickAfterWholeSeconds(600, 570, 90000, 10);
    done := t.Tick(100000);
    t.Pause();
    assert !done;
    secondPause := t.leftSec;
  }

  /** A twenty-minute run ticked 1199.6 s in rounds to 0 seconds left and
      stops. */
  method ExpiryScenario() returns (left: int, expired: bool, running: bool)
    ensures left == 0 && expired && !running
  {
    var t := new Timer();
    t.Start(0);
    assert t.startedAt == Some(0);
    assert TickLeft(1200, 0, 1199600) == 0;
    expired := t.Tick(1199600);
    left, running := t.leftSec, t.running;
  }
}
