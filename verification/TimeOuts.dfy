/**
Time-outs on a wrapping tick counter. Times are unbounded; the program sees only the tick
(time modulo m) and the number of wraps (time divided by m).
*/
module TimeOuts {
  import opened Sectors

  /** TimeOut_t: the wraps and the tick at the last look. */
  datatype TimeOut = TimeOut(overflowCount: nat, timeOnEntering: nat)

  /** vTaskInternalSetTimeOutState at a time. */
  function SetTimeOutState(time: nat, m: nat): TimeOut
    requires m > 0
  {
    TimeOut(time / m, time % m)
  }

  /** Subtraction on the tick type. */
  function Minus(a: nat, b: nat, m: nat): nat
    requires a < m && b < m
  {
    if a >= b then a - b else a + m - b
  }

  datatype Checked = Checked(expired: bool, ticksToWait: nat, timeOut: TimeOut)

  /** portMAX_DELAY, the wait that has no end. */
  function MaxDelay(m: nat): nat
    requires m > 0
  {
    m - 1
  }

  /** A wait that began at a time is over at another. */
  predicate Over(from: nat, to: nat, wait: nat, m: nat)
    requires m > 0 && from <= to
  {
    wait != MaxDelay(m) && to - from >= wait
  }

  /** xTaskCheckForTimeOut; the tick and the number of wraps are those of the moment. */
  function CheckForTimeOut(t: TimeOut, ticksToWait: nat, tick: nat, overflows: nat, m: nat): Checked
    requires tick < m && t.timeOnEntering < m
  {
    var elapsed := Minus(tick, t.timeOnEntering, m);
    if ticksToWait == MaxDelay(m) then Checked(false, ticksToWait, t)
    else if overflows != t.overflowCount && tick >= t.timeOnEntering then Checked(true, 0, t)
    else if elapsed < ticksToWait then Checked(false, ticksToWait - elapsed, TimeOut(overflows, tick))
    else Checked(true, 0, t)
  }

  /** Ticks and wraps of two times. */
  lemma Ticks(from: nat, to: nat, m: nat)
    requires m > 0 && from <= to
    ensures from % m < m && to % m < m && from / m <= to / m
    ensures to / m == from / m ==> to - from == to % m - from % m
    ensures to / m == from / m + 1 ==> to - from == to % m + m - from % m
    ensures to / m >= from / m + 2 ==> to - from >= to % m + 2 * m - from % m
  {
    var q, p, r, s := from / m, to / m, from % m, to % m;
    DivMod(from, m);
    DivMod(to, m);
    assert p >= q by {
      assert (p + 1) * m == p * m + m;
      assert p < q ==> (p + 1) * m <= q * m;
    }
    if p == q + 1 {
      assert (q + 1) * m == q * m + m;
    } else if p >= q + 2 {
      MulMono(q + 2, p, m);
      assert (q + 2) * m == q * m + 2 * m;
    }
  }

  /**
  The check is right unless the tick counter has wrapped twice and more since the last look
  and stands before the tick of that look, less than the wait behind it.
  */
  lemma CheckIsRightIff(from: nat, to: nat, wait: nat, m: nat)
    requires m > 0 && from <= to && wait < m
    ensures var c := CheckForTimeOut(SetTimeOutState(from, m), wait, to % m, to / m, m);
            (c.expired <==> Over(from, to, wait, m)) <==>
              || wait == MaxDelay(m)
              || !(to / m >= from / m + 2 && to % m < from % m && Minus(to % m, from % m, m) < wait)
  {
    Ticks(from, to, m);
  }

  /** With at most one wrap in between, a check that does not expire leaves the rest of the wait. */
  lemma CheckKeepsRest(from: nat, to: nat, wait: nat, m: nat)
    requires m > 0 && from <= to && wait < m && to / m <= from / m + 1
    ensures var c := CheckForTimeOut(SetTimeOutState(from, m), wait, to % m, to / m, m);
            && (c.expired <==> Over(from, to, wait, m))
            && (wait == MaxDelay(m) ==> c.ticksToWait == wait)
            && (!c.expired && wait < MaxDelay(m) ==> c.ticksToWait == wait - (to - from) && c.timeOut == SetTimeOutState(to, m))
  {
    Ticks(from, to, m);
  }

  /** Two wraps too many: 300 ticks have passed on an 8-bit counter, and a wait of 100 has not expired. */
  lemma CheckMissesTwoWraps()
    ensures var c := CheckForTimeOut(SetTimeOutState(250, 256), 100, 550 % 256, 550 / 256, 256);
            !c.expired && Over(250, 550, 100, 256)
  {}

  /** A task that looks at the given times, one after the other, until its wait expires. */
  function Looks(t: TimeOut, wait: nat, times: seq<nat>, m: nat): Checked
    requires m > 0 && t.timeOnEntering < m
    decreases |times|
  {
    if times == [] then Checked(false, wait, t)
    else
      var c := CheckForTimeOut(t, wait, times[0] % m, times[0] / m, m);
      if c.expired then c else Looks(c.timeOut, c.ticksToWait, times[1..], m)
  }

  /** Times in order, with at most one wrap from one to the next. */
  ghost predicate InOrder(start: nat, times: seq<nat>, m: nat)
    requires m > 0
    decreases |times|
  {
    times == [] || (start <= times[0] && times[0] / m <= start / m + 1 && InOrder(times[0], times[1..], m))
  }

  /** Over any number of looks: what remains and what has passed add up to the wait, until it is over. */
  lemma {:induction false} LooksAddUp(start: nat, wait: nat, times: seq<nat>, m: nat)
    requires m > 0 && wait < MaxDelay(m) && InOrder(start, times, m)
    ensures times != [] ==> start <= times[|times| - 1]
    ensures var c := Looks(SetTimeOutState(start, m), wait, times, m);
            && (c.expired <==> times != [] && Over(start, times[|times| - 1], wait, m))
            && (!c.expired && times != [] ==> c.ticksToWait + (times[|times| - 1] - start) == wait)
    decreases |times|
  {
    Increasing(start, times, m);
    if times != [] {
      var now := times[0];
      CheckKeepsRest(start, now, wait, m);
      Increasing(now, times[1..], m);
      if now - start < wait {
        LooksAddUp(now, wait - (now - start), times[1..], m);
      }
    }
  }

  /** The wait that has no end stays so, whatever the counter does between the looks. */
  lemma {:induction false} LooksForever(t: TimeOut, times: seq<nat>, m: nat)
    requires m > 0 && t.timeOnEntering < m
    ensures Looks(t, MaxDelay(m), times, m) == Checked(false, MaxDelay(m), t)
    decreases |times|
  {
    if times != [] {
      LooksForever(t, times[1..], m);
    }
  }

  lemma {:induction false} Increasing(start: nat, times: seq<nat>, m: nat)
    requires m > 0 && InOrder(start, times, m)
    ensures times != [] ==> start <= times[|times| - 1]
    decreases |times|
  {
    if times != [] {
      Increasing(times[0], times[1..], m);
    }
  }

  // ---- xTaskDelayUntil -------------------------------------------------------------------

  datatype Until = Until(delays: bool, wake: nat, ticks: nat)

  /** Addition on the tick type. */
  function Plus(a: nat, b: nat, m: nat): nat
    requires a < m && b < m
  {
    if a + b < m then a + b else a + b - m
  }

  /** xTaskDelayUntil: whether to delay, the wake time for the next call, and for how many ticks. */
  function DelayUntil(previous: nat, increment: nat, tick: nat, m: nat): Until
    requires previous < m && increment < m && tick < m
  {
    var wake := Plus(previous, increment, m);
    var delays := if tick < previous then wake < previous && wake > tick else wake < previous || wake > tick;
    Until(delays, wake, Minus(wake, tick, m))
  }

  lemma TickOfSum(a: nat, b: nat, m: nat)
    requires m > 0 && b < m
    ensures a % m < m && (a + b) % m == Plus(a % m, b, m)
  {
    DivMod(a, m);
    var q, r := a / m, a % m;
    if r + b < m {
      WithinUnit(q, m, r + b);
    } else {
      assert (q + 1) * m == q * m + m;
      WithinUnit(q + 1, m, r + b - m);
    }
  }

  /** The task is delayed exactly when its next wake time lies ahead, and then up to that time. */
  lemma DelayUntilIsRight(previous: nat, increment: nat, now: nat, m: nat)
    requires m > 0 && 0 < increment < m && previous <= now < previous + m
    ensures previous % m < m && now % m < m
    ensures var u := DelayUntil(previous % m, increment, now % m, m);
            && (u.delays <==> now < previous + increment)
            && u.wake == (previous + increment) % m
            && (u.delays ==> u.ticks == previous + increment - now)
  {
    Ticks(previous, now, m);
    TickOfSum(previous, increment, m);
    TickOfSum(previous, now - previous, m);
  }

  /** The wake time variable after a number of calls. */
  function WakeAfter(start: nat, increment: nat, calls: nat, m: nat): nat
    requires start < m && increment < m
    ensures WakeAfter(start, increment, calls, m) < m
  {
    if calls == 0 then start else Plus(WakeAfter(start, increment, calls - 1, m), increment, m)
  }

  /** Whatever the task does in between, its n-th wake time is n increments after the start. */
  lemma {:induction false} NthWake(start: nat, increment: nat, n: nat, m: nat)
    requires m > 0 && 0 < increment < m
    ensures start % m < m
    ensures WakeAfter(start % m, increment, n, m) == (start + n * increment) % m
  {
    TickOfSum(start, 0, m);
    if n > 0 {
      NthWake(start, increment, n - 1, m);
      TickOfSum(start + (n - 1) * increment, increment, m);
      assert (n - 1) * increment + increment == n * increment;
    }
  }

  /** What the program sees of a time late by whole rounds is the same time less the rounds. */
  lemma LessRounds(previous: nat, now: nat, m: nat)
    requires m > 0 && previous <= now
    ensures var n := previous + (now - previous) % m; previous <= n < previous + m && n % m == now % m
  {
    var q, r := (now - previous) / m, (now - previous) % m;
    DivMod(now - previous, m);
    var n := previous + r;
    var a, b := n / m, n % m;
    DivMod(n, m);
    assert (a + q) * m == a * m + q * m;
    WithinUnit(a + q, m, b);
  }

  /**
  However late the task is: the decision is right if and only if it is late by less than a
  round of the counter, or by that much more than whole rounds that the increment has passed.
  */
  lemma DelayUntilIsRightIff(previous: nat, increment: nat, now: nat, m: nat)
    requires m > 0 && 0 < increment < m && previous <= now
    ensures previous % m < m && now % m < m
    ensures var u := DelayUntil(previous % m, increment, now % m, m);
            (u.delays <==> now < previous + increment) <==> now - previous < m || (now - previous) % m >= increment
  {
    LessRounds(previous, now, m);
    DelayUntilIsRight(previous, increment, previous + (now - previous) % m, m);
    if now - previous < m {
      WithinUnit(0, m, now - previous);
    }
  }

  /** Late by a round of an 8-bit counter: a wake time long past is taken for one 10 ticks ahead. */
  lemma DelayUntilMissesRound()
    ensures var u := DelayUntil(0, 10, 256 % 256, 256); u.delays && u.ticks == 10 && 256 >= 0 + 10
  {}

  /** A call of xTaskDelayUntil at the time now, from which the task comes back at the time resumed. */
  datatype Call = Call(now: nat, resumed: nat)

  function Wake(start: nat, increment: nat, n: nat): nat { start + n * increment }

  /** A task that calls xTaskDelayUntil again and again, never late by a whole round. */
  ghost predicate Periodic(start: nat, increment: nat, m: nat, calls: seq<Call>)
    requires m > 0 && 0 < increment < m
  {
    forall i :: 0 <= i < |calls| ==>
      && (if i == 0 then start else calls[i - 1].resumed) <= calls[i].now < Wake(start, increment, i) + m
      && calls[i].resumed == Resumed(WakeAfter(start % m, increment, i, m), increment, calls[i].now, m)
  }

  /** When a call returns: after the delay it asks for, or at once. */
  function Resumed(previous: nat, increment: nat, now: nat, m: nat): nat
    requires m > 0 && previous < m && increment < m
  {
    var u := DelayUntil(previous, increment, now % m, m);
    if u.delays then now + u.ticks else now
  }

  /** Call number i comes back at wake time number i+1, or at once if that has passed. */
  lemma {:induction false} PeriodicWakes(start: nat, increment: nat, m: nat, calls: seq<Call>, i: nat)
    requires m > 0 && 0 < increment < m && Periodic(start, increment, m, calls) && i < |calls|
    ensures Wake(start, increment, i) <= calls[i].now
    ensures calls[i].resumed == if calls[i].now < Wake(start, increment, i + 1) then Wake(start, increment, i + 1) else calls[i].now
    decreases i
  {
    hide DelayUntil, Wake, Resumed, WakeAfter;
    var c := calls[i];
    NextWake(start, increment, i);
    if i > 0 {
      PeriodicWakes(start, increment, m, calls, i - 1);
      assert Wake(start, increment, i) <= calls[i - 1].resumed <= c.now;
    } else {
      assert Wake(start, increment, 0) <= c.now;
    }
    OneCall(start, increment, m, i, c.now);
  }

  lemma OneCall(start: nat, increment: nat, m: nat, i: nat, now: nat)
    requires m > 0 && 0 < increment < m && Wake(start, increment, i) <= now < Wake(start, increment, i) + m
    ensures Resumed(WakeAfter(start % m, increment, i, m), increment, now, m) ==
              if now < Wake(start, increment, i + 1) then Wake(start, increment, i + 1) else now
  {
    hide DelayUntil, WakeAfter;
    NextWake(start, increment, i);
    NthWake(start, increment, i, m);
    DelayUntilIsRight(start + i * increment, increment, now, m);
  }

  lemma NextWake(start: nat, increment: nat, n: nat)
    ensures Wake(start, increment, n + 1) == Wake(start, increment, n) + increment && Wake(start, increment, 0) == start
  {
    assert (n + 1) * increment == n * increment + increment;
  }
}
