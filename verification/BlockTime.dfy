/** Block times measured against the wrapping tick counter: xTaskCheckForTimeOut and
    xTaskDelayUntil of FreeRTOS/Source/tasks.c. */
module BlockTime {
  import opened Ticks

  /** What the kernel shows at real time `now`: xTickCount, and xNumOfOverflows, of which only
      equality matters, as its 64-bit pattern. */
  function TickCount(now: int): Tick { Residue(now) }

  function NumOfOverflows(now: int): Tick { Residue(Epoch(now)) }

  function Wraps(earlier: int, later: int): int { Epoch(later) - Epoch(earlier) }

  /** TimeOut_t and the ticks its owner still has to wait.  `entered` is the real time of the last
      vTaskSetTimeOutState. */
  class TimeOut {
    var overflowCount: Tick
    var timeOnEntering: Tick
    var ticksToWait: Tick
    ghost var entered: int

    ghost predicate Valid()
      reads this
    {
      overflowCount == NumOfOverflows(entered) && timeOnEntering == TickCount(entered)
    }

    /** vTaskSetTimeOutState at real time `now`, with the wait its caller asks for. */
    constructor (now: int, wait: Tick)
      ensures Valid() && entered == now && ticksToWait == wait
    {
      overflowCount, timeOnEntering, ticksToWait, entered := NumOfOverflows(now), TickCount(now), wait, now;
    }

    /** xTaskCheckForTimeOut at real time `now`.  A caller that is told to go on waiting never asks
        to block for no time at all. */
    method CheckForTimeOut(now: int) returns (expired: bool)
      requires Valid() && entered <= now
      modifies this
      ensures Valid()
      ensures expired == Check(old(Wait(entered, ticksToWait)), now).1
      ensures Wait(entered, ticksToWait) == Check(old(Wait(entered, ticksToWait)), now).0
      ensures old(ticksToWait) < MAX_DELAY && Wraps(old(entered), now) <= 1 ==>
                && (expired <==> old(entered) + old(ticksToWait) <= now)
                && (!expired ==> entered == now && now + ticksToWait == old(entered) + old(ticksToWait))
      ensures !expired ==> ticksToWait > 0
    {
      if ticksToWait < MAX_DELAY && Wraps(entered, now) <= 1 { OneWrap(Wait(entered, ticksToWait), now); }
      var tickCount, numOfOverflows := TickCount(now), NumOfOverflows(now);
      var elapsedTime := Sub(tickCount, timeOnEntering);
      if ticksToWait == MAX_DELAY {
        expired := false;
      } else if numOfOverflows != overflowCount && tickCount >= timeOnEntering {
        expired := true;
        ticksToWait := 0;
      } else if elapsedTime < ticksToWait {
        ticksToWait := ticksToWait - elapsedTime;
        overflowCount, timeOnEntering, entered := numOfOverflows, tickCount, now;
        expired := false;
      } else {
        ticksToWait := 0;
        expired := true;
      }
    }
  }

  datatype Wait = Wait(entered: int, left: int)

  /** The new wait, and whether it is over. */
  function Check(w: Wait, now: int): (Wait, bool) {
    if w.left == MAX_DELAY then (w, false)
    else if NumOfOverflows(now) != NumOfOverflows(w.entered) && TickCount(now) >= TickCount(w.entered)
    then (w.(left := 0), true)
    else if Sub(TickCount(now), TickCount(w.entered)) < w.left
    then (Wait(now, w.left - Sub(TickCount(now), TickCount(w.entered))), false)
    else (w.(left := 0), true)
  }

  /** A finite wait is reported over exactly when its real deadline has come, unless the counter
      has wrapped at least twice since the last call and its new value hides that: it is below the
      old one, or the overflow count itself has come round, and the residues are close together. */
  lemma ExactUnlessHidden(w: Wait, now: int)
    requires w.entered <= now && 0 <= w.left < MAX_DELAY
    ensures (Check(w, now).1 <==> w.entered + w.left <= now)
            <==> !(&& Wraps(w.entered, now) >= 2
                   && Sub(TickCount(now), TickCount(w.entered)) < w.left
                   && (TickCount(now) < TickCount(w.entered) || NumOfOverflows(now) == NumOfOverflows(w.entered)))
  {
    var wraps := Wraps(w.entered, now);
    if wraps <= 1 {
      OneWrap(w, now);
    } else {
      assert w.entered + w.left <= now;
    }
  }

  /** A wait of ten ticks that begins in the last tick of an epoch and is next looked at three wraps
      and five ticks later: it is not reported over. */
  lemma HiddenByThreeWraps()
    ensures var w, now := Wait(MAX_DELAY, 10), 3 * 0x1_0000_0000_0000_0000 + 5;
            w.entered + w.left <= now && Wraps(w.entered, now) == 3 && !Check(w, now).1
  {}

  /** With at most one wrap since the last call the report is right, and the deadline is kept when
      the wait and the entry time are rewritten. */
  lemma OneWrap(w: Wait, now: int)
    requires w.entered <= now && 0 <= w.left < MAX_DELAY && Wraps(w.entered, now) <= 1
    ensures Check(w, now).1 <==> w.entered + w.left <= now
    ensures !Check(w, now).1 ==>
              && Check(w, now).0.entered == now && 0 <= Check(w, now).0.left < MAX_DELAY
              && now + Check(w, now).0.left == w.entered + w.left
  {
    EpochsApart(w.entered, now);
    if Wraps(w.entered, now) == 1 && TickCount(now) >= TickCount(w.entered) {
      NextEpochDiffers(w.entered);
    } else {
      SubIsReal(now, w.entered);
    }
  }

  lemma EpochsApart(earlier: int, later: int)
    requires earlier <= later && Wraps(earlier, later) <= 1
    ensures Wraps(earlier, later) == 0 ==>
              later < earlier + 0x1_0000_0000_0000_0000 && Residue(later) - Residue(earlier) == later - earlier
              && NumOfOverflows(later) == NumOfOverflows(earlier)
    ensures Wraps(earlier, later) == 1 ==>
              later - earlier == Residue(later) - Residue(earlier) + 0x1_0000_0000_0000_0000
  {}

  lemma NextEpochDiffers(time: int)
    ensures Residue(Epoch(time) + 1) != Residue(Epoch(time))
  {}

  /** The reports of a series of calls, as long as none is positive. */
  function Reports(w: Wait, times: seq<int>): seq<bool>
    decreases |times|
  {
    if times == [] then []
    else [Check(w, times[0]).1] + Reports(Check(w, times[0]).0, times[1..])
  }

  ghost predicate NeverTwoWraps(start: int, times: seq<int>) {
    && (times != [] ==> start <= times[0] && Wraps(start, times[0]) <= 1)
    && (forall i | 0 < i < |times| :: times[i - 1] <= times[i] && Wraps(times[i - 1], times[i]) <= 1)
  }

  /** Over any series of calls with at most one wrap between two of them, however often the wait
      and the entry time are rewritten, time-out is reported at the first call whose total elapsed
      time is at least the original wait, and at none before it. */
  lemma {:induction false} ExpiresAtTheDeadline(w: Wait, times: seq<int>, i: nat)
    requires 0 <= w.left < MAX_DELAY && NeverTwoWraps(w.entered, times) && i < |times|
    requires forall j | 0 <= j < i :: times[j] < w.entered + w.left
    ensures |Reports(w, times)| == |times|
    ensures forall j | 0 <= j <= i :: Reports(w, times)[j] <==> times[j] - w.entered >= w.left
    decreases i
  {
    OneWrap(w, times[0]);
    ReportsLength(w, times);
    if i > 0 {
      var rest, next := times[1..], Check(w, times[0]).0;
      assert forall j | 0 <= j < |rest| :: rest[j] == times[j + 1];
      ExpiresAtTheDeadline(next, rest, i - 1);
      forall j | 1 <= j <= i ensures Reports(w, times)[j] <==> times[j] - w.entered >= w.left {
        assert Reports(w, times)[j] == Reports(next, rest)[j - 1] && rest[j - 1] == times[j];
      }
    }
  }

  lemma {:induction false} ReportsLength(w: Wait, times: seq<int>)
    ensures |Reports(w, times)| == |times|
    decreases |times|
  {
    if times != [] {
      ReportsLength(Check(w, times[0]).0, times[1..]);
    }
  }

  /** A wait of portMAX_DELAY is never over. */
  lemma {:induction false} ForeverNeverExpires(w: Wait, times: seq<int>)
    requires w.left == MAX_DELAY
    ensures forall j | 0 <= j < |Reports(w, times)| :: !Reports(w, times)[j]
  {
    if times != [] {
      ForeverNeverExpires(w, times[1..]);
    }
  }

  // ---------- Periodic delays ----------

  /** xTaskDelayUntil at real time `now`, the last wake time being `woke` in real time: the task
      blocks exactly when its next wake time is still to come, and for exactly the time left. */
  method DelayUntil(previousWakeTime: Tick, timeIncrement: Tick, ghost woke: int, now: int)
    returns (newPrevious: Tick, shouldDelay: bool, ticks: Tick)
    requires timeIncrement > 0 && previousWakeTime == Residue(woke)
    requires woke <= now < woke + 0x1_0000_0000_0000_0000
    ensures newPrevious == Residue(woke + timeIncrement)
    ensures shouldDelay <==> now < woke + timeIncrement
    ensures shouldDelay ==> ticks > 0 && now + ticks == woke + timeIncrement
  {
    AddIsReal(woke, timeIncrement);
    SubIsReal(now, woke);
    var tickCount := TickCount(now);
    var timeToWake := Add(previousWakeTime, timeIncrement);
    shouldDelay := false;
    if tickCount < previousWakeTime {
      if timeToWake < previousWakeTime && timeToWake > tickCount {
        shouldDelay := true;
      }
    } else {
      if timeToWake < previousWakeTime || timeToWake > tickCount {
        shouldDelay := true;
      }
    }
    newPrevious := timeToWake;
    ticks := 0;
    if shouldDelay {
      ticks := Sub(timeToWake, tickCount);
      if now < woke + timeIncrement { SubIsReal(woke + timeIncrement, now); }
    }
  }

  /** When a call made at `now` returns, if the task is woken on time. */
  function Resumes(woke: int, increment: int, now: int): int {
    if now < woke + increment then woke + increment else now
  }

  function Due(start: int, increment: int, n: nat): int
    decreases n
  {
    if n == 0 then start else Due(start, increment, n - 1) + increment
  }

  lemma {:induction false} DueIsLinear(start: int, increment: int, n: nat)
    ensures Due(start, increment, n) == start + n * increment
    decreases n
  {
    if n > 0 {
      DueIsLinear(start, increment, n - 1);
      assert n * increment == (n - 1) * increment + increment;
    }
  }

  /** A task that comes back to xTaskDelayUntil within its period every time resumes at exact
      multiples of the period: no drift accumulates. */
  lemma NoDrift(start: int, increment: Tick, calls: seq<int>, n: nat)
    requires n < |calls| && increment > 0
    requires forall i | 0 <= i < |calls| :: Due(start, increment, i) <= calls[i] < Due(start, increment, i + 1)
    ensures Resumes(Due(start, increment, n), increment, calls[n]) == start + (n + 1) * increment
  {
    assert calls[n] < Due(start, increment, n + 1);
    DueIsLinear(start, increment, n + 1);
  }
}
