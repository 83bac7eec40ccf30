/** The arithmetic behind FreeRTOS/Source/timers.c: comparisons of 64-bit residues against real
    time, and how many periods of a timer a moment has seen. */
module TimerArithmetic {
  import opened Ticks

  /** The tests of prvInsertTimerInActiveList, on what the C code sees. */
  predicate ProcessNow(nextExpiry: Tick, timeNow: Tick, commandTime: Tick, period: Tick) {
    if nextExpiry <= timeNow then Sub(timeNow, commandTime) >= period
    else timeNow < commandTime && nextExpiry >= commandTime
  }

  /** With the command less than a wrap old, the tests say exactly whether the real expiry time
      has come; if not, the comparison of the residues tells its epoch. */
  lemma InsertDecision(issued: int, period: Tick, now: int)
    requires issued <= now < issued + 0x1_0000_0000_0000_0000 && period > 0
    ensures var next, timeNow, command := Add(Residue(issued), period), Residue(now), Residue(issued);
            && (ProcessNow(next, timeNow, command, period) <==> issued + period <= now)
            && (issued + period > now ==>
                  Epoch(issued + period) == if next <= timeNow then Epoch(now) + 1 else Epoch(now))
  {}

  // ---------- Counting periods ----------

  /** How many further expiries after the one at `expiry` have come by `now`. */
  function Missed(expiry: int, period: int, now: int): nat
    requires period > 0
    decreases now - expiry
  {
    if expiry + period <= now then 1 + Missed(expiry + period, period, now) else 0
  }

  /** The expiry n periods on. */
  function Advance(expiry: int, period: int, n: nat): int
    decreases n
  {
    if n == 0 then expiry else Advance(expiry + period, period, n - 1)
  }

  lemma {:induction false} AdvanceIsLinear(expiry: int, period: int, n: nat)
    ensures Advance(expiry, period, n) == expiry + n * period
    decreases n
  {
    if n > 0 {
      AdvanceIsLinear(expiry + period, period, n - 1);
    }
  }

  lemma {:induction false} AdvanceSum(expiry: int, period: int, m: nat, n: nat)
    ensures Advance(Advance(expiry, period, m), period, n) == Advance(expiry, period, m + n)
    decreases m
  {
    if m > 0 {
      AdvanceSum(expiry + period, period, m - 1, n);
    }
  }

  /** The first expiry that is still to come. */
  function NextDue(expiry: int, period: int, now: int): int
    requires period > 0
  {
    Advance(expiry, period, Missed(expiry, period, now) + 1)
  }

  lemma MissedStep(expiry: int, period: int, now: int)
    requires period > 0
    ensures expiry + period <= now ==>
              && Missed(expiry, period, now) == 1 + Missed(expiry + period, period, now)
              && NextDue(expiry, period, now) == NextDue(expiry + period, period, now)
    ensures expiry + period > now ==> Missed(expiry, period, now) == 0 && NextDue(expiry, period, now) == expiry + period
  {
    assert Advance(expiry + period, period, 0) == expiry + period;
  }

  lemma {:induction false} NextDueIsNext(expiry: int, period: int, now: int)
    requires period > 0 && expiry <= now
    ensures now < NextDue(expiry, period, now) <= now + period
    decreases now - expiry
  {
    if expiry + period <= now {
      NextDueIsNext(expiry + period, period, now);
    } else {
      assert NextDue(expiry, period, now) == Advance(expiry + period, period, 0);
    }
  }

  /** The number of further expiries is the number of whole periods that have passed. */
  lemma MissedIsQuotient(expiry: int, period: int, now: int)
    requires period > 0 && expiry <= now
    ensures Missed(expiry, period, now) == (now - expiry) / period
  {
    var n := Missed(expiry, period, now);
    NextDueIsNext(expiry, period, now);
    AdvanceIsLinear(expiry, period, n + 1);
    Quotient(now - expiry, period, n);
  }

  lemma {:induction false} TimesMonotone(m: nat, n: nat, p: nat)
    requires m <= n
    ensures m * p <= n * p
    decreases n
  {}

  lemma Quotient(d: nat, p: nat, n: nat)
    requires p > 0 && d < (n + 1) * p && n * p <= d
    ensures d / p == n
  {
    var q := d / p;
    assert d == q * p + d % p;
    assert (q + 1) * p == q * p + p;
    if q < n {
      TimesMonotone(q + 1, n, p);
    } else if q > n {
      TimesMonotone(n + 1, q, p);
    }
  }

  /** Expiries up to the last tick of an epoch: the next one falls in the epoch after it. */
  lemma NextDueAfterEpoch(expiry: int, period: Tick, end: int)
    requires period > 0 && expiry <= end && Residue(end) == MAX_DELAY
    ensures Epoch(NextDue(expiry, period, end)) == Epoch(end) + 1
  {
    NextDueIsNext(expiry, period, end);
  }
}
