/** How often the callback of an auto-reload timer is called over a whole run of the daemon. */
module TimerRuns {
  import opened Options
  import opened TimerArithmetic
  import opened TimerState
  import opened SoftwareTimers

  /** What the daemon was at: its loop (a head processed, the time sampled, lists switched), a timer
      made by another task, or a message. */
  datatype Step = Looped | Created(u: Timer, period: int, reload: bool) | Commanded(m: Message)

  /** The effect that the daemon's methods promise, by real time `now`. */
  ghost predicate Taken(before: Timers, step: Step, after: Timers, now: int) {
    match step
    case Looped => OnSchedule(before, after, now)
    case Created(u, period, reload) =>
      && u !in before.period
      && after == before.(period := before.period[u := period], reload := before.reload[u := reload])
    case Commanded(m) => Obeyed(before, after, m, now)
  }

  predicate Spares(step: Step, t: Timer) {
    match step
    case Looped => true
    case Created(u, _, _) => u != t
    case Commanded(m) => Subject(m) != Some(t)
  }

  /** A run of the daemon in which no command is about timer `t`; the i-th step ends at real time
      times[i]. */
  ghost predicate Run(run: seq<Timers>, steps: seq<Step>, times: seq<int>, t: Timer) {
    && |run| == |times| + 1 && |steps| == |times|
    && (forall i, j | 0 <= i < j < |times| :: times[i] <= times[j])
    && (forall i | 0 <= i < |run| :: Valid(run[i]))
    && (forall i | 0 <= i < |times| :: Taken(run[i], steps[i], run[i + 1], times[i]) && Spares(steps[i], t))
  }

  /** A step that is not about `t` keeps it on schedule. */
  lemma StepKeepsTime(before: Timers, step: Step, after: Timers, now: int, t: Timer)
    requires Valid(before) && Taken(before, step, after, now) && Spares(step, t)
    ensures SameFor(before, after, t) && KeepsTime(before, after, now, t)
  {
    KeepsItself(before, now, t);
    hide Valid, Punctual;
    match step {
      case Looped =>
      case Created(_, _, _) => PunctualApart(before, after, now, t);
      case Commanded(m) =>
    }
  }

  lemma KeepsItself(s: Timers, now: int, t: Timer)
    requires Valid(s)
    ensures KeepsTime(s, s, now, t)
  {}

  lemma PunctualApart(before: Timers, after: Timers, now: int, t: Timer)
    requires after.expiry == before.expiry && after.calls == before.calls
    ensures Punctual(before, before, now, t) ==> Punctual(before, after, now, t)
  {}

  lemma {:induction false} RunKeepsTime(run: seq<Timers>, steps: seq<Step>, times: seq<int>, t: Timer, i: nat)
    requires Run(run, steps, times, t) && 0 < i <= |times|
    ensures SameFor(run[0], run[i], t) && KeepsTime(run[0], run[i], times[i - 1], t)
  {
    hide Fired, Advance, Valid, Taken, Spares;
    assert Taken(run[i - 1], steps[i - 1], run[i], times[i - 1]) && Spares(steps[i - 1], t);
    StepKeepsTime(run[i - 1], steps[i - 1], run[i], times[i - 1], t);
    if i > 1 {
      RunKeepsTime(run, steps, times, t, i - 1);
      if t in run[0].expiry {
        PunctualTrans(run[0], run[i - 1], run[i], times[i - 2], times[i - 1], t);
      }
    }
  }

  /** After n calls the timer, first due at E, is due at E + n * period. */
  lemma DueAfterCalls(run: seq<Timers>, steps: seq<Step>, times: seq<int>, t: Timer, i: nat)
    requires Run(run, steps, times, t) && 0 < i <= |times|
    requires t in run[0].expiry && t in run[0].period && t in run[0].reload && run[0].reload[t]
    ensures t in run[i].expiry && Fired(run[i], t) >= Fired(run[0], t)
    ensures var n := Fired(run[i], t) - Fired(run[0], t);
            && run[i].expiry[t] == run[0].expiry[t] + n * run[0].period[t]
            && (n > 0 ==> run[i].expiry[t] - run[0].period[t] <= times[i - 1])
  {
    RunKeepsTime(run, steps, times, t, i);
    AdvanceIsLinear(run[0].expiry[t], run[0].period[t], Fired(run[i], t) - Fired(run[0], t));
  }

  /** A timer started by a command issued at real time C, carried out at `now`, and then left
      alone: whenever nothing is due, at real time T, it has been called once for every whole
      period in T - C. */
  lemma CallsSinceStart(before: Timers, run: seq<Timers>, steps: seq<Step>, times: seq<int>,
                        t: Timer, issued: int, now: int, i: nat)
    requires Run(run, steps, times, t) && 0 < i <= |times| && issued <= now <= times[i - 1]
    requires Obeyed(before, run[0], Start(Some(t), issued), now)
    requires before.reload[t]
    requires t in run[i].expiry ==> times[i - 1] < run[i].expiry[t]
    ensures Fired(run[i], t) - Fired(before, t) == (times[i - 1] - issued) / before.period[t]
  {
    hide OthersOnSchedule, Fired, SameFor, KeepsTime, Valid;
    var period, due, last := before.period[t], issued + before.period[t], times[i - 1];
    DueAfterCalls(run, steps, times, t, i);
    var n := Fired(run[i], t) - Fired(run[0], t);
    var m := if due > now then 0 else Missed(due, period, now) + 1;
    if due <= now {
      AdvanceIsLinear(due, period, m);
      NextDueIsNext(due, period, now);
    }
    Distribute(n, m, period);
    Quotient(last - issued, period, n + m);
  }

  lemma Distribute(n: nat, m: nat, p: int)
    ensures (n + m) * p == n * p + m * p && (n + m + 1) * p == n * p + m * p + p
  {}
}
