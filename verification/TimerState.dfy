/** The variables of the timer daemon of FreeRTOS/Source/timers.c as one value, the steps that
    change it, and what every step keeps.  `expiry` and `sampled` are not in the C code: the real
    expiry time of each listed timer, and the real time of the last call of prvSampleTimeNow. */
module TimerState {
  import opened Ticks
  import opened Directories
  import opened SortedInsertion
  import opened SortedDirectories
  import opened TimerArithmetic

  datatype Which = List1 | List2

  type Timer = int

  datatype Timers = Timers(
    lists: Directory<Which>,
    current: Which,              // pxCurrentTimerList
    overflow: Which,             // pxOverflowTimerList
    value: map<Timer, int>,      // xItemValue
    expiry: map<Timer, int>,
    period: map<Timer, int>,     // xTimerPeriodInTicks of every timer that exists
    reload: map<Timer, bool>,    // tmrSTATUS_IS_AUTORELOAD
    active: set<Timer>,          // tmrSTATUS_IS_ACTIVE
    lastTime: int,               // xLastTime
    sampled: int,
    calls: seq<Timer>)           // the timers whose callbacks have been called, in order

  // ---------- The invariant ----------

  ghost predicate Known(s: Timers) {
    && (forall t | t in s.period :: 0 < s.period[t] <= MAX_DELAY && t in s.reload)
    && (forall t | t in s.lists.home :: t in s.period)
    && (forall t :: t in s.expiry <==> t in s.lists.home)
  }

  /** The current list holds the expiries of `epoch`, the overflow list those of the next. */
  ghost predicate InEpoch(s: Timers, epoch: int) {
    forall t | t in s.expiry ::
      && t in s.value && s.value[t] == Residue(s.expiry[t]) && t in s.lists.home
      && Epoch(s.expiry[t]) == if s.lists.home[t] == s.current then epoch else epoch + 1
  }

  ghost predicate ListsOk(s: Timers, epoch: int) {
    && s.lists.Valid() && List1 in s.lists.lists && List2 in s.lists.lists
    && s.current != s.overflow
    && Known(s) && InEpoch(s, epoch)
    && Sorted(ValuesOf(s.lists.lists[List1].items, s.value))
    && Sorted(ValuesOf(s.lists.lists[List2].items, s.value))
  }

  /** A timer is active exactly when it is on a list; one being worked on may be excepted. */
  ghost predicate ActiveIffListed(s: Timers, except: set<Timer>) {
    forall t | t !in except :: t in s.active <==> t in s.lists.home
  }

  ghost predicate Steady(s: Timers, except: set<Timer>) {
    ListsOk(s, Epoch(s.sampled)) && s.lastTime == Residue(s.sampled) && ActiveIffListed(s, except)
  }

  /** What holds whenever the daemon goes round its loop. */
  ghost predicate Valid(s: Timers) { Steady(s, {}) }

  // ---------- A timer leaves its list or goes on one ----------

  function Detach(s: Timers, t: Timer): Timers
    requires s.lists.Valid() && t in s.lists.home
  {
    s.(lists := s.lists.Remove(t), expiry := s.expiry - {t})
  }

  function Attach(s: Timers, k: Which, t: Timer, due: int): Timers
    requires s.lists.Valid() && k in s.lists.lists && t !in s.lists.home
  {
    s.(lists := SortIn(s.lists, k, t, s.value, Residue(due)), value := s.value[t := Residue(due)],
       expiry := s.expiry[t := due])
  }

  lemma DetachSorted(s: Timers, t: Timer, j: Which)
    requires s.lists.Valid() && t in s.lists.home && j in s.lists.lists
    requires Sorted(ValuesOf(s.lists.lists[j].items, s.value))
    ensures j in s.lists.Remove(t).lists && Sorted(ValuesOf(s.lists.Remove(t).lists[j].items, s.value))
  {
    if j == s.lists.home[t] {
      ValuesRemove(s.lists.lists[j].items, s.value, s.lists.IndexOf(t));
    }
  }

  lemma DetachOk(s: Timers, epoch: int, t: Timer)
    requires ListsOk(s, epoch) && t in s.lists.home
    ensures ListsOk(Detach(s, t), epoch)
    ensures t in s.period && t in s.expiry && t in s.value && t !in Detach(s, t).lists.home
  {
    hide Sorted, ValuesOf, Directory.Valid, Directory.Remove;
    DetachSorted(s, t, List1);
    DetachSorted(s, t, List2);
  }

  lemma AttachOk(s: Timers, epoch: int, k: Which, t: Timer, due: int)
    requires ListsOk(s, epoch) && t !in s.lists.home && t in s.period
    requires Epoch(due) == if k == s.current then epoch else epoch + 1
    ensures k in s.lists.lists && ListsOk(Attach(s, k, t, due), epoch)
    ensures JoinedSorted(s.lists, Attach(s, k, t, due).lists, k, s.value, t, Residue(due))
  {
    hide Sorted, ValuesOf, Directory.Valid, SortIn, JoinedSorted, Residue, Epoch;
    SortInJoins(s.lists, k, t, s.value, Residue(due));
    SortInKeepsOrder(s.lists, k, t, s.value, Residue(due), List1);
    SortInKeepsOrder(s.lists, k, t, s.value, Residue(due), List2);
  }

  /** Updating the value of a timer that is on no list. */
  lemma SetValueOk(s: Timers, epoch: int, t: Timer, v: Tick)
    requires ListsOk(s, epoch) && t !in s.lists.home
    ensures ListsOk(s.(value := s.value[t := v]), epoch)
  {
    assert s.lists.ListOk(List1) && s.lists.ListOk(List2);
    ValuesUpdate(s.lists.lists[List1].items, s.value, t, v);
    ValuesUpdate(s.lists.lists[List2].items, s.value, t, v);
    hide Sorted, ValuesOf, Residue, Epoch;
  }

  /** With the current list empty, the lists can change roles for the next epoch. */
  lemma SwapOk(s: Timers, epoch: int)
    requires ListsOk(s, epoch) && s.lists.lists[s.current].items == []
    ensures ListsOk(s.(current := s.overflow, overflow := s.current), epoch + 1)
  {}

  lemma HeadOk(s: Timers, epoch: int)
    requires ListsOk(s, epoch) && s.lists.lists[s.current].items != []
    ensures var t := s.lists.lists[s.current].items[0];
            && t in s.lists.home && s.lists.home[t] == s.current && t in s.value && t in s.expiry
            && t in s.period && 0 < s.period[t] <= MAX_DELAY && t in s.reload
            && Epoch(s.expiry[t]) == epoch && s.value[t] == Residue(s.expiry[t])
  {}

  /** No timer of the current list expires before the one at its head. */
  lemma HeadIsFirst(s: Timers, epoch: int, u: Timer)
    requires ListsOk(s, epoch) && u in s.lists.home && s.lists.home[u] == s.current
    ensures s.lists.lists[s.current].items != []
    ensures var t := s.lists.lists[s.current].items[0];
            t in s.expiry && u in s.expiry && s.expiry[t] <= s.expiry[u]
  {
    var items := s.lists.lists[s.current].items;
    HeadOk(s, epoch);
    var vs := ValuesOf(items, s.value);
    assert Sorted(vs);
    var i := s.lists.IndexOf(u);
    assert vs[0] <= vs[i];
    SameEpochOrder(s.expiry[items[0]], s.expiry[u]);
  }

  // ---------- Callbacks ----------

  function Repeat(t: Timer, n: nat): (r: seq<Timer>) { seq(n, _ => t) }

  lemma RepeatStep(t: Timer, n: nat)
    ensures Repeat(t, 0) == [] && Repeat(t, n) + [t] == Repeat(t, n + 1)
  {}

  ghost function Fired(s: Timers, t: Timer): nat { multiset(s.calls)[t] }

  lemma {:induction false} RepeatCount(t: Timer, u: Timer, n: nat)
    ensures multiset(Repeat(t, n))[u] == if u == t then n else 0
  {
    if n > 0 {
      assert Repeat(t, n) == Repeat(t, n - 1) + [t];
      RepeatCount(t, u, n - 1);
    }
  }

  /** Between two states, by real time `now`: every auto-reload timer has had one callback for each
      period its expiry moved on, never one before its time; a one-shot timer that is gone has had
      its one callback, at its time; no other timer had any. */
  ghost predicate OnSchedule(before: Timers, after: Timers, now: int) {
    && after.period == before.period && after.reload == before.reload && before.calls <= after.calls
    && (forall t | t in before.expiry :: Punctual(before, after, now, t))
    && (forall t | t !in before.expiry :: t !in after.expiry && Fired(after, t) == Fired(before, t))
  }

  ghost predicate Punctual(before: Timers, after: Timers, now: int, t: Timer) {
    && t in before.expiry && t in before.period && t in before.reload
    && Fired(after, t) >= Fired(before, t)
    && var n := Fired(after, t) - Fired(before, t);
    && (if before.reload[t]
        then t in after.expiry && after.expiry[t] == Advance(before.expiry[t], before.period[t], n)
             && (n > 0 ==> after.expiry[t] - before.period[t] <= now)
        else if n == 0 then t in after.expiry && after.expiry[t] == before.expiry[t]
        else n == 1 && t !in after.expiry && before.expiry[t] <= now)
  }

  lemma ScheduleSame(s: Timers, epoch: int, now: int)
    requires ListsOk(s, epoch)
    ensures OnSchedule(s, s, now)
  {}

  lemma PunctualTrans(a: Timers, b: Timers, c: Timers, early: int, late: int, t: Timer)
    requires early <= late && Punctual(a, b, early, t)
    requires t in a.period ==> t in b.period && b.period[t] == a.period[t]
    requires t in a.reload ==> t in b.reload && b.reload[t] == a.reload[t]
    requires if t in b.expiry then Punctual(b, c, late, t)
             else t !in c.expiry && Fired(c, t) == Fired(b, t)
    ensures Punctual(a, c, late, t)
  {
    if a.reload[t] {
      AdvanceSum(a.expiry[t], a.period[t], Fired(b, t) - Fired(a, t), Fired(c, t) - Fired(b, t));
    }
  }

  lemma ScheduleTrans(a: Timers, b: Timers, c: Timers, early: int, late: int)
    requires early <= late && OnSchedule(a, b, early) && OnSchedule(b, c, late)
    ensures OnSchedule(a, c, late)
  {
    hide Punctual, Fired;
    forall t | t in a.expiry ensures Punctual(a, c, late, t) {
      PunctualTrans(a, b, c, early, late, t);
    }
  }

  /** What prvProcessExpiredTimer does to the timer `t` it takes. */
  ghost predicate Processed(before: Timers, after: Timers, t: Timer, now: int) {
    && t in before.expiry && t in before.period && t in before.reload && before.period[t] > 0
    && after.period == before.period && after.reload == before.reload
    && (if before.reload[t]
        then && after.expiry == before.expiry[t := NextDue(before.expiry[t], before.period[t], now)]
             && after.calls == before.calls + Repeat(t, Missed(before.expiry[t], before.period[t], now) + 1)
             && after.active == before.active && MovedTo(before, after, t)
        else && after.expiry == before.expiry - {t}
             && after.calls == before.calls + Repeat(t, 1)
             && after.active == before.active - {t} && Left(before, after, t))
  }

  /** The timer `t` has left its list and no other has moved. */
  ghost predicate Left(before: Timers, after: Timers, t: Timer) {
    before.lists.Valid() && t in before.lists.home && after.lists == before.lists.Remove(t)
  }

  /** The timer `t` has left its list for the place of its new expiry and no other has moved. */
  ghost predicate MovedTo(before: Timers, after: Timers, t: Timer) {
    && before.lists.Valid() && t in before.lists.home && t in after.lists.home && t in after.expiry
    && JoinedSorted(before.lists.Remove(t), after.lists, after.lists.home[t], before.value, t, Residue(after.expiry[t]))
  }

  lemma ProcessedOnSchedule(before: Timers, after: Timers, t: Timer, now: int, epoch: int)
    requires ListsOk(before, epoch) && Processed(before, after, t, now) && before.expiry[t] <= now
    ensures OnSchedule(before, after, now)
  {
    hide Sorted, ValuesOf, InEpoch, Directory.Valid, MovedTo, Left;
    NextDueIsNext(before.expiry[t], before.period[t], now);
    var n := if before.reload[t] then Missed(before.expiry[t], before.period[t], now) + 1 else 1;
    forall u ensures Fired(after, u) == Fired(before, u) + (if u == t then n else 0) {
      RepeatCount(t, u, n);
    }
    hide Fired, Repeat, Missed, Advance;
    forall u | u in before.expiry ensures Punctual(before, after, now, u) {}
  }

  // ---------- Whole lists at a time ----------

  /** The timers of the current list. */
  ghost function OnCurrent(s: Timers): set<Timer> { set t | t in s.lists.home && s.lists.home[t] == s.current }

  /** The last tick of the epoch of `time`. */
  function EpochEnd(time: int): (end: int)
    ensures end >= time && Residue(end) == MAX_DELAY && Epoch(end) == Epoch(time)
    ensures forall later | Epoch(later) > Epoch(time) :: end < later
  {
    time - Residue(time) + MAX_DELAY
  }

  lemma SampledApart(s: Timers, epoch: int, now: int)
    requires ListsOk(s, epoch)
    ensures ListsOk(s.(lastTime := Residue(now), sampled := now), epoch)
  {}

  lemma ActiveApart(s: Timers, epoch: int, active: set<Timer>)
    requires ListsOk(s, epoch)
    ensures ListsOk(s.(active := active), epoch)
  {}

  lemma CallsApart(s: Timers, epoch: int, calls: seq<Timer>)
    requires ListsOk(s, epoch)
    ensures ListsOk(s.(calls := calls), epoch)
  {}

  lemma PeriodOk(s: Timers, epoch: int, t: Timer)
    requires ListsOk(s, epoch) && t in s.period
    ensures 0 < s.period[t] <= MAX_DELAY && t in s.reload
  {}

  /** The settings of a timer that is on no list can change. */
  lemma SettingsApart(s: Timers, epoch: int, t: Timer, period: int)
    requires ListsOk(s, epoch) && t !in s.lists.home && t in s.reload && 0 < period <= MAX_DELAY
    ensures ListsOk(s.(period := s.period[t := period]), epoch)
    ensures ListsOk(s.(period := s.period - {t}), epoch)
  {
    hide Sorted, ValuesOf, Residue, Epoch;
  }

  ghost predicate SameSettings(before: Timers, after: Timers) {
    && after.current == before.current && after.overflow == before.overflow
    && after.period == before.period && after.reload == before.reload
    && after.lastTime == before.lastTime && after.sampled == before.sampled
  }

  lemma OnlyListedExpire(s: Timers, epoch: int, t: Timer)
    requires ListsOk(s, epoch)
    ensures t in s.expiry <==> t in s.lists.home
    ensures t in s.lists.home ==> t in s.period
  {}

  lemma ListsValid(s: Timers, epoch: int)
    requires ListsOk(s, epoch)
    ensures s.lists.Valid() && s.current in s.lists.lists && s.overflow in s.lists.lists
    ensures s.current != s.overflow
  {}

  lemma SameEpochNear(a: int, b: int)
    requires Epoch(a) == Epoch(b)
    ensures b < a + 0x1_0000_0000_0000_0000
  {}

  /** At the end of an epoch the processed timer has left the current list. */
  lemma ProcessedLeaves(before: Timers, after: Timers, t: Timer, end: int)
    requires Processed(before, after, t, end) && SameSettings(before, after) && before.current != before.overflow
    requires Residue(end) == MAX_DELAY && before.expiry[t] <= end && 0 < before.period[t] <= MAX_DELAY
    requires t in before.lists.home && before.lists.home[t] == after.current
    requires after.lists.home - {t} == before.lists.home - {t}
    requires t in after.lists.home <==> t in after.expiry
    requires t in after.lists.home ==>
               after.lists.home[t] == if Epoch(after.expiry[t]) == Epoch(end) then after.current else after.overflow
    ensures OnCurrent(after) < OnCurrent(before)
  {
    hide MovedTo, Left;
    if before.reload[t] {
      NextDueAfterEpoch(before.expiry[t], before.period[t], end);
    }
    assert t in OnCurrent(before) && t !in OnCurrent(after);
    forall u | u in OnCurrent(after) ensures u in OnCurrent(before) {
      assert u in (after.lists.home - {t}) && u in (before.lists.home - {t});
    }
  }

  /** The variables that schedules and activity do not read. */
  lemma SwapApart(before: Timers, s: Timers, now: int, except: set<Timer>)
    ensures var after := s.(current := s.overflow, overflow := s.current);
            && (OnSchedule(before, s, now) ==> OnSchedule(before, after, now))
            && (ActiveIffListed(s, except) ==> ActiveIffListed(after, except))
  {}

  lemma ScheduleSampled(before: Timers, s: Timers, now: int)
    requires OnSchedule(before, s, now)
    ensures OnSchedule(before, s.(lastTime := Residue(now), sampled := now), now)
  {}

  // ---------- Everything but one timer ----------

  ghost predicate SameFor(before: Timers, after: Timers, u: Timer) {
    && (u in before.period <==> u in after.period) && (u in before.period ==> after.period[u] == before.period[u])
    && (u in before.reload <==> u in after.reload) && (u in before.reload ==> after.reload[u] == before.reload[u])
  }

  ghost predicate KeepsTime(before: Timers, after: Timers, now: int, u: Timer) {
    if u in before.expiry then Punctual(before, after, now, u)
    else u !in after.expiry && Fired(after, u) == Fired(before, u)
  }

  /** Every timer but `t` is on schedule, and no call so far is forgotten. */
  ghost predicate OthersOnSchedule(before: Timers, after: Timers, now: int, t: Timer) {
    && before.calls <= after.calls
    && forall u | u != t :: SameFor(before, after, u) && KeepsTime(before, after, now, u)
  }

  lemma OthersTrans(a: Timers, b: Timers, c: Timers, early: int, late: int, t: Timer)
    requires early <= late && OthersOnSchedule(a, b, early, t) && OthersOnSchedule(b, c, late, t)
    ensures OthersOnSchedule(a, c, late, t)
  {
    forall u | u != t ensures SameFor(a, c, u) && KeepsTime(a, c, late, u) {
      assert SameFor(a, b, u) && SameFor(b, c, u) && KeepsTime(a, b, early, u) && KeepsTime(b, c, late, u);
      if u in a.expiry { PunctualTrans(a, b, c, early, late, u); }
    }
  }

  /** A step that touches only `t`. */
  lemma TouchOnly(before: Timers, after: Timers, epoch: int, now: int, t: Timer, n: nat)
    requires ListsOk(before, epoch)
    requires after.expiry - {t} == before.expiry - {t} && after.calls == before.calls + Repeat(t, n)
    requires after.period - {t} == before.period - {t} && after.reload == before.reload
    ensures OthersOnSchedule(before, after, now, t)
    ensures Fired(after, t) == Fired(before, t) + n
  {
    hide Sorted, ValuesOf, InEpoch, Directory.Valid;
    forall u ensures Fired(after, u) == Fired(before, u) + (if u == t then n else 0) {
      RepeatCount(t, u, n);
    }
    hide Fired, Repeat;
    forall u | u != t ensures SameFor(before, after, u) && KeepsTime(before, after, now, u) {
      assert u in after.expiry - {t} <==> u in before.expiry - {t};
      assert u in after.period - {t} <==> u in before.period - {t};
      if u in before.expiry { assert (after.expiry - {t})[u] == (before.expiry - {t})[u]; }
      if u in before.period { assert (after.period - {t})[u] == (before.period - {t})[u]; }
    }
  }

  lemma ProcessedSampled(before: Timers, after: Timers, t: Timer, now: int)
    requires Processed(before.(lastTime := Residue(now), sampled := now), after, t, now)
    ensures Processed(before, after, t, now)
  {
    hide JoinedSorted, Directory.Valid;
  }

  /** The time for which the daemon blocks runs out no later than the next expiry. */
  lemma BlocksUntilNextExpiry(s: Timers, now: int, nextExpireTime: Tick)
    requires ListsOk(s, Epoch(now)) && s.current in s.lists.lists && s.overflow in s.lists.lists
    requires var items := s.lists.lists[s.current].items;
             if items == [] then nextExpireTime == 0
             else items[0] in s.expiry && nextExpireTime == Residue(s.expiry[items[0]]) && nextExpireTime > Residue(now)
    ensures var items, ticks := s.lists.lists[s.current].items, Sub(nextExpireTime, Residue(now));
            && (forall t | t in s.expiry :: now + ticks <= s.expiry[t] && now < s.expiry[t])
            && (items != [] ==> s.expiry[items[0]] == now + ticks)
    ensures s.lists.lists[s.current].items == [] && s.lists.lists[s.overflow].items == [] <==> s.lists.home == map[]
  {
    var items, ticks := s.lists.lists[s.current].items, Sub(nextExpireTime, Residue(now));
    if items != [] { HeadOk(s, Epoch(now)); }
    forall t | t in s.expiry ensures now + ticks <= s.expiry[t] && now < s.expiry[t] {
      if s.lists.home[t] == s.current { HeadIsFirst(s, Epoch(now), t); }
    }
    NobodyListed(s, Epoch(now));
  }

  lemma ListedSomewhere(s: Timers, t: Timer)
    requires s.lists.Valid() && s.current in s.lists.lists && s.overflow in s.lists.lists
    requires s.current != s.overflow && t in s.lists.home
    ensures t in s.lists.lists[s.current].items || t in s.lists.lists[s.overflow].items
  {
    var k := s.lists.home[t];
    assert (k.List1? || k.List2?) && (s.current.List1? || s.overflow.List1?);
  }

  lemma NobodyListed(s: Timers, epoch: int)
    requires ListsOk(s, epoch) && s.current in s.lists.lists && s.overflow in s.lists.lists
    ensures s.lists.lists[s.current].items == [] && s.lists.lists[s.overflow].items == [] <==> s.lists.home == map[]
  {
    hide Sorted, ValuesOf, InEpoch, Known;
    assert s.lists.ListOk(s.current) && s.lists.ListOk(s.overflow);
    if s.lists.lists[s.current].items != [] {
      var t := s.lists.lists[s.current].items[0];
      assert t in s.lists.lists[s.current].items;
      assert t in s.lists.home;
    } else if s.lists.lists[s.overflow].items != [] {
      var t := s.lists.lists[s.overflow].items[0];
      assert t in s.lists.lists[s.overflow].items;
      assert t in s.lists.home;
    } else {
      forall t | t in s.lists.home ensures false {
        ListedSomewhere(s, t);
      }
    }
  }

  // ---------- Commands ----------

  /** The timer's history before a command reaches it: it is off its list, and the time has been
      sampled. */
  lemma CommandBegins(before: Timers, off: Timers, s: Timers, t: Timer, now: int, epoch: int)
    requires ListsOk(before, epoch)
    requires off.expiry == before.expiry - {t} && off.period == before.period && off.reload == before.reload
    requires off.calls == before.calls && OnSchedule(off, s, now)
    ensures OthersOnSchedule(before, s, now, t) && Fired(s, t) == Fired(before, t) && t !in s.expiry
  {
    hide Sorted, ValuesOf, InEpoch, Directory.Valid, Punctual;
    forall u | u != t ensures SameFor(before, s, u) && KeepsTime(before, s, now, u) {
      if u in before.expiry {
        assert Punctual(off, s, now, u);
        PunctualFrom(before, off, s, now, u);
      }
    }
  }

  lemma PunctualFrom(before: Timers, off: Timers, s: Timers, now: int, u: Timer)
    requires Punctual(off, s, now, u) && u in before.expiry && before.expiry[u] == off.expiry[u]
    requires off.period == before.period && off.reload == before.reload && off.calls == before.calls
    ensures Punctual(before, s, now, u)
  {}
}
