/** The two delayed lists of FreeRTOS/Source/tasks.c seen against real time: one list holds the
    wake times of the current epoch of the tick counter, the other those of the next epoch. */
module DelayedLists {
  import opened Ticks
  import opened Directories
  import opened SortedInsertion
  import opened SortedDirectories

  const MAX_PRIORITIES: nat := 5

  function Higher(a: int, b: int): int { if b > a then b else a }

  /** Every list a task's state item can be on. */
  datatype Place = Ready(priority: int) | DelayedList1 | DelayedList2 | Suspended | Termination

  predicate IsPlace(k: Place) { k.Ready? ==> 0 <= k.priority < MAX_PRIORITIES }

  type Lists = Directory<Place>

  ghost predicate Housed(tasks: Lists, delayed: Place, overflow: Place, wake: map<Task, int>) {
    && tasks.Valid() && (forall k :: k in tasks.lists <==> IsPlace(k))
    && (delayed, overflow) in {(DelayedList1, DelayedList2), (DelayedList2, DelayedList1)}
    && (forall t :: t in wake <==> t in tasks.home && (tasks.home[t] == delayed || tasks.home[t] == overflow))
  }

  ghost predicate Timed(tasks: Lists, delayed: Place, value: map<Task, int>, wake: map<Task, int>, now: int)
    requires forall t | t in wake :: t in tasks.home
  {
    forall t | t in wake ::
      && t in value && value[t] == Residue(wake[t])
      && (tasks.home[t] == delayed ==> Epoch(wake[t]) == Epoch(now) && now <= wake[t] + 1)
      && (tasks.home[t] != delayed ==> Epoch(wake[t]) == Epoch(now) + 1)
  }

  /** The delayed lists agree with the real wake times, up to tasks that are due. */
  ghost predicate Agrees(tasks: Lists, delayed: Place, overflow: Place, value: map<Task, int>,
                         wake: map<Task, int>, now: int)
  {
    && Housed(tasks, delayed, overflow, wake)
    && Timed(tasks, delayed, value, wake, now)
    && Sorted(ValuesOf(tasks.lists[delayed].items, value))
    && Sorted(ValuesOf(tasks.lists[overflow].items, value))
  }

  /** No task on the current list is due: its wake time is still to come, or it blocked for no
      time at all in this very tick. */
  ghost predicate NoneDue(tasks: Lists, delayed: Place, wake: map<Task, int>, now: int) {
    forall t | t in wake && t in tasks.home && tasks.home[t] == delayed ::
      now < wake[t] || (now == wake[t] && Residue(now) != MAX_DELAY)
  }

  lemma AgreesAfterRemove(tasks: Lists, delayed: Place, overflow: Place, value: map<Task, int>,
                          wake: map<Task, int>, now: int, t: Task)
    requires Agrees(tasks, delayed, overflow, value, wake, now) && t in tasks.home
    ensures Agrees(tasks.Remove(t), delayed, overflow, value, wake - {t}, now)
  {
    var i := tasks.IndexOf(t);
    if tasks.home[t] == delayed || tasks.home[t] == overflow {
      ValuesRemove(tasks.lists[tasks.home[t]].items, value, i);
    }
  }

  lemma AgreesAfterInsertEnd(tasks: Lists, delayed: Place, overflow: Place, value: map<Task, int>,
                             wake: map<Task, int>, now: int, k: Place, t: Task)
    requires Agrees(tasks, delayed, overflow, value, wake, now)
    requires t !in tasks.home && IsPlace(k) && k != delayed && k != overflow
    ensures Agrees(tasks.InsertEnd(k, t), delayed, overflow, value, wake, now)
  {}

  /** The list prvAddCurrentTaskToDelayedList picks: the overflow list when the C sum wraps. */
  function ListFor(delayed: Place, overflow: Place, now: int, ticks: Tick): Place {
    if Add(Residue(now), ticks) < Residue(now) then overflow else delayed
  }

  lemma HousedAfterDelay(tasks: Lists, delayed: Place, overflow: Place, value: map<Task, int>,
                         wake: map<Task, int>, t: Task, k: Place, v: Tick, due: int)
    requires Housed(tasks, delayed, overflow, wake) && t !in tasks.home && k in {delayed, overflow}
    ensures Housed(SortIn(tasks, k, t, value, v), delayed, overflow, wake[t := due])
  {}

  lemma TimedAfterDelay(tasks: Lists, delayed: Place, overflow: Place, value: map<Task, int>,
                        wake: map<Task, int>, now: int, t: Task, ticks: Tick)
    requires Housed(tasks, delayed, overflow, wake) && Timed(tasks, delayed, value, wake, now) && t !in tasks.home
    ensures var v, k := Add(Residue(now), ticks), ListFor(delayed, overflow, now, ticks);
            Timed(SortIn(tasks, k, t, value, v), delayed, value[t := v], wake[t := now + ticks], now)
  {
    AddIsReal(now, ticks);
  }

  /** Blocking for `ticks` from now: the list the C comparison picks is that of the wake time's
      epoch, and sorted insertion there keeps everything in agreement. */
  lemma AgreesAfterDelay(tasks: Lists, delayed: Place, overflow: Place, value: map<Task, int>,
                         wake: map<Task, int>, now: int, t: Task, ticks: Tick)
    requires Agrees(tasks, delayed, overflow, value, wake, now) && t !in tasks.home
    ensures var v, k := Add(Residue(now), ticks), ListFor(delayed, overflow, now, ticks);
            Agrees(SortIn(tasks, k, t, value, v), delayed, overflow, value[t := v], wake[t := now + ticks], now)
  {
    var v, k := Add(Residue(now), ticks), ListFor(delayed, overflow, now, ticks);
    var after := SortIn(tasks, k, t, value, v);
    assert Housed(after, delayed, overflow, wake[t := now + ticks]) by {
      HousedAfterDelay(tasks, delayed, overflow, value, wake, t, k, v, now + ticks);
    }
    assert Timed(after, delayed, value[t := v], wake[t := now + ticks], now) by {
      TimedAfterDelay(tasks, delayed, overflow, value, wake, now, t, ticks);
    }
    assert Sorted(ValuesOf(after.lists[delayed].items, value[t := v])) by {
      SortInKeepsOrder(tasks, k, t, value, v, delayed);
    }
    assert Sorted(ValuesOf(after.lists[overflow].items, value[t := v])) by {
      SortInKeepsOrder(tasks, k, t, value, v, overflow);
    }
    assert Agrees(after, delayed, overflow, value[t := v], wake[t := now + ticks], now);
  }

  /** The same for a task that leaves another list to block. */
  lemma AgreesAfterMove(tasks: Lists, delayed: Place, overflow: Place, value: map<Task, int>,
                        wake: map<Task, int>, now: int, t: Task, ticks: Tick)
    requires Agrees(tasks, delayed, overflow, value, wake, now) && t in tasks.home
    ensures var v, k := Add(Residue(now), ticks), ListFor(delayed, overflow, now, ticks);
            Agrees(SortIn(tasks.Remove(t), k, t, value, v), delayed, overflow, value[t := v],
                   (wake - {t})[t := now + ticks], now)
  {
    assert tasks.Valid();
    hide Agrees, SortIn, Directory.Remove;
    AgreesAfterRemove(tasks, delayed, overflow, value, wake, now, t);
    assert t !in tasks.Remove(t).home;
    AgreesAfterDelay(tasks.Remove(t), delayed, overflow, value, wake - {t}, now, t, ticks);
  }

  /** When the tick counter is about to wrap, the current list is empty, so the assertion in
      taskSWITCH_DELAYED_LISTS holds; after the switch the lists agree with the new epoch. */
  lemma SwitchIsSafe(tasks: Lists, delayed: Place, overflow: Place, value: map<Task, int>,
                     wake: map<Task, int>, now: int)
    requires Agrees(tasks, delayed, overflow, value, wake, now) && NoneDue(tasks, delayed, wake, now)
    requires Add(Residue(now), 1) == 0
    ensures tasks.lists[delayed].items == []
    ensures Agrees(tasks, overflow, delayed, value, wake, now + 1)
  {
    AddIsReal(now, 1);
    assert tasks.ListOk(delayed);
    HasMember(tasks.lists[delayed].items);
  }

  lemma HasMember(s: seq<Task>)
    ensures s != [] ==> exists t :: t in s
  {
    if s != [] {
      var t := s[0];
      assert t in s;
    }
  }

  /** Without a wrap, one more tick keeps the lists in agreement. */
  lemma AgreesAfterTick(tasks: Lists, delayed: Place, overflow: Place, value: map<Task, int>,
                        wake: map<Task, int>, now: int)
    requires Agrees(tasks, delayed, overflow, value, wake, now) && NoneDue(tasks, delayed, wake, now)
    requires Add(Residue(now), 1) != 0
    ensures Agrees(tasks, delayed, overflow, value, wake, now + 1)
  {}

  /** Blocking makes nothing due, except when a task blocks for zero ticks in the last tick of an
      epoch; then the current list is not empty at the wrap and the switch assertion fails. */
  lemma DelayMakesNoneDue(tasks: Lists, delayed: Place, overflow: Place, value: map<Task, int>,
                          wake: map<Task, int>, now: int, t: Task, ticks: Tick)
    requires Agrees(tasks, delayed, overflow, value, wake, now) && t !in tasks.home
    requires NoneDue(tasks, delayed, wake, now)
    ensures var v, k := Add(Residue(now), ticks), ListFor(delayed, overflow, now, ticks);
            var after := SortIn(tasks, k, t, value, v);
            && (NoneDue(after, delayed, wake[t := now + ticks], now)
                <==> !(ticks == 0 && Residue(now) == MAX_DELAY))
            && (ticks == 0 && Residue(now) == MAX_DELAY
                ==> Add(Residue(now), 1) == 0 && after.lists[delayed].items != [])
  {
    AddIsReal(now, ticks);
    if ticks == 0 && Residue(now) == MAX_DELAY {
      var after := SortIn(tasks, delayed, t, value, MAX_DELAY);
      assert t in after.lists[delayed].items;
      assert t in wake[t := now + ticks];
    }
  }

  /** The head of a sorted list is the earliest. */
  lemma HeadIsLeast(tasks: Lists, delayed: Place, overflow: Place, value: map<Task, int>,
                    wake: map<Task, int>, now: int)
    requires Agrees(tasks, delayed, overflow, value, wake, now)
    ensures var items := tasks.lists[delayed].items;
            items != [] ==> items[0] in value && 0 <= value[items[0]] <= MAX_DELAY
    ensures forall t | t in wake && tasks.home[t] == delayed ::
              tasks.lists[delayed].items != [] && value[tasks.lists[delayed].items[0]] <= value[t]
  {
    var items := tasks.lists[delayed].items;
    assert tasks.ListOk(delayed);
    if items != [] {
      var t := items[0];
      assert t in items;
      assert t in tasks.home && tasks.home[t] == delayed;
      assert t in wake;
    }
    var vs := ValuesOf(items, value);
    forall t | t in wake && tasks.home[t] == delayed
      ensures items != [] && value[items[0]] <= value[t]
    {
      var i := tasks.IndexOf(t);
      assert vs[0] <= vs[i];
    }
  }
}
