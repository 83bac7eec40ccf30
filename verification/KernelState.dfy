/** The scheduler's variables as one value, the steps that change it, and what every step keeps.
    `now` and `wake` are not in the C code: real time, and the real wake time of each task on a
    delayed list. */
module KernelState {
  import opened Ticks
  import opened Directories
  import opened SortedDirectories
  import opened DelayedLists
  import opened EventLists

  datatype K = K(
    tasks: Lists,              // state list items
    delayed: Place,            // pxDelayedTaskList
    overflow: Place,           // pxOverflowDelayedTaskList
    value: map<Task, int>,     // xItemValue of the state list items
    wake: map<Task, int>,
    now: int,
    nextUnblock: int,          // xNextTaskUnblockTime
    priority: map<Task, int>,
    topReady: int,             // uxTopReadyPriority
    idle: Task,
    current: Task,             // pxCurrentTCB
    events: Directory<int>,    // event list items
    suspended: int,            // uxSchedulerSuspended
    tickCount: int,            // xTickCount
    pendedTicks: int,          // xPendedTicks
    overflows: int,            // xNumOfOverflows
    yieldPending: bool,
    numberOfTasks: int,        // uxCurrentNumberOfTasks
    deletedWaiting: int)       // uxDeletedTasksWaitingCleanUp

  predicate IsBlocked(k: Place) { k == DelayedList1 || k == DelayedList2 || k == Suspended }

  // ---------- The invariant ----------

  ghost predicate OnTime(k: K) {
    && Agrees(k.tasks, k.delayed, k.overflow, k.value, k.wake, k.now)
    && k.tickCount == Residue(k.now) && k.overflows == Epoch(k.now)
    && 0 <= k.nextUnblock <= MAX_DELAY && 0 <= k.pendedTicks <= MAX_DELAY
  }

  /** Every task has a priority; a ready task is on the ready list of its priority, and
      uxTopReadyPriority is no lower than any of them.  The idle task is always ready. */
  ghost predicate Runnable(k: K) {
    && 0 <= k.topReady < MAX_PRIORITIES
    && (forall t | t in k.tasks.home :: t in k.priority && 0 <= k.priority[t] < MAX_PRIORITIES)
    && (forall t | t in k.tasks.home :: k.tasks.home[t].Ready? ==>
          k.tasks.home[t].priority == k.priority[t] <= k.topReady)
    && k.idle in k.tasks.home && k.tasks.home[k.idle] == Ready(0)
    && k.current in k.tasks.home
  }

  /** A task on an event list is blocked, and no task is pending while the scheduler runs.  Nobody
      walks an event list, so what is put at its end comes last. */
  ghost predicate Waiting(k: K) {
    && k.events.Valid() && PENDING in k.events.lists && k.suspended >= 0
    && (forall t | t in k.events.home :: t in k.tasks.home && IsBlocked(k.tasks.home[t]))
    && (k.suspended == 0 ==> k.events.lists[PENDING].items == [])
    && (forall e | e in k.events.lists :: k.events.lists[e].at == 0)
  }

  ghost predicate Core(k: K) { OnTime(k) && Runnable(k) && Waiting(k) }

  /** Nothing on the current delayed list is due, and the cached unblock time is no later than
      any of its entries. */
  ghost predicate Calm(k: K) {
    && NoneDue(k.tasks, k.delayed, k.wake, k.now)
    && forall t | t in k.wake && t in k.tasks.home && k.tasks.home[t] == k.delayed && t in k.value ::
         k.nextUnblock <= k.value[t]
  }

  // ---------- A task moves to the ready, suspended or termination list ----------

  predicate IsExit(k: K, t: Task, place: Place) {
    place == Suspended || place == Termination || (t in k.priority && place == Ready(k.priority[t]))
  }

  function MoveTo(k: K, t: Task, place: Place): (tasks: Lists)
    requires Core(k) && t in k.tasks.home && IsExit(k, t, place)
    ensures tasks.Valid() && tasks.home == k.tasks.home[t := place]
  {
    hide Waiting;
    assert IsPlace(place);
    k.tasks.Remove(t).InsertEnd(place, t)
  }

  /** The event list item of `t`, if it is on a list, leaves it. */
  function Forget(events: Directory<int>, t: Task): (after: Directory<int>)
    requires events.Valid()
    ensures after.Valid() && after.home == events.home - {t} && after.lists.Keys == events.lists.Keys
  {
    if t in events.home then events.Remove(t) else events
  }

  /** `t` leaves its state list and any event list and goes to the end of list `place`. */
  function Relocate(k: K, t: Task, place: Place): K
    requires Core(k) && t in k.tasks.home && IsExit(k, t, place)
  {
    k.(tasks := MoveTo(k, t, place), events := Forget(k.events, t), wake := k.wake - {t},
       topReady := if place.Ready? then Higher(k.topReady, place.priority) else k.topReady)
  }

  /** A blocked task becomes ready. */
  function Unblock(k: K, t: Task): K
    requires Core(k) && t in k.tasks.home
  {
    Relocate(k, t, Ready(k.priority[t]))
  }

  lemma RelocateOnTime(k: K, t: Task, place: Place)
    requires Core(k) && t in k.tasks.home && IsExit(k, t, place)
    ensures OnTime(Relocate(k, t, place))
  {
    AgreesAfterRemove(k.tasks, k.delayed, k.overflow, k.value, k.wake, k.now, t);
    AgreesAfterInsertEnd(k.tasks.Remove(t), k.delayed, k.overflow, k.value, k.wake - {t}, k.now, place, t);
  }

  lemma RelocateRunnable(k: K, t: Task, place: Place)
    requires Core(k) && t in k.tasks.home && IsExit(k, t, place) && t != k.idle
    ensures Runnable(Relocate(k, t, place))
  {
    hide OnTime, Waiting, MoveTo, Forget;
  }

  lemma RelocateWaiting(k: K, t: Task, place: Place)
    requires Core(k) && t in k.tasks.home && IsExit(k, t, place)
    ensures Waiting(Relocate(k, t, place))
  {
    hide OnTime, Runnable, MoveTo;
    if t in k.events.home {
      assert k.events.ListOk(k.events.home[t]);
    }
  }

  lemma RelocateCalm(k: K, t: Task, place: Place)
    requires Core(k) && t in k.tasks.home && IsExit(k, t, place) && Calm(k)
    ensures Calm(Relocate(k, t, place))
  {
    hide Agrees, Waiting;
  }

  lemma RelocateKeeps(k: K, t: Task, place: Place)
    requires Core(k) && t in k.tasks.home && IsExit(k, t, place) && t != k.idle
    ensures Core(Relocate(k, t, place))
    ensures Calm(k) ==> Calm(Relocate(k, t, place))
  {
    RelocateOnTime(k, t, place);
    RelocateRunnable(k, t, place);
    RelocateWaiting(k, t, place);
    if Calm(k) { RelocateCalm(k, t, place); }
    hide OnTime, Runnable, Waiting, Calm, Relocate;
  }

  // ---------- A task is deleted ----------

  /** `t` leaves every list for good. */
  function Drop(k: K, t: Task): K
    requires Core(k) && t in k.tasks.home
  {
    k.(tasks := k.tasks.Remove(t), events := Forget(k.events, t), wake := k.wake - {t})
  }

  lemma DropWaiting(k: K, t: Task)
    requires Core(k) && t in k.tasks.home
    ensures Waiting(Drop(k, t))
  {
    hide OnTime, Runnable;
    if t in k.events.home {
      assert k.events.ListOk(k.events.home[t]);
    }
  }

  lemma DropRunnable(k: K, t: Task)
    requires Core(k) && t in k.tasks.home && t != k.idle && t != k.current
    ensures Runnable(Drop(k, t))
  {
    hide Agrees, Waiting;
  }

  lemma DropCalm(k: K, t: Task)
    requires Core(k) && t in k.tasks.home && Calm(k)
    ensures Calm(Drop(k, t))
  {}

  lemma DropKeeps(k: K, t: Task)
    requires Core(k) && t in k.tasks.home && t != k.idle && t != k.current
    ensures Core(Drop(k, t))
    ensures Calm(k) ==> Calm(Drop(k, t))
  {
    AgreesAfterRemove(k.tasks, k.delayed, k.overflow, k.value, k.wake, k.now, t);
    DropRunnable(k, t);
    DropWaiting(k, t);
    if Calm(k) { DropCalm(k, t); }
    hide Agrees, Runnable, Waiting, Calm;
  }

  // ---------- A task is created ----------

  /** prvAddNewTaskToReadyList */
  function Create(k: K, t: Task, p: int): K
    requires Core(k) && t !in k.tasks.home && 0 <= p < MAX_PRIORITIES
  {
    assert IsPlace(Ready(p));
    k.(tasks := k.tasks.InsertEnd(Ready(p), t), priority := k.priority[t := p], topReady := Higher(k.topReady, p))
  }

  lemma CreateWaiting(k: K, t: Task, p: int)
    requires Core(k) && t !in k.tasks.home && 0 <= p < MAX_PRIORITIES
    ensures Waiting(Create(k, t, p))
  {}

  lemma CreateRunnable(k: K, t: Task, p: int)
    requires Core(k) && t !in k.tasks.home && 0 <= p < MAX_PRIORITIES
    ensures Runnable(Create(k, t, p))
  {
    hide Agrees, Waiting;
  }

  lemma CreateCalm(k: K, t: Task, p: int)
    requires Core(k) && t !in k.tasks.home && 0 <= p < MAX_PRIORITIES && Calm(k)
    ensures Calm(Create(k, t, p))
  {
    hide Runnable, Waiting;
  }

  lemma CreateKeeps(k: K, t: Task, p: int)
    requires Core(k) && t !in k.tasks.home && 0 <= p < MAX_PRIORITIES
    ensures Core(Create(k, t, p))
    ensures Calm(k) ==> Calm(Create(k, t, p))
  {
    CreateWaiting(k, t, p);
    CreateRunnable(k, t, p);
    if Calm(k) { CreateCalm(k, t, p); }
    AgreesAfterInsertEnd(k.tasks, k.delayed, k.overflow, k.value, k.wake, k.now, Ready(p), t);
    hide Agrees, Runnable, Waiting, Calm;
  }

  // ---------- A task's priority changes ----------

  /** What xTaskPriorityInherit, xTaskPriorityDisinherit and vTaskPriorityDisinheritAfterTimeout
      do to the task: a ready one goes to the ready list of its new priority, and the event list
      item of a waiting one gets its new value without being moved. */
  function Reprioritise(k: K, t: Task, p: int): K
    requires Core(k) && t in k.tasks.home && 0 <= p < MAX_PRIORITIES
  {
    assert IsPlace(Ready(p));
    if k.tasks.home[t].Ready?
    then k.(priority := k.priority[t := p], tasks := k.tasks.Remove(t).InsertEnd(Ready(p), t),
            topReady := Higher(k.topReady, p))
    else k.(priority := k.priority[t := p])
  }

  lemma ReprioritiseFields(k: K, t: Task, p: int)
    requires Core(k) && t in k.tasks.home && 0 <= p < MAX_PRIORITIES
    ensures var after := Reprioritise(k, t, p);
            && after.tasks.home == (if k.tasks.home[t].Ready? then k.tasks.home[t := Ready(p)] else k.tasks.home)
            && after.topReady == (if k.tasks.home[t].Ready? then Higher(k.topReady, p) else k.topReady)
            && after == k.(tasks := after.tasks, priority := k.priority[t := p], topReady := after.topReady)
  {
    hide OnTime, Waiting, Runnable, Directory.Remove, Directory.InsertEnd;
  }

  lemma ReprioritiseOnTime(k: K, t: Task, p: int)
    requires Core(k) && t in k.tasks.home && 0 <= p < MAX_PRIORITIES
    ensures OnTime(Reprioritise(k, t, p))
  {
    if k.tasks.home[t].Ready? {
      AgreesAfterRemove(k.tasks, k.delayed, k.overflow, k.value, k.wake, k.now, t);
      assert k.wake - {t} == k.wake;
      AgreesAfterInsertEnd(k.tasks.Remove(t), k.delayed, k.overflow, k.value, k.wake, k.now, Ready(p), t);
    }
  }

  lemma ReprioritiseRunnable(k: K, t: Task, p: int)
    requires Core(k) && t in k.tasks.home && 0 <= p < MAX_PRIORITIES && t != k.idle
    ensures Runnable(Reprioritise(k, t, p))
  {
    hide OnTime, Waiting, Reprioritise;
    ReprioritiseFields(k, t, p);
  }

  lemma ReprioritiseWaiting(k: K, t: Task, p: int)
    requires Core(k) && t in k.tasks.home && 0 <= p < MAX_PRIORITIES
    ensures Waiting(Reprioritise(k, t, p))
  {
    hide OnTime, Runnable, Directory.Valid, Reprioritise;
    ReprioritiseFields(k, t, p);
  }

  lemma ReprioritiseCalm(k: K, t: Task, p: int)
    requires Core(k) && t in k.tasks.home && 0 <= p < MAX_PRIORITIES && Calm(k)
    ensures Calm(Reprioritise(k, t, p))
  {
    hide Waiting, Runnable, Reprioritise;
    ReprioritiseFields(k, t, p);
  }

  lemma ReprioritiseKeeps(k: K, t: Task, p: int)
    requires Core(k) && t in k.tasks.home && 0 <= p < MAX_PRIORITIES && t != k.idle
    ensures Core(Reprioritise(k, t, p))
    ensures Calm(k) ==> Calm(Reprioritise(k, t, p))
  {
    ReprioritiseOnTime(k, t, p);
    ReprioritiseRunnable(k, t, p);
    ReprioritiseWaiting(k, t, p);
    if Calm(k) { ReprioritiseCalm(k, t, p); }
    hide OnTime, Runnable, Waiting, Calm, Reprioritise;
  }

  // ---------- The current task blocks ----------

  /** prvAddCurrentTaskToDelayedList, for a delay that is not indefinite */
  function Delay(k: K, ticks: Tick): K
    requires Core(k)
  {
    var t, v := k.current, Add(k.tickCount, ticks);
    var list := if v < k.tickCount then k.overflow else k.delayed;
    k.(tasks := SortIn(k.tasks.Remove(t), list, t, k.value, v),
       value := k.value[t := v], wake := (k.wake - {t})[t := k.now + ticks],
       nextUnblock := if list == k.delayed && v < k.nextUnblock then v else k.nextUnblock)
  }

  lemma DelayShape(k: K, ticks: Tick)
    requires Core(k)
    ensures Agrees(k.tasks, k.delayed, k.overflow, k.value, k.wake, k.now)
    ensures k.tasks.Valid() && k.current in k.tasks.home && k.tickCount == Residue(k.now)
    ensures ListFor(k.delayed, k.overflow, k.now, ticks) in k.tasks.Remove(k.current).lists
    ensures var d, v, list := Delay(k, ticks), Add(Residue(k.now), ticks), ListFor(k.delayed, k.overflow, k.now, ticks);
            && d.tasks == SortIn(k.tasks.Remove(k.current), list, k.current, k.value, v)
            && d.value == k.value[k.current := v] && d.wake == (k.wake - {k.current})[k.current := k.now + ticks]
            && d.delayed == k.delayed && d.overflow == k.overflow && d.now == k.now
  {
    hide Waiting, SortIn, Directory.Remove;
  }

  lemma DelayRest(k: K, ticks: Tick)
    requires Core(k)
    ensures var d, list := Delay(k, ticks), ListFor(k.delayed, k.overflow, k.now, ticks);
            && IsBlocked(list) && list in {k.delayed, k.overflow} && d.tasks.home == k.tasks.home[k.current := list]
            && d.events == k.events && d.suspended == k.suspended && d.priority == k.priority
            && d.topReady == k.topReady && d.idle == k.idle && d.current == k.current
            && d.nextUnblock == if list == k.delayed && Add(k.tickCount, ticks) < k.nextUnblock
                                then Add(k.tickCount, ticks) else k.nextUnblock
  {
    hide Waiting, SortIn, Directory.Remove;
  }

  lemma DelayAgrees(k: K, ticks: Tick)
    requires Core(k)
    ensures var d := Delay(k, ticks); Agrees(d.tasks, d.delayed, d.overflow, d.value, d.wake, d.now)
  {
    hide *;
    DelayShape(k, ticks);
    AgreesAfterMove(k.tasks, k.delayed, k.overflow, k.value, k.wake, k.now, k.current, ticks);
  }

  lemma DelayOnTime(k: K, ticks: Tick)
    requires Core(k)
    ensures OnTime(Delay(k, ticks))
  {
    DelayAgrees(k, ticks);
    assert k.tickCount == Residue(k.now);
    hide Agrees, Runnable, Waiting, SortIn, Directory.Remove;
  }

  lemma DelayRunnable(k: K, ticks: Tick)
    requires Core(k) && k.current != k.idle
    ensures Runnable(Delay(k, ticks))
  {
    hide OnTime, Waiting, Delay, SortIn, ListFor;
    DelayRest(k, ticks);
  }

  lemma DelayWaiting(k: K, ticks: Tick)
    requires Core(k)
    ensures Waiting(Delay(k, ticks))
  {
    hide OnTime, Runnable, Delay, SortIn, ListFor, IsBlocked;
    DelayRest(k, ticks);
  }

  lemma DelayCalm(k: K, ticks: Tick)
    requires Core(k) && Calm(k)
    ensures Calm(Delay(k, ticks)) <==> !(ticks == 0 && Residue(k.now) == MAX_DELAY)
  {
    hide Agrees, Runnable, Waiting, Directory.Valid, Delay, SortIn, Directory.Remove;
    AddIsReal(k.now, ticks);
    DelayShape(k, ticks);
    DelayRest(k, ticks);
    if ticks == 0 && Residue(k.now) == MAX_DELAY {
      assert k.current in Delay(k, ticks).wake;
    }
  }

  lemma DelayKeeps(k: K, ticks: Tick)
    requires Core(k) && k.current != k.idle
    ensures Core(Delay(k, ticks))
    ensures Calm(k) ==> (Calm(Delay(k, ticks)) <==> !(ticks == 0 && Residue(k.now) == MAX_DELAY))
  {
    DelayOnTime(k, ticks);
    DelayRunnable(k, ticks);
    DelayWaiting(k, ticks);
    if Calm(k) { DelayCalm(k, ticks); }
    hide OnTime, Runnable, Waiting, Calm, Delay;
  }

  // ---------- Event lists ----------

  /** The event list item of `t` goes to place i of list e. */
  function Enlist(k: K, e: int, i: nat, t: Task): K
    requires k.events.Valid() && e in k.events.lists && i <= |k.events.lists[e].items| && t !in k.events.home
  {
    k.(events := k.events.InsertAt(e, i, t))
  }

  lemma EnlistWaiting(k: K, e: int, i: nat, t: Task)
    requires Core(k) && e in k.events.lists && i <= |k.events.lists[e].items| && t !in k.events.home
    requires t in k.tasks.home && IsBlocked(k.tasks.home[t])
    requires e == PENDING ==> k.suspended > 0
    ensures k.events.Valid() && Waiting(Enlist(k, e, i, t))
  {
    hide OnTime, Runnable;
  }

  lemma EnlistKeeps(k: K, e: int, i: nat, t: Task)
    requires Core(k) && e in k.events.lists && i <= |k.events.lists[e].items| && t !in k.events.home
    requires t in k.tasks.home && IsBlocked(k.tasks.home[t])
    requires e == PENDING ==> k.suspended > 0
    ensures k.events.Valid() && Core(Enlist(k, e, i, t))
    ensures Calm(Enlist(k, e, i, t)) <==> Calm(k)
  {
    hide Waiting, Agrees, Directory.Valid;
    EnlistWaiting(k, e, i, t);
  }

  lemma ForgetWaiting(k: K, t: Task)
    requires Core(k)
    ensures k.events.Valid() && Waiting(k.(events := Forget(k.events, t)))
  {
    hide OnTime, Runnable;
    if t in k.events.home {
      assert k.events.ListOk(k.events.home[t]);
    }
  }

  lemma ForgetKeeps(k: K, t: Task)
    requires Core(k)
    ensures k.events.Valid() && Core(k.(events := Forget(k.events, t)))
    ensures Calm(k) ==> Calm(k.(events := Forget(k.events, t)))
  {
    hide Waiting, Agrees, Forget;
    ForgetWaiting(k, t);
  }

  // ---------- One tick ----------

  /** The head of xTaskIncrementTick: count, and switch the delayed lists when the counter wraps. */
  function CountTick(k: K): K
    requires Core(k)
  {
    var tick := Add(k.tickCount, 1);
    if tick == 0
    then k.(now := k.now + 1, tickCount := tick, delayed := k.overflow, overflow := k.delayed,
            overflows := k.overflows + 1)
    else k.(now := k.now + 1, tickCount := tick)
  }

  /** When the counter wraps the current list is empty, so the assertion of
      taskSWITCH_DELAYED_LISTS holds; either way the lists agree with the new time. */
  lemma TickKeeps(k: K)
    requires Core(k) && Calm(k)
    ensures Core(CountTick(k))
    ensures Add(k.tickCount, 1) == 0 ==> k.tasks.lists[k.delayed].items == []
  {
    hide Runnable, Waiting, Agrees, NoneDue;
    AddIsReal(k.now, 1);
    if Add(k.tickCount, 1) == 0 {
      SwitchIsSafe(k.tasks, k.delayed, k.overflow, k.value, k.wake, k.now);
    } else {
      AgreesAfterTick(k.tasks, k.delayed, k.overflow, k.value, k.wake, k.now);
    }
    TickRest(k);
  }

  lemma TickRest(k: K)
    requires Core(k)
    ensures Runnable(CountTick(k)) && Waiting(CountTick(k))
  {
    hide Agrees;
  }
}
