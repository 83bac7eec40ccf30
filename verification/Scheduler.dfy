/** The single-core scheduler of FreeRTOS/Source/tasks.c from the moment it starts.  Each
    critical section, and each stretch with the scheduler suspended, is one method call. */
module Scheduler {
  import opened Ticks
  import opened Directories
  import opened DelayedLists
  import opened EventLists
  import opened KernelState
  import opened TickCounting
  import opened TaskMoves
  import opened WakingOrder
  import opened SchedulerSteps

  class Kernel {
    var k: K

    constructor (idle: Task, queues: set<int>)
      ensures Valid(k) && k.now == 0 && k.tasks.home == map[idle := Ready(0)]
      ensures Ordered(k.events, k.priority)
      ensures forall p | p in k.tasks.lists && p != Ready(0) :: k.tasks.lists[p].items == []
      ensures k.events.lists.Keys == queues + {PENDING} && k.events.home == map[] && k.suspended == 0
      ensures k.priority == map[idle := 0] && k.current == k.idle == idle && !k.yieldPending
    {
      InitialValid(idle, queues);
      k := Initial(idle, queues);
    }

    /** The task at the head of the delayed list, if it is due, becomes ready. */
    method WakeHead(ghost before: K) returns (t: Task)
      requires Steady(k) && WakingUp(before, k) && SameControl(before, k)
      requires k.tasks.lists[k.delayed].items != []
      requires var h := k.tasks.lists[k.delayed].items[0]; h in k.value && k.value[h] <= k.tickCount
      modifies this
      ensures k.wake == old(k.wake) - {t} && t in old(k.wake) && t in before.wake && t in k.priority
      ensures k.priority == before.priority && k.current == before.current
      ensures Steady(k) && WakingUp(before, k) && SameControl(before, k)
    {
      t := k.tasks.lists[k.delayed].items[0];
      HeadIsDue(k, t);
      UnblockKeeps(k, t);
      WakeOne(before, k, t);
      k := Unblock(k, t);
    }

    /** The loop of xTaskIncrementTick. */
    method WakeDue(ghost before: K) returns (switchRequired: bool)
      requires Steady(k) && WakingUp(before, k) && SameControl(before, k) && k.wake == before.wake
      requires k.current in k.priority && k.priority == before.priority && k.current == before.current
      modifies this
      ensures Steady(k) && Calm(k) && OneTickLater(before, k) && SameControl(before, k)
      ensures switchRequired <==> exists t :: Due(before, t) && Preempts(before, t)
    {
      hide Core, Counted, WakingUp, Calm, SameControl, Preempts;
      switchRequired := false;
      while true
        invariant Steady(k) && WakingUp(before, k) && SameControl(before, k)
        invariant k.current in k.priority && k.priority == before.priority && k.current == before.current
        invariant switchRequired <==> exists t :: t in before.wake && t !in k.wake && Preempts(before, t)
        decreases k.wake.Keys
      {
        HeadOf(k);
        if k.tasks.lists[k.delayed].items == [] {
          TickEnds(before, k);
          k := k.(nextUnblock := MAX_DELAY);
          break;
        }
        var itemValue := k.value[k.tasks.lists[k.delayed].items[0]];
        if k.tickCount < itemValue {
          TickEnds(before, k);
          k := k.(nextUnblock := itemValue);
          break;
        }
        var t := WakeHead(before);
        PreemptsIfHigher(before, t);
        if k.priority[t] > k.priority[k.current] {
          switchRequired := true;
        }
      }
    }

    /** Count the tick; when the counter wraps, switch the delayed lists (taskSWITCH_DELAYED_LISTS). */
    method BeginTick()
      requires Steady(k) && Calm(k)
      modifies this
      ensures Core(CountTick(old(k))) && k == StartTick(old(k))
    {
      hide Calm, Agrees, Runnable, Waiting;
      Parts(k);
      TickKeeps(k);
      var emptied := k.delayed;
      k := CountTick(k);
      if k.tickCount == 0 {
        assert k.tasks.lists[emptied].items == [];
        k := ResetUnblockTime(k);
      }
    }

    /** xTaskIncrementTick while the scheduler runs. */
    method CountedTick() returns (switchRequired: bool)
      requires Steady(k) && Calm(k) && k.suspended == 0
      modifies this
      ensures Steady(k) && Calm(k) && OneTickLater(old(k), k) && SameControl(old(k), k)
      ensures Step(old(k), Label.CountedTick, k)
      ensures k.current in k.priority && Ready(k.priority[k.current]) in k.tasks.lists
      ensures switchRequired <==> TickSwitches(old(k), k)
    {
      hide Core, Calm, WakingUp, OneTickLater, Counted, StartTick, Due, Preempts;
      ghost var before := k;
      TickBegins(k);
      BeginTick();
      switchRequired := false;
      if k.tickCount >= k.nextUnblock {
        switchRequired := WakeDue(before);
      } else {
        NothingToWake(before);
      }
      Parts(k);
      assert IsPlace(Ready(k.priority[k.current]));
      if |k.tasks.lists[Ready(k.priority[k.current])].items| > 1 {
        switchRequired := true;
      }
      if k.yieldPending {
        switchRequired := true;
      }
    }

    method IncrementTick() returns (switchRequired: bool)
      requires Steady(k) && Calm(k)
      modifies this
      ensures Steady(k) && Calm(k)
      ensures old(k).suspended > 0 ==>
                k == old(k).(pendedTicks := Add(old(k).pendedTicks, 1)) && !switchRequired
      ensures old(k).suspended == 0 ==>
                && OneTickLater(old(k), k) && SameControl(old(k), k)
                && k.current in k.priority && Ready(k.priority[k.current]) in k.tasks.lists
                && (switchRequired <==> TickSwitches(old(k), k))
      ensures Step(old(k), if old(k).suspended == 0 then Label.CountedTick else Label.PendedTick, k)
    {
      if k.suspended == 0 {
        switchRequired := CountedTick();
      } else {
        switchRequired := false;
        k := k.(pendedTicks := Add(k.pendedTicks, 1));
      }
    }

    // ---------- Blocking and waking ----------

    /** prvAddCurrentTaskToDelayedList */
    method Block(ticks: Tick, forever: bool)
      requires Steady(k) && Calm(k) && CanBlock(k)
      modifies this
      ensures Steady(k) && (Calm(k) <==> !(ticks == 0 && old(k).tickCount == MAX_DELAY))
      ensures CurrentBlocked(old(k), k, ticks, ticks == MAX_DELAY && forever)
      ensures Step(old(k), Label.Block(ticks, ticks == MAX_DELAY && forever), k)
      ensures k.events == old(k).events
    {
      hide Core, Calm, Counted, CurrentBlocked, Relocate, Delay, CanBlock, Step;
      CanBlockParts(k);
      if ticks == MAX_DELAY && forever {
        BlockForever(k);
        k := Relocate(k, k.current, Suspended);
      } else {
        BlockForTicks(k, ticks);
        k := Delay(k, ticks);
      }
      BlockedParts(old(k), k, ticks, ticks == MAX_DELAY && forever);
      SameEvents(old(k), k);
      BlockIsStep(old(k), k, ticks, ticks == MAX_DELAY && forever);
    }

    /** vTaskPlaceOnEventList.  The kernel changes the event list first; the two changes touch
        different variables. */
    method PlaceOnEventList(e: int, ticks: Tick)
      requires Steady(k) && Calm(k) && CanBlock(k)
      requires e in k.events.lists && e != PENDING
      modifies this
      ensures Steady(k) && (Calm(k) <==> !(ticks == 0 && old(k).tickCount == MAX_DELAY))
      ensures CurrentBlocked(old(k), k, ticks, ticks == MAX_DELAY)
      ensures Step(old(k), Label.Block(ticks, ticks == MAX_DELAY), k)
      ensures Enlisted(old(k), k, e)
    {
      hide Core, Calm, Counted, CurrentBlocked, OrderKept, Step, Enlist, Enlisted;
      Block(ticks, true);
      JoinsList(old(k), k, e, ticks, ticks == MAX_DELAY);
      k := Enlist(k, e, PriorityPlace(k.events, k.priority, e, k.current), k.current);
      BlockIsStep(old(k), k, ticks, ticks == MAX_DELAY);
    }

    /** xTaskRemoveFromEventList: the first waiter is ready at once, or pending while the scheduler
        is suspended.  It is one of the highest priority if the list is in order. */
    method RemoveFromEventList(e: int) returns (t: Task, switchRequired: bool)
      requires Steady(k) && Calm(k)
      requires e in k.events.lists && e != PENDING && k.events.lists[e].items != []
      modifies this
      ensures Steady(k) && Calm(k)
      ensures t == old(k).events.lists[e].items[0] && t in k.priority
      ensures forall u | u in old(k).events.lists[e].items :: u in k.priority
      ensures ListOrdered(old(k).events, old(k).priority, e)
              ==> forall u | u in old(k).events.lists[e].items :: k.priority[u] <= k.priority[t]
      ensures switchRequired <==> Preempts(old(k), t)
      ensures k.events.Valid() && SameClock(old(k), k) && k.yieldPending == (old(k).yieldPending || switchRequired)
      ensures k.suspended == old(k).suspended && t in old(k).tasks.home && t in k.priority
      ensures k.priority == old(k).priority && k.current == old(k).current && k.idle == old(k).idle
      ensures k.suspended == 0 ==>
                && k.tasks.home == old(k).tasks.home[t := Ready(k.priority[t])] && k.wake == old(k).wake - {t}
                && k.events.home == old(k).events.home - {t} && AtEnd(old(k).tasks, k.tasks, t, Ready(k.priority[t]))
                && BecameReady(LineupOf(old(k)), LineupOf(k), k.priority, [t], [])
      ensures k.suspended > 0 ==>
                && k.tasks == old(k).tasks && k.wake == old(k).wake
                && k.events.home == old(k).events.home[t := PENDING] && Pended(old(k).events, k.events, t)
      ensures Step(old(k), if k.suspended == 0 then Label.WakeByEvent(t) else Label.PendByEvent(t), k)
    {
      hide Core, Calm, Counted, Step, AtEnd, ListOrdered, Forget, BecameReady, Pended;
      t := k.events.lists[e].items[0];
      Parts(k);
      WaiterParts(k, e);
      PreemptsIfHigher(k, t);
      if k.suspended == 0 {
        UnblockKeeps(k, t);
        UnblockFields(k, t);
        UnblockJoins(k, t);
        OrderedAfterForget(k.events, k.priority, t);
        k := Unblock(k, t);
      } else {
        PendKeeps(k, t);
        k := k.(events := Forget(k.events, t).InsertEnd(PENDING, t));
      }
      switchRequired := k.priority[t] > k.priority[k.current];
      if switchRequired {
        YieldApart(k);
        k := k.(yieldPending := true);
      }
      EventIsStep(old(k), k, t);
    }

    // ---------- Suspending and resuming the scheduler ----------

    method SuspendAll()
      requires Steady(k) && Calm(k)
      modifies this
      ensures Steady(k) && Calm(k) && k == old(k).(suspended := old(k).suspended + 1)
      ensures Step(old(k), Label.SuspendAll, k)
    {
      Parts(k);
      SuspendKeeps(k, k.suspended + 1);
      k := k.(suspended := k.suspended + 1);
    }

    /** The loop of xTaskResumeAll over xPendingReadyList. */
    method DrainPending()
      requires Steady(k) && Calm(k)
      modifies this
      ensures Steady(k) && Calm(k) && Draining(old(k), k)
      ensures PENDING in k.events.lists && k.events.lists[PENDING].items == []
      ensures DrainYields(old(k), k)
    {
      hide Core, Calm, Counted, Draining, IsPending, Preempts, Unblock, DrainYields;
      ghost var before := k;
      Parts(k);
      DrainBegins(k);
      DrainYieldsAtFirst(k);
      var moved := false;
      while k.events.lists[PENDING].items != []
        invariant Steady(k) && Calm(k) && Draining(before, k) && PENDING in k.events.lists
        invariant k.priority == before.priority && k.current == before.current && k.current in k.priority
        invariant DrainYields(before, k)
        decreases k.events.home.Keys
      {
        ghost var mid := k;
        var t := k.events.lists[PENDING].items[0];
        PendingHead(k);
        PendingHoused(k, t);
        DrainOne(before, k, t);
        DrainMeasure(k, t);
        UnblockKeeps(k, t);
        UnblockFields(k, t);
        PreemptsIfHigher(before, t);
        PendingBefore(before, k, t);
        k := Unblock(k, t);
        Parts(k);
        if k.priority[t] > k.priority[k.current] {
          YieldApart(k);
          YieldIrrelevant(before, k, 0);
          k := k.(yieldPending := true);
        }
        DrainOneYields(before, mid, k, t);
        moved := true;
      }
      if moved {
        ResetKeeps(k);
        ResetIrrelevant(before, k);
        DrainSame(before, k, ResetUnblockTime(k));
        k := ResetUnblockTime(k);
      }
    }

    /** The loop of xTaskResumeAll over the ticks that came while the scheduler was suspended. */
    method RunPendedTicks()
      requires Steady(k) && Calm(k) && k.suspended == 0
      modifies this
      ensures Steady(k) && Calm(k) && k.suspended == 0 && k.pendedTicks == 0
      ensures old(k).pendedTicks >= 0 && TicksLater(old(k), k, old(k).pendedTicks)
      ensures YieldsAfter(old(k), k, old(k).pendedTicks)
    {
      hide Core, Calm, Counted, TicksLater, OneTickLater, Preempts, YieldsAfter;
      ghost var before := k;
      Parts(k);
      NoTicks(k);
      NoTickYields(k);
      var pendedCounts := k.pendedTicks;
      if pendedCounts > 0 {
        while pendedCounts > 0
          invariant 0 <= pendedCounts <= before.pendedTicks
          invariant Steady(k) && Calm(k) && k.suspended == 0
          invariant TicksLater(before, k, before.pendedTicks - pendedCounts)
          invariant k.priority == before.priority && k.current == before.current
          invariant YieldsAfter(before, k, before.pendedTicks - pendedCounts)
          invariant forall t | t in k.wake :: t in before.wake
        {
          ghost var mid := k;
          var switchRequired := IncrementTick();
          FewerAsleep(mid, k);
          OneMoreTickLater(before, mid, k, before.pendedTicks - pendedCounts);
          OneMoreTickYields(before, mid, k, before.pendedTicks - pendedCounts, switchRequired);
          if switchRequired {
            YieldApart(k);
            YieldIrrelevant(before, k, before.pendedTicks - pendedCounts + 1);
            k := k.(yieldPending := true);
          }
          pendedCounts := pendedCounts - 1;
        }
        PendedKeeps(k, 0);
        PendedIrrelevant(before, k, before.pendedTicks);
        k := k.(pendedTicks := 0);
      }
    }

    method ResumeAll() returns (alreadyYielded: bool)
      requires Steady(k) && Calm(k) && k.suspended > 0
      modifies this
      ensures Steady(k) && Calm(k)
      ensures old(k).suspended > 1 ==> k == old(k).(suspended := old(k).suspended - 1) && !alreadyYielded
      ensures old(k).suspended == 1 ==>
                Resumed(old(k), k) && alreadyYielded == k.yieldPending && ResumeYields(old(k), k)
      ensures Step(old(k), if old(k).suspended == 1 then Label.ResumeAll else Label.ResumeNested, k)
    {
      hide Core, Calm, Counted, Draining, TicksLater, Resumed, IsPending;
      hide DrainYields, YieldsAfter, ResumeYields;
      alreadyYielded := false;
      ghost var before := k;
      // The kernel counts uxSchedulerSuspended down first; nothing before the ticks reads it.
      if k.suspended - 1 == 0 {
        DrainPending();
        Drained(k);
        DrainedFields(before, k);
        ghost var mid := k;
        k := k.(suspended := 0);
        RunPendedTicks();
        ResumeEnds(before, mid, k);
        ResumeYielded(before, mid, k);
        if k.yieldPending {
          alreadyYielded := true;
        }
      } else {
        SuspendKeeps(k, k.suspended - 1);
        k := k.(suspended := k.suspended - 1);
      }
    }

    /** xTaskCatchUpTicks */
    method CatchUpTicks(ticks: Tick) returns (yieldOccurred: bool)
      requires Valid(k) && k.suspended == 0
      modifies this
      ensures Valid(k) && k.suspended == 0 && TicksLater(old(k), k, ticks)
      ensures yieldOccurred == k.yieldPending && YieldsAfter(old(k), k, ticks)
      ensures Step(old(k), Label.CatchUp(ticks), k)
    {
      hide Core, Calm, Counted, TicksLater, ResumeYields, YieldsAfter;
      ghost var before := k;
      SuspendAll();
      PendedKeeps(k, Add(k.pendedTicks, ticks));
      k := k.(pendedTicks := Add(k.pendedTicks, ticks));
      assert k == before.(suspended := 1, pendedTicks := ticks);
      yieldOccurred := ResumeAll();
      CatchUpEnds(before, k, ticks);
    }

    /** vTaskSwitchContext */
    method SwitchContext()
      requires Steady(k) && Calm(k)
      modifies this
      ensures Steady(k) && Calm(k)
      ensures old(k).suspended != 0 ==> k == old(k).(yieldPending := true)
      ensures old(k).suspended == 0 ==> Selected(old(k), k)
      ensures Step(old(k), if old(k).suspended == 0 then Label.SwitchContext else Label.SwitchPended, k)
    {
      hide Core, Calm, Counted, Selected, NoneAbove;
      if k.suspended != 0 {
        YieldApart(k);
        k := k.(yieldPending := true);
      } else {
        Parts(k);
        TopBounds(k);
        var topPriority := k.topReady;
        assert IsPlace(Ready(topPriority));
        while k.tasks.lists[Ready(topPriority)].items == []
          invariant 0 <= topPriority < MAX_PRIORITIES && Ready(topPriority) in k.tasks.lists
          invariant k == old(k) && NoneAbove(k, topPriority)
          decreases topPriority
        {
          assert topPriority > 0;
          EmptyBelow(k, topPriority);
          topPriority := topPriority - 1;
          assert IsPlace(Ready(topPriority));
        }
        SelectKeeps(k, topPriority);
        k := Select(k, topPriority);
      }
    }

    // ---------- Delaying and changing priority ----------

    /** vTaskDelay: a task that asks for no delay only yields.  The task is delayed from the state in
        which it asks, and then the ticks are counted that arrive before the scheduler resumes. */
    method TaskDelay(ticks: Tick, arriving: Tick) returns (alreadyYielded: bool, ghost asleep: K)
      requires Valid(k) && k.suspended == 0 && CanBlock(k)
      modifies this
      ensures Valid(k) && k.suspended == 0
      ensures ticks == 0 ==> k == old(k) && !alreadyYielded
      ensures ticks > 0 ==> CurrentBlocked(old(k), asleep, ticks, false) && TicksLater(asleep, k, arriving)
      ensures ticks > 0 ==> alreadyYielded == k.yieldPending && YieldsAfter(asleep, k, arriving)
    {
      hide Core, Counted, Calm, Resumed, CurrentBlocked, TicksLater, CanBlock, ResumeYields, YieldsAfter;
      alreadyYielded, asleep := false, k;
      if ticks > 0 {
        ghost var before := k;
        SuspendAll();
        ghost var mid := k;
        CanBlockApart(before, mid);
        Block(ticks, false);
        ghost var blocked := k;
        NonePended(before, mid, blocked, ticks);
        for i := 0 to arriving
          invariant k == blocked.(pendedTicks := i) && Steady(k) && Calm(k)
        {
          var switchRequired := IncrementTick();
        }
        asleep := blocked.(suspended := 0);
        alreadyYielded := ResumeAll();
        DelayedThenTicks(before, mid, blocked, k, ticks, arriving);
      }
    }

    /** The part of priority inheritance and disinheritance that the scheduler sees. */
    method Reprioritise(t: Task, priority: int)
      requires Steady(k) && Calm(k) && t in k.tasks.home && t != k.idle && 0 <= priority < MAX_PRIORITIES
      modifies this
      ensures Steady(k) && Calm(k) && k.current == old(k).current && k.suspended == old(k).suspended
      ensures k.priority == old(k).priority[t := priority] && k.events == old(k).events && k.idle == old(k).idle
      ensures k.wake == old(k).wake && k.yieldPending == old(k).yieldPending && SameClock(old(k), k)
      ensures old(k).tasks.home[t].Ready? ==> AtEnd(old(k).tasks, k.tasks, t, Ready(priority))
      ensures !old(k).tasks.home[t].Ready? ==> k.tasks == old(k).tasks
      ensures Step(old(k), Label.Reprioritise(t, priority), k)
    {
      hide Core, Calm, Counted, KernelState.Reprioritise, AtEnd;
      ReprioritiseSteady(k, t, priority);
      ReprioritiseFields(k, t, priority);
      ReprioritiseMoves(k, t, priority);
      k := KernelState.Reprioritise(k, t, priority);
    }

    // ---------- Creating and deleting tasks ----------

    /** prvAddNewTaskToReadyList */
    method AddNewTask(t: Task, priority: int)
      requires Steady(k) && Calm(k) && t !in k.tasks.home && 0 <= priority < MAX_PRIORITIES
      modifies this
      ensures Steady(k) && Calm(k) && k.tasks.home == old(k).tasks.home[t := Ready(priority)]
      ensures k.events == old(k).events && k.current == old(k).current && k.suspended == old(k).suspended
      ensures k.wake == old(k).wake && SameClock(old(k), k) && k.priority == old(k).priority[t := priority]
      ensures k.idle == old(k).idle && k.yieldPending == old(k).yieldPending
      ensures k.numberOfTasks == old(k).numberOfTasks + 1 && Joins(old(k).tasks, k.tasks, t, Ready(priority))
      ensures Step(old(k), Label.Create(t, priority), k)
    {
      Parts(k);
      CreateSteady(k, t, priority);
      assert IsPlace(Ready(priority));
      hide Core, Calm, Counted, Step, Joins;
      k := KernelState.Create(k, t, priority).(numberOfTasks := k.numberOfTasks + 1);
      CreateIsStep(old(k), k, t, priority);
    }

    /** vTaskDelete: the running task only moves to the termination list; any other task is gone. */
    method Delete(t: Task)
      requires Steady(k) && Calm(k) && t in k.tasks.home && t != k.idle
      requires t == k.current ==> CanBlock(k)
      modifies this
      ensures Core(k) && Calm(k) && SameClock(old(k), k)
      ensures Counted(k) <==> old(k).tasks.home[t] != Termination
      ensures k.wake == old(k).wake - {t} && k.events.Valid() && k.events.home == old(k).events.home - {t}
      ensures k.priority == old(k).priority && k.current == old(k).current && k.suspended == old(k).suspended
      ensures k.idle == old(k).idle && k.yieldPending == old(k).yieldPending
      ensures EventsLeft(old(k), k, t)
      ensures t == old(k).current ==>
                && k.tasks.home == old(k).tasks.home[t := Termination] && k.deletedWaiting == old(k).deletedWaiting + 1
                && k.numberOfTasks == old(k).numberOfTasks && AtEnd(old(k).tasks, k.tasks, t, Termination)
      ensures t != old(k).current ==>
                && k.tasks.home == old(k).tasks.home - {t} && k.deletedWaiting == old(k).deletedWaiting
                && k.numberOfTasks == old(k).numberOfTasks - 1 && Leaves(old(k).tasks, k.tasks, t)
      ensures Step(old(k), Label.Delete(t), k)
    {
      hide Core, Calm, Counted, Step, StaysOrdered, AtEnd, Leaves, CanBlock, Relocate, Drop, SameBut;
      hide Forget, Without;
      if t == k.current {
        CanBlockParts(k);
        DeleteSelfSteady(k);
        RelocateFields(k, t, Termination);
        RelocateSizes(k, t, Termination);
        ForgetLeaves(k, Relocate(k, t, Termination), t);
        k := Relocate(k, t, Termination).(deletedWaiting := k.deletedWaiting + 1);
      } else {
        DropSteady(k, t, false);
        DropFields(k, t);
        DropSizes(k, t);
        ForgetLeaves(k, Drop(k, t), t);
        k := Drop(k, t).(numberOfTasks := k.numberOfTasks - 1);
        ResetKeeps(k);
        k := ResetUnblockTime(k);
      }
      Parts(k);
      DeleteIsStep(old(k), k, t);
    }

    /** prvCheckTasksWaitingTermination, which the idle task runs. */
    method CheckTasksWaitingTermination()
      requires Steady(k) && Calm(k) && k.current == k.idle
      modifies this
      ensures Steady(k) && Calm(k) && k.deletedWaiting == 0 && SameClock(old(k), k) && k.wake == old(k).wake
      ensures k.current == k.idle == old(k).idle && k.priority == old(k).priority && k.suspended == old(k).suspended
      ensures k.events == old(k).events && k.yieldPending == old(k).yieldPending
      ensures forall t :: t in k.tasks.home <==> t in old(k).tasks.home && old(k).tasks.home[t] != Termination
      ensures forall t | t in k.tasks.home :: k.tasks.home[t] == old(k).tasks.home[t]
      ensures k.numberOfTasks == old(k).numberOfTasks - old(k).deletedWaiting
      ensures SameBut(old(k).tasks, k.tasks, Termination)
      ensures Step(old(k), Label.CleanUp, k)
    {
      hide Core, Calm, Drop, ListOrdered, SameBut, Leaves, Directory.Valid;
      assert SameBut(k.tasks, k.tasks, Termination) by { SameAtAll(k.tasks, Termination); }
      while k.deletedWaiting > 0
        invariant Steady(k) && Calm(k) && k.current == k.idle && SameClock(old(k), k) && k.wake == old(k).wake
        invariant k.idle == old(k).idle && k.priority == old(k).priority && k.suspended == old(k).suspended
        invariant k.events == old(k).events && k.yieldPending == old(k).yieldPending
        invariant 0 <= k.deletedWaiting <= old(k).deletedWaiting && OrderKept(old(k), k)
        invariant k.numberOfTasks - k.deletedWaiting == old(k).numberOfTasks - old(k).deletedWaiting
        invariant forall t | t in k.tasks.home :: t in old(k).tasks.home && k.tasks.home[t] == old(k).tasks.home[t]
        invariant forall t | t in old(k).tasks.home && old(k).tasks.home[t] != Termination :: t in k.tasks.home
        invariant SameBut(old(k).tasks, k.tasks, Termination)
      {
        var t := k.tasks.lists[Termination].items[0];
        DeadHead(k);
        DropSteady(k, t, true);
        DropFields(k, t);
        SameButMore(old(k).tasks, k.tasks, Drop(k, t).tasks, Termination);
        assert k.wake - {t} == k.wake;
        k := Drop(k, t).(numberOfTasks := k.numberOfTasks - 1, deletedWaiting := k.deletedWaiting - 1);
      }
      NoneDead(k);
    }
  }
}
