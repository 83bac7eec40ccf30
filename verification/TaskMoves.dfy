/** What blocking, resuming and deleting do to the tasks of the kernel. */
module TaskMoves {
  import opened Ticks
  import opened Rings
  import opened Directories
  import opened SortedDirectories
  import opened DelayedLists
  import opened EventLists
  import opened KernelState
  import opened TickCounting
  import opened WakingOrder

  // ---------- Blocking ----------

  ghost predicate CanBlock(k: K) {
    k.current in k.tasks.home && k.tasks.home[k.current].Ready? && k.current != k.idle
  }

  /** `t` has left its list for list q, where it stands at its wake time v; no other task moved. */
  ghost predicate Asleep(before: Lists, after: Lists, value: map<Task, int>, t: Task, q: Place, v: int) {
    before.Valid() && t in before.home && before.home[t] != q && JoinedSorted(before.Remove(t), after, q, value, t, v)
  }

  /** The current task has left the ready lists; no other task moved.  With `forever` it waits
      without limit, otherwise until `ticks` from now in real time. */
  ghost predicate CurrentBlocked(before: K, after: K, ticks: Tick, forever: bool) {
    && after.now == before.now && after.current == before.current && after.priority == before.priority
    && SameControl(before, after)
    && after.current in after.tasks.home
    && after.tasks.home == before.tasks.home[after.current := after.tasks.home[after.current]]
    && (if forever
        then after.tasks.home[after.current] == Suspended && after.wake == before.wake
             && AtEnd(before.tasks, after.tasks, after.current, Suspended)
        else after.tasks.home[after.current] in {after.delayed, after.overflow}
             && after.wake == before.wake[after.current := before.now + ticks]
             && Asleep(before.tasks, after.tasks, before.value, after.current, after.tasks.home[after.current],
                       Residue(before.now + ticks)))
  }

  lemma DelaySleeps(k: K, ticks: Tick)
    requires Core(k) && CanBlock(k)
    ensures Asleep(k.tasks, Delay(k, ticks).tasks, k.value, k.current,
                   ListFor(k.delayed, k.overflow, k.now, ticks), Residue(k.now + ticks))
  {
    hide Core, Delay, SortIn, JoinedSorted, Agrees, Directory.Valid;
    DelayShape(k, ticks);
    DelayRest(k, ticks);
    AddIsReal(k.now, ticks);
    var q := ListFor(k.delayed, k.overflow, k.now, ticks);
    SortInJoins(k.tasks.Remove(k.current), q, k.current, k.value, Residue(k.now + ticks));
  }

  lemma CurrentNotWaiting(k: K)
    requires Core(k) && CanBlock(k)
    ensures k.current !in k.wake && k.current !in k.events.home
  {}

  lemma DelayCounted(k: K, ticks: Tick)
    requires Core(k) && Counted(k) && CanBlock(k)
    ensures Counted(Delay(k, ticks))
  {
    hide Runnable, Waiting, Agrees, Directory.ListOk, Directory.Valid, SortIn, Directory.Remove;
    Parts(k);
    DelayShape(k, ticks);
    DelayRest(k, ticks);
    Parts(Delay(k, ticks)) by { DelayKeeps(k, ticks); }
  }

  lemma DelayControl(k: K, ticks: Tick)
    requires Core(k)
    ensures SameControl(k, Delay(k, ticks))
  {}

  lemma DelayBlocks(k: K, ticks: Tick)
    requires Core(k) && CanBlock(k)
    ensures CurrentBlocked(k, Delay(k, ticks), ticks, false)
    ensures Delay(k, ticks).events == k.events
  {
    hide Core, Delay, ListFor, SortIn, IsBlocked, Add, Residue, Agrees, Directory.Remove, Directory.Valid, Asleep;
    CurrentNotWaiting(k);
    DelayRest(k, ticks);
    DelayShape(k, ticks);
    DelaySleeps(k, ticks);
    DelayControl(k, ticks);
    assert k.wake - {k.current} == k.wake;
  }

  lemma BlockForTicks(k: K, ticks: Tick)
    requires Steady(k) && Calm(k) && CanBlock(k)
    ensures Steady(Delay(k, ticks)) && CurrentBlocked(k, Delay(k, ticks), ticks, false)
    ensures Calm(Delay(k, ticks)) <==> !(ticks == 0 && k.tickCount == MAX_DELAY)
    ensures Delay(k, ticks).events == k.events
  {
    hide Core, Calm, Counted, Delay, CanBlock;
    assert k.current != k.idle && k.tickCount == Residue(k.now) by { CanBlockParts(k); }
    DelayKeeps(k, ticks);
    DelayCounted(k, ticks);
    DelayRest(k, ticks);
    DelayBlocks(k, ticks);
  }

  lemma CanBlockParts(k: K)
    requires Core(k) && CanBlock(k)
    ensures k.current != k.idle && k.tickCount == Residue(k.now) && k.current in k.tasks.home
    ensures k.tasks.home[k.current] != Termination
  {}

  lemma BlockForever(k: K)
    requires Steady(k) && Calm(k) && CanBlock(k)
    ensures IsExit(k, k.current, Suspended)
    ensures var after := Relocate(k, k.current, Suspended);
            Steady(after) && Calm(after) && CurrentBlocked(k, after, MAX_DELAY, true) && after.events == k.events
  {
    hide Core, Calm, Relocate;
    CanBlockParts(k);
    CurrentNotWaiting(k);
    RelocateKeeps(k, k.current, Suspended);
    RelocateSizes(k, k.current, Suspended);
    RelocateFields(k, k.current, Suspended);
    assert k.wake - {k.current} == k.wake;
  }

  lemma CanBlockApart(k: K, after: K)
    requires CanBlock(k) && after == k.(suspended := 1)
    ensures CanBlock(after)
  {}

  lemma NonePended(before: K, mid: K, blocked: K, ticks: Tick)
    requires Valid(before) && before.suspended == 0 && mid == before.(suspended := 1)
    requires CurrentBlocked(mid, blocked, ticks, false)
    ensures blocked.suspended == 1 && blocked.pendedTicks == 0 && blocked == blocked.(pendedTicks := 0)
  {
    hide Core, Calm, Counted;
  }

  /** A delay with the scheduler suspended, and so many ticks before it resumes with nothing pending. */
  lemma DelayedThenTicks(before: K, mid: K, blocked: K, after: K, ticks: Tick, arriving: Tick)
    requires Valid(before) && before.suspended == 0 && CanBlock(before) && mid == before.(suspended := 1)
    requires CurrentBlocked(mid, blocked, ticks, false) && Core(blocked) && blocked.events == mid.events
    requires Resumed(blocked.(pendedTicks := arriving), after)
    ensures CurrentBlocked(before, blocked.(suspended := 0), ticks, false)
    ensures TicksLater(blocked.(suspended := 0), after, arriving) && after.suspended == 0 && after.pendedTicks == 0
    ensures ResumeYields(blocked.(pendedTicks := arriving), after)
            ==> YieldsAfter(blocked.(suspended := 0), after, arriving)
  {
    hide Core, Calm, Counted, Resumed, TicksLater, CurrentBlocked, CanBlock, ResumeYields, YieldsAfter;
    NonePended(before, mid, blocked, ticks);
    BlockedAsRunning(before, blocked, ticks);
    RunningAgain(before, blocked);
    NothingLeft(blocked.(pendedTicks := arriving), after);
    var asleep := blocked.(suspended := 0);
    assert blocked.(pendedTicks := arriving) == asleep.(suspended := 1, pendedTicks := arriving);
    CatchUpEnds(asleep, after, arriving);
  }

  lemma BlockedAsRunning(before: K, blocked: K, ticks: Tick)
    requires CurrentBlocked(before.(suspended := 1), blocked, ticks, false) && before.suspended == 0
    ensures CurrentBlocked(before, blocked.(suspended := 0), ticks, false)
  {}

  lemma NothingLeft(before: K, after: K)
    requires Resumed(before, after)
    ensures after.suspended == 0 && after.pendedTicks == 0
  {
    hide InTurn, PendingInTurn;
  }

  lemma RunningAgain(before: K, blocked: K)
    requires Core(before) && before.suspended == 0 && Core(blocked) && blocked.events == before.events
    ensures Core(blocked.(suspended := 0))
  {
    hide Agrees;
  }

  /** Having blocked, the current task can go on an event list. */
  lemma BlockedCurrent(before: K, k: K, ticks: Tick, forever: bool)
    requires Core(before) && CanBlock(before) && Core(k) && CurrentBlocked(before, k, ticks, forever)
    requires k.events == before.events
    ensures k.current == before.current && k.current in k.tasks.home && IsBlocked(k.tasks.home[k.current])
    ensures k.current !in k.events.home && k.priority == before.priority
  {
    hide Runnable;
  }

  /** The current task has joined event list e behind the waiters of at least its priority. */
  ghost predicate Enlisted(before: K, after: K, e: int) {
    && before.events.Valid() && e in before.events.lists && before.current !in before.events.home
    && before.current in before.priority && 0 <= before.priority[before.current] < MAX_PRIORITIES
    && var t := before.current;
    && after.events == before.events.InsertAt(e, PriorityPlace(before.events, before.priority, e, t), t)
    && JoinedByPriority(before.events.lists[e].items, after.events.lists[e].items, before.priority, t)
  }

  lemma EnlistedAt(before: K, k: K, e: int, t: Task)
    requires Core(before) && k.events == before.events && k.priority == before.priority && t == before.current
    requires e in before.events.lists && t !in before.events.home
    ensures k.events.Valid() && t in k.priority && 0 <= k.priority[t] < MAX_PRIORITIES
    ensures Enlisted(before, Enlist(k, e, PriorityPlace(k.events, k.priority, e, t), t), e)
  {
    hide PriorityPlace, Core, JoinedByPriority, Directory.Valid;
    Parts(before);
    PlacedByPriority(before.events, before.priority, e, t);
  }

  lemma BlockedParts(before: K, k: K, ticks: Tick, forever: bool)
    requires CurrentBlocked(before, k, ticks, forever)
    ensures k.priority == before.priority && k.current == before.current
  {}

  lemma BlockedApart(before: K, k: K, ticks: Tick, forever: bool, events: Directory<int>)
    requires CurrentBlocked(before, k, ticks, forever)
    ensures CurrentBlocked(before, k.(events := events), ticks, forever)
  {}

  /** Having blocked, the current task goes on event list e. */
  lemma JoinsList(before: K, k: K, e: int, ticks: Tick, forever: bool)
    requires Core(before) && CanBlock(before) && Steady(k) && e in before.events.lists && e != PENDING
    requires CurrentBlocked(before, k, ticks, forever) && k.events == before.events
    ensures k.events.Valid() && e in k.events.lists && k.current !in k.events.home
    ensures k.current in k.priority && 0 <= k.priority[k.current] < MAX_PRIORITIES
    ensures var after := Enlist(k, e, PriorityPlace(k.events, k.priority, e, k.current), k.current);
            && Steady(after) && (Calm(after) <==> Calm(k)) && OrderKept(before, after)
            && CurrentBlocked(before, after, ticks, forever) && Enlisted(before, after, e)
  {
    hide Core, Calm, CurrentBlocked, ListOrdered, Enlisted, PriorityPlace, Directory.Valid;
    Parts(k);
    BlockedCurrent(before, k, ticks, forever);
    var i := PriorityPlace(k.events, k.priority, e, k.current);
    EnlistKeeps(k, e, i, k.current);
    EnlistedAt(before, k, e, k.current);
    OrderedAfterInsert(k.events, k.priority, e, k.current);
    BlockedApart(before, k, ticks, forever, k.events.InsertAt(e, i, k.current));
  }

  // ---------- Waking from an event list ----------

  lemma WaiterParts(k: K, e: int)
    requires Steady(k) && e in k.events.lists && e != PENDING && k.events.lists[e].items != []
    ensures var t := k.events.lists[e].items[0];
            && t in k.tasks.home && IsBlocked(k.tasks.home[t]) && t in k.priority && k.current in k.priority
            && t in k.events.home && k.events.home[t] == e
            && (forall u | u in k.events.lists[e].items :: u in k.priority)
            && (ListOrdered(k.events, k.priority, e)
                ==> forall u | u in k.events.lists[e].items :: k.priority[u] <= k.priority[t])
  {
    hide OnTime, Counted, ListOrdered;
    assert k.events.ListOk(e);
    forall u | u in k.events.lists[e].items ensures u in k.priority {
      assert u in k.events.home && u in k.tasks.home;
    }
    if ListOrdered(k.events, k.priority, e) { HeadIsHighest(k.events, k.priority, e); }
  }

  /** The event list item of `t` has left its list for the end of xPendingReadyList. */
  ghost predicate Pended(before: Directory<int>, after: Directory<int>, t: Task) {
    && PENDING in before.lists && after.lists.Keys == before.lists.Keys
    && forall e | e in before.lists ::
         after.lists[e].items == Without(before.lists[e].items, [t]) + if e == PENDING then [t] else []
  }

  lemma PendingUnwalked(k: K)
    requires Core(k)
    ensures PENDING in k.events.lists && k.events.Valid() && k.events.lists[PENDING].at == 0
  {
    hide OnTime, Runnable;
  }

  lemma PendListed(k: K, t: Task)
    requires Core(k) && t in k.events.home
    ensures PENDING in k.events.lists && k.events.Valid() && PENDING in Forget(k.events, t).lists
    ensures Pended(k.events, Forget(k.events, t).InsertEnd(PENDING, t), t)
  {
    hide Core, Forget, Without, Directory.Valid;
    PendingUnwalked(k);
    ForgetKeeps(k, t);
    PendingUnwalked(k.(events := Forget(k.events, t)));
    forall e | e in k.events.lists ensures Forget(k.events, t).lists[e].items == Without(k.events.lists[e].items, [t]) {
      EventListsLeft(k.events, t, e);
    }
  }

  lemma PendKeeps(k: K, t: Task)
    requires Steady(k) && Calm(k) && k.suspended > 0 && t in k.events.home
    ensures k.events.Valid() && PENDING in Forget(k.events, t).lists
    ensures var after := k.(events := Forget(k.events, t).InsertEnd(PENDING, t));
            && Steady(after) && Calm(after) && after.events.Valid() && OrderKept(k, after)
            && after.events.home == k.events.home[t := PENDING] && Pended(k.events, after.events, t)
  {
    hide OnTime, Runnable, Waiting, Calm, Directory.Valid, Directory.ListOk, Directory.Remove, Pended;
    Parts(k);
    PendListed(k, t);
    WaiterBlocked(k, t);
    ForgetKeeps(k, t);
    OrderedAfterForget(k.events, k.priority, t);
    var mid := k.(events := Forget(k.events, t));
    Parts(mid);
    var ring := mid.events.lists[PENDING];
    ListRing(mid.events, PENDING);
    EnlistKeeps(mid, PENDING, if ring.at == 0 then |ring.items| else ring.at - 1, t);
    OrderedAfterPend(mid.events, k.priority, t);
  }

  lemma WaiterBlocked(k: K, t: Task)
    requires Core(k) && t in k.events.home
    ensures t in k.tasks.home && IsBlocked(k.tasks.home[t])
  {}

  lemma YieldApart(k: K)
    requires Steady(k) && Calm(k)
    ensures Steady(k.(yieldPending := true)) && Calm(k.(yieldPending := true))
  {
    hide Core, Calm;
    CountersApart(k, k.numberOfTasks, k.deletedWaiting, true);
  }

  // ---------- A run of ticks ----------

  /** What n counted ticks do: as OneTickLater, n times. */
  ghost predicate TicksLater(before: K, after: K, n: nat) {
    && after.now == before.now + n && after.idle == before.idle
    && after.tasks.home.Keys == before.tasks.home.Keys
    && after.priority == before.priority && after.current == before.current
    && (forall t | t in before.tasks.home :: t in after.tasks.home && t in after.priority &&
          after.tasks.home[t] == if n > 0 && t in before.wake && before.wake[t] <= after.now
                                 then Ready(after.priority[t]) else before.tasks.home[t])
    && (forall t :: t in after.wake <==> t in before.wake && !(n > 0 && before.wake[t] <= after.now))
    && (forall t | t in after.wake :: after.wake[t] == before.wake[t])
    && EventsKept(before, after)
    && InTurn(LineupOf(before), LineupOf(after), before.priority, [])
  }

  lemma NoTicks(k: K)
    requires Core(k)
    ensures TicksLater(k, k, 0)
  {
    CoreWhole(k);
    NoneReadied(LineupOf(k), k.priority);
    hide BecameReady;
    assert InTurn(LineupOf(k), LineupOf(k), k.priority, []);
    hide InTurn;
  }

  lemma OneMoreTickLater(a: K, b: K, c: K, n: nat)
    requires Core(a) && TicksLater(a, b, n) && OneTickLater(b, c) && SameControl(b, c)
    ensures TicksLater(a, c, n + 1)
    ensures c.priority == a.priority && c.current == a.current
  {
    hide InTurn;
    assert forall t | t in a.wake :: t in a.tasks.home by { hide Runnable, Waiting; }
    OneMoreTick(a, b, c, n);
  }

  lemma FewerAsleep(a: K, b: K)
    requires OneTickLater(a, b)
    ensures forall t | t in b.wake :: t in a.wake
  {
    hide InTurn;
  }

  lemma PendedIrrelevant(before: K, k: K, n: nat)
    requires TicksLater(before, k, n)
    ensures TicksLater(before, k.(pendedTicks := 0), n)
    ensures YieldsAfter(before, k, n) ==> YieldsAfter(before, k.(pendedTicks := 0), n)
  {
    hide InTurn;
  }

  lemma OneMoreTick(a: K, b: K, c: K, n: nat)
    requires TicksLater(a, b, n) && OneTickLater(b, c) && SameControl(b, c)
    requires forall t | t in a.wake :: t in a.tasks.home
    ensures TicksLater(a, c, n + 1)
  {
    hide InTurn;
    InTurnMore(LineupOf(a), LineupOf(b), LineupOf(c), a.priority);
  }

  // ---------- Draining the pending list ----------

  ghost predicate IsPending(k: K, t: Task) { t in k.events.home && k.events.home[t] == PENDING }

  /** Part of the way through the loop of xTaskResumeAll that empties xPendingReadyList. */
  ghost predicate Draining(before: K, k: K) {
    && k.now == before.now && k.priority == before.priority && k.current == before.current && k.idle == before.idle
    && k.suspended == before.suspended && k.pendedTicks == before.pendedTicks
    && k.tasks.home.Keys == before.tasks.home.Keys
    && (forall t | IsPending(k, t) :: IsPending(before, t))
    && (forall t | t in before.tasks.home :: t in k.tasks.home && t in k.priority &&
          k.tasks.home[t] == if IsPending(before, t) && !IsPending(k, t)
                             then Ready(k.priority[t]) else before.tasks.home[t])
    && (forall t :: t in k.wake <==> t in before.wake && !(IsPending(before, t) && !IsPending(k, t)))
    && (forall t | t in k.wake :: k.wake[t] == before.wake[t])
    && EventsKept(before, k)
    && PendingInTurn(LineupOf(before), LineupOf(k), before.priority)
  }

  lemma DrainBegins(k: K)
    requires Core(k)
    ensures Draining(k, k)
  {
    PendingNone(k);
    hide PendingInTurn;
  }

  lemma PendingHead(k: K)
    requires Core(k) && k.events.lists[PENDING].items != []
    ensures var t := k.events.lists[PENDING].items[0];
            IsPending(k, t) && t in k.tasks.home && IsBlocked(k.tasks.home[t]) && t in k.priority && t != k.idle
  {}

  lemma PendingHoused(k: K, t: Task)
    requires IsPending(k, t)
    ensures t in k.events.home
  {}

  lemma DrainOne(before: K, k: K, t: Task)
    requires Core(k) && Draining(before, k) && IsPending(k, t) && t in k.tasks.home
    requires k.events.lists[PENDING].items != [] && t == k.events.lists[PENDING].items[0]
    ensures Draining(before, Unblock(k, t))
    ensures !IsPending(Unblock(k, t), t) && forall u | u != t :: IsPending(k, u) <==> IsPending(Unblock(k, t), u)
  {
    hide Core, Unblock, AtEnd, EventsKept, PendingInTurn;
    UnblockFields(k, t);
    PendingMore(LineupOf(before), k, t, k.priority);
    EventsKeptOnWaking(before, k, Unblock(k, t), t);
  }

  lemma Drained(k: K)
    requires Steady(k) && k.events.lists[PENDING].items == []
    ensures forall t :: !IsPending(k, t)
    ensures Steady(k.(suspended := 0)) && (Calm(k) ==> Calm(k.(suspended := 0)))
  {
    assert k.events.ListOk(PENDING);
    hide Agrees;
  }

  /** What the outermost xTaskResumeAll does: the pending tasks, and those whose wake time passes
      with the pended ticks, are ready, in this order; the others are where they were. */
  ghost predicate Resumed(before: K, after: K) {
    && after.now == before.now + before.pendedTicks
    && after.suspended == 0 && after.pendedTicks == 0 && after.idle == before.idle
    && after.tasks.home.Keys == before.tasks.home.Keys
    && after.priority == before.priority && after.current == before.current
    && (forall t | t in before.tasks.home :: t in after.tasks.home && t in after.priority &&
          after.tasks.home[t] == if Readied(before, t) then Ready(after.priority[t]) else before.tasks.home[t])
    && (forall t :: t in after.wake <==> t in before.wake && !Readied(before, t))
    && (forall t | t in after.wake :: after.wake[t] == before.wake[t])
    && EventsKept(before, after) && PENDING in before.events.lists
    && InTurn(LineupOf(before), LineupOf(after), before.priority, before.events.lists[PENDING].items)
  }

  ghost predicate Readied(before: K, t: Task) {
    || IsPending(before, t)
    || (before.pendedTicks > 0 && t in before.wake && before.wake[t] <= before.now + before.pendedTicks)
  }

  lemma ResumeEnds(before: K, mid: K, k: K)
    requires Draining(before, mid) && (forall t :: !IsPending(mid, t)) && mid.events.lists[PENDING].items == []
    requires before.pendedTicks >= 0 && k.pendedTicks == 0 && k.suspended == 0
    requires TicksLater(mid.(suspended := 0), k, before.pendedTicks)
    ensures Resumed(before, k)
  {
    hide InTurn, PendingInTurn, BecameReady;
    assert PENDING in before.events.lists by { PendingListed(before, mid); }
    PendingDone(LineupOf(before), LineupOf(mid), before.priority);
    InTurnAfter(LineupOf(before), LineupOf(mid), LineupOf(k), before.priority, before.events.lists[PENDING].items);
  }

  lemma PendingListed(before: K, k: K)
    requires PendingInTurn(LineupOf(before), LineupOf(k), before.priority)
    ensures PENDING in before.events.lists && PENDING in k.events.lists
  {
    hide BecameReady;
  }

  lemma PendingBefore(before: K, k: K, t: Task)
    requires Draining(before, k) && IsPending(k, t)
    ensures IsPending(before, t)
  {
    hide PendingInTurn;
  }

  lemma DrainMeasure(k: K, t: Task)
    requires Core(k) && t in k.tasks.home && t in k.events.home
    ensures k.events.Valid() && Unblock(k, t).events.home.Keys < k.events.home.Keys
  {}

  // ---------- Whether resuming switches tasks ----------

  /** More than one task is ready at the priority of the current one. */
  ghost predicate Shared(k: K) {
    && k.current in k.priority && Ready(k.priority[k.current]) in k.tasks.lists
    && |k.tasks.lists[Ready(k.priority[k.current])].items| > 1
  }

  /** After n ticks a switch is asked for exactly if it was before, or a task of higher priority than
      the current one has been woken, or the current one shares its priority. */
  ghost predicate YieldsAfter(before: K, after: K, n: nat) {
    after.yieldPending <==>
      || before.yieldPending
      || (exists t :: t in before.wake && t !in after.wake && Preempts(before, t))
      || (n > 0 && Shared(after))
  }

  lemma NoTickYields(k: K)
    ensures YieldsAfter(k, k, 0)
  {}

  lemma StillShared(a: K, b: K)
    requires Core(a) && OneTickLater(a, b) && Shared(a)
    ensures Shared(b)
  {
    hide Core;
    Parts(a);
    var p := a.priority[a.current];
    assert b.priority == a.priority && b.current == a.current && 0 <= p < MAX_PRIORITIES;
    var woken :| BecameReady(LineupOf(a), LineupOf(b), a.priority, [], woken);
    assert IsPlace(Ready(p));
  }

  lemma OneMoreTickYields(a: K, b: K, c: K, n: nat, switchRequired: bool)
    requires Core(a) && Core(b) && OneTickLater(b, c) && YieldsAfter(a, b, n) && c.yieldPending == b.yieldPending
    requires b.priority == a.priority && b.current == a.current && c.current in c.priority
    requires (forall t | t in b.wake :: t in a.wake) && Ready(c.priority[c.current]) in c.tasks.lists
    requires switchRequired <==> TickSwitches(b, c)
    ensures YieldsAfter(a, c.(yieldPending := c.yieldPending || switchRequired), n + 1)
  {
    hide Core, InTurn, StaysOrdered;
    if Shared(b) { StillShared(b, c); }
    var after := c.(yieldPending := c.yieldPending || switchRequired);
    forall t ensures t in a.wake && t !in after.wake && Preempts(a, t) <==>
                       (t in a.wake && t !in b.wake && Preempts(a, t)) || (Due(b, t) && Preempts(b, t)) {
    }
    assert Shared(after) <==> Shared(c);
  }

  /** The variables that ticks and draining do not read. */
  lemma YieldIrrelevant(before: K, k: K, n: nat)
    ensures var after := k.(yieldPending := true);
            && (Draining(before, k) ==> Draining(before, after))
            && (TicksLater(before, k, n) ==> TicksLater(before, after, n))
            && (forall t :: IsPending(after, t) <==> IsPending(k, t))
  {
    hide InTurn, PendingInTurn;
  }

  lemma ResetIrrelevant(before: K, k: K)
    requires Core(k) && Draining(before, k)
    ensures Draining(before, ResetUnblockTime(k))
    ensures forall t :: IsPending(ResetUnblockTime(k), t) <==> IsPending(k, t)
    ensures ResetUnblockTime(k).yieldPending == k.yieldPending
    ensures ResetUnblockTime(k).events == k.events
  {
    hide Core, PendingInTurn;
  }

  /** The outermost xTaskResumeAll switches tasks exactly if that was asked for before, or a task of
      higher priority than the current one has become ready, or ticks were pended and the current one
      shares its priority. */
  ghost predicate ResumeYields(before: K, after: K) {
    after.yieldPending <==>
      || before.yieldPending
      || (exists t :: Readied(before, t) && Preempts(before, t))
      || (before.pendedTicks > 0 && Shared(after))
  }

  /** The pended tasks that are ready preempt exactly if that asked for a switch. */
  ghost predicate DrainYields(before: K, k: K) {
    k.yieldPending <==>
      || before.yieldPending
      || exists t :: IsPending(before, t) && !IsPending(k, t) && Preempts(before, t)
  }

  lemma DrainYieldsAtFirst(k: K)
    ensures DrainYields(k, k)
  {}

  lemma DrainOneYields(before: K, k: K, after: K, t: Task)
    requires DrainYields(before, k) && IsPending(before, t) && IsPending(k, t) && !IsPending(after, t)
    requires forall u | u != t :: IsPending(k, u) <==> IsPending(after, u)
    requires after.yieldPending == (k.yieldPending || Preempts(before, t))
    ensures DrainYields(before, after)
  {
    hide IsPending, Preempts;
  }

  lemma DrainSame(before: K, k: K, after: K)
    requires DrainYields(before, k) && after.yieldPending == k.yieldPending
    requires forall t :: IsPending(after, t) <==> IsPending(k, t)
    ensures DrainYields(before, after)
  {
    hide IsPending, Preempts;
  }

  /** The pended ticks are those left by the drained state. */
  lemma ResumeYielded(before: K, mid: K, k: K)
    requires Draining(before, mid) && (forall u :: !IsPending(mid, u)) && DrainYields(before, mid)
    requires before.pendedTicks >= 0 && TicksLater(mid.(suspended := 0), k, before.pendedTicks)
    requires YieldsAfter(mid.(suspended := 0), k, before.pendedTicks)
    ensures ResumeYields(before, k)
  {
    hide InTurn, PendingInTurn, Shared, StaysOrdered;
    var start := mid.(suspended := 0);
    forall t ensures Readied(before, t) && Preempts(before, t) <==>
                       (IsPending(before, t) && !IsPending(mid, t) && Preempts(before, t))
                       || (t in start.wake && t !in k.wake && Preempts(start, t)) {
    }
  }

  lemma NothingPending(k: K)
    requires Core(k) && k.suspended == 0
    ensures forall t | t in k.events.home :: k.events.home[t] != PENDING
    ensures PENDING in k.events.lists && k.events.lists[PENDING].items == []
  {
    hide OnTime, Runnable;
  }

  lemma CatchUpEnds(before: K, k: K, n: Tick)
    requires Core(before) && before.suspended == 0
    requires Resumed(before.(suspended := 1, pendedTicks := n), k)
    ensures TicksLater(before, k, n)
    ensures ResumeYields(before.(suspended := 1, pendedTicks := n), k) ==> YieldsAfter(before, k, n)
  {
    hide Core, InTurn, StaysOrdered;
    NothingPending(before);
  }

  lemma SuspendKeeps(k: K, n: int)
    requires Steady(k) && Calm(k) && n > 0
    ensures Steady(k.(suspended := n)) && Calm(k.(suspended := n))
  {
    hide Agrees;
  }

  lemma PendedKeeps(k: K, n: Tick)
    requires Steady(k) && Calm(k)
    ensures Steady(k.(pendedTicks := n)) && Calm(k.(pendedTicks := n))
  {}

  lemma DrainedFields(before: K, k: K)
    requires Draining(before, k)
    ensures k.pendedTicks == before.pendedTicks && k.priority == before.priority && k.current == before.current
  {
    hide InTurn, PendingInTurn;
  }

  lemma PreemptsApart(k: K, t: Task)
    ensures Preempts(k.(suspended := 0), t) <==> Preempts(k, t)
  {}

  // ---------- Choosing the task to run ----------

  /** No tick is counted, pended or dropped. */
  predicate SameClock(before: K, after: K) {
    after.now == before.now && after.pendedTicks == before.pendedTicks
  }

  /** A context switch chooses a ready task of the highest ready priority: the next one of its
      list after the one chosen there last. */
  ghost predicate Selected(before: K, after: K) {
    && SameClock(before, after) && after.wake == before.wake && after.priority == before.priority
    && after.events == before.events && after.suspended == before.suspended && after.idle == before.idle
    && after.tasks.home == before.tasks.home && !after.yieldPending
    && after.current in after.priority && after.current in after.tasks.home
    && (forall t | t in before.tasks.home && before.tasks.home[t].Ready? ::
          t in after.priority && after.priority[t] <= after.priority[after.current])
    && var p := Ready(after.priority[after.current]);
    && after.tasks.home[after.current] == p && after.topReady == p.priority
    && p in before.tasks.lists && before.tasks.lists[p].Valid() && before.tasks.lists[p].items != []
    && after.tasks.lists == before.tasks.lists[p := before.tasks.lists[p].Next()]
    && after.current == before.tasks.lists[p].Next().Current()
  }

  function Select(k: K, top: int): K
    requires k.tasks.Valid() && Ready(top) in k.tasks.lists && k.tasks.lists[Ready(top)].items != []
  {
    NextRotates(k.tasks.lists[Ready(top)]);
    var tasks := k.tasks.Walk(Ready(top));
    k.(yieldPending := false, tasks := tasks, current := tasks.lists[Ready(top)].Current(), topReady := top)
  }

  /** No ready task has a priority above `top`. */
  ghost predicate NoneAbove(k: K, top: int) {
    forall t | t in k.tasks.home && k.tasks.home[t].Ready? :: k.tasks.home[t].priority <= top
  }

  lemma TopBounds(k: K)
    requires Core(k)
    ensures 0 <= k.topReady < MAX_PRIORITIES && NoneAbove(k, k.topReady)
    ensures Ready(0) in k.tasks.lists && k.tasks.lists[Ready(0)].items != []
  {}

  lemma EmptyBelow(k: K, top: int)
    requires k.tasks.Valid() && NoneAbove(k, top) && Ready(top) in k.tasks.lists
    requires k.tasks.lists[Ready(top)].items == []
    ensures NoneAbove(k, top - 1)
  {}

  lemma SelectFields(k: K, top: int)
    requires Core(k) && NoneAbove(k, top) && 0 <= top < MAX_PRIORITIES
    requires Ready(top) in k.tasks.lists && k.tasks.lists[Ready(top)].items != []
    ensures k.tasks.Valid()
    ensures var after := Select(k, top);
            && after.current in k.tasks.home && k.tasks.home[after.current] == Ready(top)
            && after.current in k.priority && k.priority[after.current] == top
  {}

  lemma SelectAgrees(k: K, top: int)
    requires Core(k) && 0 <= top < MAX_PRIORITIES
    requires Ready(top) in k.tasks.lists && k.tasks.lists[Ready(top)].items != []
    ensures k.tasks.Valid() && OnTime(Select(k, top)) && Waiting(Select(k, top))
    ensures Calm(k) ==> Calm(Select(k, top))
  {
    hide Runnable;
  }

  lemma SelectKeeps(k: K, top: int)
    requires Steady(k) && NoneAbove(k, top) && 0 <= top < MAX_PRIORITIES
    requires Ready(top) in k.tasks.lists && k.tasks.lists[Ready(top)].items != []
    ensures k.tasks.Valid() && Steady(Select(k, top)) && Selected(k, Select(k, top))
    ensures Calm(k) ==> Calm(Select(k, top))
  {
    SelectFields(k, top);
    SelectAgrees(k, top);
    hide OnTime, Waiting, Calm, Directory.Valid;
    ListRing(k.tasks, Ready(top));
  }

  // ---------- Creating and deleting ----------

  /** The kernel's counters have no part in the invariants of the lists. */
  lemma CountersApart(k: K, tasks: int, deleted: int, yielding: bool)
    requires Core(k)
    ensures var after := k.(numberOfTasks := tasks, deletedWaiting := deleted, yieldPending := yielding);
            Core(after) && (Calm(k) ==> Calm(after))
  {}

  lemma RelocateSizes(k: K, t: Task, place: Place)
    requires Core(k) && t in k.tasks.home && IsExit(k, t, place) && k.tasks.home[t] != Termination
    ensures k.events.Valid() && Termination in k.tasks.lists
    ensures var after := Relocate(k, t, place);
            && Termination in after.tasks.lists && |after.tasks.home| == |k.tasks.home|
            && |after.tasks.lists[Termination].items|
               == |k.tasks.lists[Termination].items| + (if place == Termination then 1 else 0)
            && after.events == Forget(k.events, t) && after.priority == k.priority && SameControl(k, after)
  {
    hide OnTime, Runnable, Waiting, Directory.ListOk, Directory.Valid, Directory.Remove, Directory.InsertEnd;
    Parts(k);
    assert IsPlace(place) && IsPlace(Termination);
  }

  lemma DropSizes(k: K, t: Task)
    requires Core(k) && t in k.tasks.home
    ensures k.events.Valid() && Termination in k.tasks.lists
    ensures var after := Drop(k, t);
            && Termination in after.tasks.lists && |after.tasks.home| == |k.tasks.home| - 1
            && |after.tasks.lists[Termination].items|
               == |k.tasks.lists[Termination].items| - (if k.tasks.home[t] == Termination then 1 else 0)
            && after.events == Forget(k.events, t) && after.priority == k.priority && SameControl(k, after)
  {
    hide OnTime, Runnable, Waiting, Directory.ListOk, Directory.Valid, Directory.Remove;
    Parts(k);
    assert IsPlace(Termination);
    assert k.tasks.home.Keys == (k.tasks.home - {t}).Keys + {t};
  }

  lemma NewcomerOnNoEventList(k: K, t: Task)
    requires Core(k) && t !in k.tasks.home
    ensures t !in k.events.home && k.events.Valid()
  {}

  lemma CreateSteady(k: K, t: Task, p: int)
    requires Steady(k) && t !in k.tasks.home && 0 <= p < MAX_PRIORITIES
    ensures var after := Create(k, t, p).(numberOfTasks := k.numberOfTasks + 1);
            Steady(after) && (Calm(k) ==> Calm(after)) && OrderKept(k, after)
            && Joins(k.tasks, after.tasks, t, Ready(p))
  {
    hide OnTime, Runnable, Waiting, Calm, ListOrdered, Directory.ListOk, Directory.Valid, Directory.InsertEnd;
    Parts(k);
    assert IsPlace(Ready(p));
    CreateKeeps(k, t, p);
    CountersApart(Create(k, t, p), k.numberOfTasks + 1, k.deletedWaiting, k.yieldPending);
    NewcomerOnNoEventList(k, t);
    OrderedApart(k.events, k.priority, t, p);
  }

  /** A task that deletes itself waits on the termination list for the idle task. */
  lemma DeleteSelfSteady(k: K)
    requires Steady(k) && CanBlock(k)
    ensures IsExit(k, k.current, Termination)
    ensures var after := Relocate(k, k.current, Termination).(deletedWaiting := k.deletedWaiting + 1);
            Steady(after) && (Calm(k) ==> Calm(after)) && OrderKept(k, after)
  {
    hide Core, Calm, Relocate, ListOrdered;
    RelocateKeeps(k, k.current, Termination);
    RelocateSizes(k, k.current, Termination);
    CountersApart(Relocate(k, k.current, Termination), k.numberOfTasks, k.deletedWaiting + 1, k.yieldPending);
    OrderedAfterForget(k.events, k.priority, k.current);
  }

  /** A task gone for good is no longer counted, among the deleted ones either if `cleaning`. */
  lemma DropSteady(k: K, t: Task, cleaning: bool)
    requires Steady(k) && t in k.tasks.home && t != k.idle && t != k.current
    ensures var after := Drop(k, t).(numberOfTasks := k.numberOfTasks - 1,
                                     deletedWaiting := k.deletedWaiting - if cleaning then 1 else 0);
            && Core(after) && (Counted(after) <==> (cleaning <==> k.tasks.home[t] == Termination))
            && (Calm(k) ==> Calm(after)) && OrderKept(k, after)
  {
    hide Core, Calm, Drop, ListOrdered;
    DropKeeps(k, t);
    DropSizes(k, t);
    CountersApart(Drop(k, t), k.numberOfTasks - 1, k.deletedWaiting - if cleaning then 1 else 0, k.yieldPending);
    OrderedAfterForget(k.events, k.priority, t);
  }

  lemma ReprioritiseCounted(k: K, t: Task, p: int)
    requires Core(k) && Counted(k) && t in k.tasks.home && 0 <= p < MAX_PRIORITIES
    ensures Counted(Reprioritise(k, t, p))
  {
    hide OnTime, Runnable, Waiting, Directory.ListOk, Directory.Valid, Directory.Remove, Directory.InsertEnd;
    Parts(k);
    assert IsPlace(Ready(p));
  }

  lemma ReprioritiseSteady(k: K, t: Task, p: int)
    requires Steady(k) && t in k.tasks.home && 0 <= p < MAX_PRIORITIES && t != k.idle
    ensures Steady(Reprioritise(k, t, p)) && (Calm(k) ==> Calm(Reprioritise(k, t, p)))
  {
    hide Core, Calm, Counted, Reprioritise;
    ReprioritiseKeeps(k, t, p);
    ReprioritiseCounted(k, t, p);
  }

  lemma ReprioritiseMoves(k: K, t: Task, p: int)
    requires Core(k) && t in k.tasks.home && 0 <= p < MAX_PRIORITIES
    ensures var after := Reprioritise(k, t, p);
            && (k.tasks.home[t].Ready? ==> AtEnd(k.tasks, after.tasks, t, Ready(p)))
            && (!k.tasks.home[t].Ready? ==> after.tasks == k.tasks)
  {
    assert IsPlace(Ready(p));
    hide Waiting, Runnable, Directory.Remove, Directory.InsertEnd;
  }

  lemma RelocateFields(k: K, t: Task, place: Place)
    requires Core(k) && t in k.tasks.home && IsExit(k, t, place)
    ensures k.events.Valid()
    ensures var after := Relocate(k, t, place);
            && after.tasks.home == k.tasks.home[t := place] && after.wake == k.wake - {t} && after.now == k.now
            && after.events.home == k.events.home - {t} && SameControl(k, after)
            && after.priority == k.priority && after.current == k.current
            && (t !in k.events.home ==> after.events == k.events)
            && AtEnd(k.tasks, after.tasks, t, place)
  {
    hide Waiting, Runnable, Directory.Remove, Directory.InsertEnd;
    Parts(k);
    assert IsPlace(place);
  }

  lemma DropFields(k: K, t: Task)
    requires Core(k) && t in k.tasks.home
    ensures k.events.Valid()
    ensures var after := Drop(k, t);
            && after.tasks.home == k.tasks.home - {t} && after.wake == k.wake - {t} && after.now == k.now
            && after.events.home == k.events.home - {t} && SameControl(k, after) && after.current == k.current
            && after.priority == k.priority && (t !in k.events.home ==> after.events == k.events) && Leaves(k.tasks, after.tasks, t)
            && (k.tasks.home[t] == Termination ==> SameBut(k.tasks, after.tasks, Termination))
  {
    hide OnTime, Runnable, Directory.Remove, Directory.Valid;
    Parts(k);
  }

  /** `t` has left its event list, if it was on one; every event list keeps its order. */
  ghost predicate EventsLeft(before: K, after: K, t: Task) {
    && after.events.lists.Keys == before.events.lists.Keys
    && forall e | e in before.events.lists ::
         after.events.lists[e].items == Without(before.events.lists[e].items, [t])
  }

  lemma ForgetLeaves(k: K, after: K, t: Task)
    requires k.events.Valid() && after.events == Forget(k.events, t)
    ensures EventsLeft(k, after, t)
  {
    hide Forget, Without, Directory.Valid;
    forall e | e in k.events.lists ensures after.events.lists[e].items == Without(k.events.lists[e].items, [t]) {
      EventListsLeft(k.events, t, e);
    }
  }

  lemma DeadHead(k: K)
    requires Core(k) && Termination in k.tasks.lists && k.tasks.lists[Termination].items != []
    ensures var t := k.tasks.lists[Termination].items[0];
            t in k.tasks.home && k.tasks.home[t] == Termination && t != k.idle && t !in k.wake && t !in k.events.home
  {}

  lemma NoneDead(k: K)
    requires Core(k) && Termination in k.tasks.lists && k.tasks.lists[Termination].items == []
    ensures forall t | t in k.tasks.home :: k.tasks.home[t] != Termination
  {}

  // ---------- The start ----------

  /** The state in which vTaskStartScheduler starts, before the application's own tasks are added:
      every list empty but for the idle task, which is ready. */
  function Initial(idle: Task, queues: set<int>): K {
    K(Directory((map p | p in PLACES :: Ring([], 0))[Ready(0) := Ring([idle], 0)], map[idle := Ready(0)]),
      DelayedList1, DelayedList2, map[], map[], 0, MAX_DELAY, map[idle := 0], 0, idle, idle,
      Directory(map e | e in queues + {PENDING} :: Ring([], 0), map[]),
      0, 0, 0, 0, false, 1, 0)
  }

  lemma InitialLists(idle: Task, queues: set<int>)
    ensures var k := Initial(idle, queues);
            && k.tasks.Valid() && k.events.Valid() && (forall p :: p in k.tasks.lists <==> IsPlace(p))
            && forall p | p in k.tasks.lists && p != Ready(0) :: k.tasks.lists[p] == Ring([], 0)
  {
    var k := Initial(idle, queues);
    forall p ensures IsPlace(p) <==> p in PLACES { PlacesListed(p); }
    assert IsPlace(Ready(0));
    hide IsPlace, PLACES;
    assert k.tasks.lists[Ready(0)].items == [idle];
    assert k.tasks.Valid() && k.events.Valid();
  }

  lemma InitialValid(idle: Task, queues: set<int>)
    ensures Valid(Initial(idle, queues)) && Ordered(Initial(idle, queues).events, map[idle := 0])
  {
    hide PLACES, Directory.Valid, Directory.ListOk;
    InitialLists(idle, queues);
    assert IsPlace(DelayedList1) && IsPlace(DelayedList2) && IsPlace(Termination);
  }
}
