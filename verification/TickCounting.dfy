/** What one counted tick does to the tasks of the kernel. */
module TickCounting {
  import opened Ticks
  import opened Rings
  import opened Directories
  import opened DelayedLists
  import opened EventLists
  import opened SortedDirectories
  import opened KernelState
  import opened WakingOrder

  // ---------- The kernel's own counts ----------

  ghost predicate Counted(k: K) {
    && Termination in k.tasks.lists
    && k.numberOfTasks == |k.tasks.home|
    && k.deletedWaiting == |k.tasks.lists[Termination].items|
  }

  ghost predicate Steady(k: K) { Core(k) && Counted(k) }

  /** What holds between any two calls. */
  ghost predicate Valid(k: K) { Steady(k) && Calm(k) && (k.suspended == 0 ==> k.pendedTicks == 0) }

  const PLACES: seq<Place> :=
    [Ready(0), Ready(1), Ready(2), Ready(3), Ready(4), DelayedList1, DelayedList2, Suspended, Termination]

  lemma PlacesListed(p: Place)
    ensures IsPlace(p) <==> p in PLACES
    ensures NoDup(PLACES)
  {}

  /** Every task is on exactly one of the lists, and the kernel counts them right. */
  lemma LengthsSumToTasks(k: K)
    requires Steady(k)
    ensures forall p :: p in k.tasks.lists <==> p in PLACES
    ensures TotalLength(k.tasks, PLACES) == k.numberOfTasks
  {
    hide OnTime, Runnable, Waiting, IsPlace, PLACES, TotalLength, HousedIn, Directory.Valid;
    Parts(k);
    forall p ensures IsPlace(p) <==> p in PLACES { PlacesListed(p); }
    PlacesListed(Suspended);
    HousedSomewhere(k.tasks, PLACES);
    LengthsCountItems(k.tasks, PLACES);
  }

  // ---------- One tick ----------

  ghost predicate OrderKept(before: K, after: K) {
    StaysOrdered(before.events, before.priority, after.events, after.priority)
  }

  /** A task stays on its event list exactly as long as it is blocked, and no list gets out of
      order. */
  ghost predicate EventsKept(before: K, after: K) {
    && OrderKept(before, after)
    && (forall t :: t in after.events.home <==>
          t in before.events.home && t in after.tasks.home && IsBlocked(after.tasks.home[t]))
    && (forall t | t in after.events.home :: after.events.home[t] == before.events.home[t])
  }

  lemma EventsKeptAtFirst(k: K)
    requires Core(k)
    ensures EventsKept(k, k)
  {
    hide OnTime, Runnable;
  }

  /** What one counted tick does to the tasks: those whose real wake time has come are ready, each
      at the end of its ready list in the order in which they slept; the others are where they were. */
  ghost predicate OneTickLater(before: K, after: K) {
    && after.now == before.now + 1
    && after.tasks.home.Keys == before.tasks.home.Keys
    && after.priority == before.priority && after.current == before.current
    && (forall t | t in before.tasks.home :: t in after.tasks.home && t in after.priority &&
          after.tasks.home[t] == if t in before.wake && before.wake[t] <= after.now
                                 then Ready(after.priority[t]) else before.tasks.home[t])
    && (forall t :: t in after.wake <==> t in before.wake && after.now < before.wake[t])
    && (forall t | t in after.wake :: after.wake[t] == before.wake[t])
    && EventsKept(before, after)
    && InTurn(LineupOf(before), LineupOf(after), before.priority, [])
  }

  /** The same, part of the way through the loop that wakes the due tasks. */
  ghost predicate WakingUp(before: K, k: K) {
    && k.now == before.now + 1
    && k.tasks.home.Keys == before.tasks.home.Keys
    && k.priority == before.priority && k.current == before.current
    && (forall t | t in k.wake :: t in before.wake && k.wake[t] == before.wake[t])
    && (forall t | t in before.wake && t !in k.wake :: before.wake[t] <= k.now)
    && (forall t | t in before.tasks.home :: t in k.tasks.home && t in k.priority &&
          k.tasks.home[t] == if t in before.wake && t !in k.wake
                             then Ready(k.priority[t]) else before.tasks.home[t])
    && EventsKept(before, k)
    && InTurn(LineupOf(before), LineupOf(k), before.priority, [])
  }

  /** What the tick leaves alone. */
  predicate SameControl(before: K, after: K) {
    && after.suspended == before.suspended && after.pendedTicks == before.pendedTicks
    && after.yieldPending == before.yieldPending && after.idle == before.idle
    && after.numberOfTasks == before.numberOfTasks && after.deletedWaiting == before.deletedWaiting
  }

  /** The head of the current list is due when its value has been reached. */
  lemma HeadIsDue(k: K, t: Task)
    requires Core(k)
    requires k.tasks.lists[k.delayed].items != [] && t == k.tasks.lists[k.delayed].items[0]
    ensures t in k.value && t in k.wake && t in k.tasks.home && k.tasks.home[t] == k.delayed && t != k.idle
    ensures t in k.priority && IsBlocked(k.tasks.home[t])
    ensures 0 <= k.value[t] <= MAX_DELAY
    ensures k.value[t] <= Residue(k.now) ==> k.wake[t] <= k.now
  {
    assert k.tasks.ListOk(k.delayed);
    assert t in k.tasks.lists[k.delayed].items;
    assert t in k.wake;
    SameEpochOrder(k.wake[t], k.now);
  }

  lemma Parts(k: K)
    requires Core(k)
    ensures k.tasks.Valid() && k.events.Valid() && PENDING in k.events.lists
    ensures forall p :: p in k.tasks.lists <==> IsPlace(p)
    ensures forall t | t in k.tasks.home :: t in k.priority && 0 <= k.priority[t] < MAX_PRIORITIES
    ensures k.idle in k.tasks.home && k.current in k.tasks.home && k.tasks.home[k.idle] == Ready(0)
    ensures k.delayed in k.tasks.lists && k.tickCount == Residue(k.now) && k.overflows == Epoch(k.now)
    ensures k.suspended >= 0 && 0 <= k.pendedTicks <= MAX_DELAY
  {}

  /** `t` has left its list for the end of list `place`, and no other task moved. */
  ghost predicate AtEnd(before: Lists, after: Lists, t: Task, place: Place) {
    && before.Valid() && t in before.home && place in before.lists
    && after == before.Remove(t).InsertEnd(place, t)
  }

  /** `t`, on no list before, has joined the end of list `place`. */
  ghost predicate Joins(before: Lists, after: Lists, t: Task, place: Place) {
    && before.Valid() && t !in before.home && place in before.lists && after == before.InsertEnd(place, t)
  }

  /** `t` has left its list for none. */
  ghost predicate Leaves(before: Lists, after: Lists, t: Task) {
    before.Valid() && t in before.home && after == before.Remove(t)
  }

  /** Only list `place` has changed. */
  ghost predicate SameBut(before: Lists, after: Lists, place: Place) {
    && after.lists.Keys == before.lists.Keys
    && forall q | q in before.lists && q != place :: after.lists[q] == before.lists[q]
  }

  lemma SameAtAll(a: Lists, place: Place)
    ensures SameBut(a, a, place)
  {}

  lemma SameButMore(a: Lists, b: Lists, c: Lists, place: Place)
    requires SameBut(a, b, place) && SameBut(b, c, place)
    ensures SameBut(a, c, place)
  {}

  lemma UnblockFields(k: K, t: Task)
    requires Core(k) && t in k.tasks.home
    ensures t in k.priority && k.tasks.Valid() && k.events.Valid()
    ensures var after := Unblock(k, t);
            && after.tasks.home == k.tasks.home[t := Ready(k.priority[t])]
            && after.wake == k.wake - {t}
            && after.events == Forget(k.events, t) && after.events.home == k.events.home - {t}
            && after.now == k.now && after.priority == k.priority && after.current == k.current
            && after.yieldPending == k.yieldPending && SameControl(k, after)
            && AtEnd(k.tasks, after.tasks, t, Ready(k.priority[t]))
  {
    hide OnTime, Runnable, Waiting, Directory.Remove, Directory.InsertEnd, Directory.Valid, Directory.ListOk;
    Parts(k);
    assert IsPlace(Ready(k.priority[t]));
  }

  lemma WakeOne(before: K, k: K, t: Task)
    requires Core(k) && WakingUp(before, k) && t in k.wake && k.wake[t] <= k.now && t in k.tasks.home
    requires k.tasks.lists[k.delayed].items != [] && t == k.tasks.lists[k.delayed].items[0]
    ensures WakingUp(before, Unblock(k, t))
  {
    hide Core, Unblock, AtEnd, EventsKept, Forget, InTurn;
    UnblockFields(k, t);
    WakingHeadInTurn(LineupOf(before), k, t, k.priority);
    EventsKeptOnWaking(before, k, Unblock(k, t), t);
  }

  lemma OrderedAfterForget(events: Directory<int>, priority: map<Task, int>, t: Task)
    requires events.Valid()
    ensures StaysOrdered(events, priority, Forget(events, t), priority)
  {
    hide Directory.Valid, Directory.Remove, ListOrdered;
    if t in events.home { OrderedAfterRemove(events, priority, t); }
  }

  lemma EventsKeptOnWaking(before: K, k: K, after: K, t: Task)
    requires EventsKept(before, k) && t in after.priority && k.events.Valid()
    requires after.events == Forget(k.events, t) && after.priority == k.priority
    requires after.tasks.home == k.tasks.home[t := Ready(after.priority[t])]
    ensures EventsKept(before, after)
  {
    hide Forget, ListOrdered, Directory.Valid;
    OrderedAfterForget(k.events, k.priority, t);
  }

  lemma UnblockKeeps(k: K, t: Task)
    requires Steady(k) && t in k.tasks.home && IsBlocked(k.tasks.home[t])
    ensures Steady(Unblock(k, t))
    ensures Calm(k) ==> Calm(Unblock(k, t))
  {
    hide OnTime, Runnable, Waiting, Calm;
    hide Directory.ListOk, Directory.Valid, Directory.Remove, Directory.InsertEnd;
    Parts(k);
    assert IsPlace(Ready(k.priority[t]));
    RelocateKeeps(k, t, Ready(k.priority[t]));
  }

  ghost predicate AllLater(k: K) { forall t | t in k.wake :: k.now < k.wake[t] }

  lemma AllAwake(before: K, k: K)
    requires WakingUp(before, k) && AllLater(k)
    ensures OneTickLater(before, k)
  {
    hide InTurn;
  }

  /** prvResetNextTaskUnblockTime */
  function ResetUnblockTime(k: K): K
    requires Core(k)
  {
    var items := k.tasks.lists[k.delayed].items;
    HeadIsLeast(k.tasks, k.delayed, k.overflow, k.value, k.wake, k.now);
    k.(nextUnblock := if items == [] then MAX_DELAY else k.value[items[0]])
  }

  /** The unblock time is then exactly the least value on the current list, if there is one. */
  lemma ResetIsLeast(k: K)
    requires Core(k)
    ensures var next, items := ResetUnblockTime(k).nextUnblock, k.tasks.lists[k.delayed].items;
            && (items == [] ==> next == 0xFFFF_FFFF_FFFF_FFFF)
            && (items != [] ==> exists t :: t in items && t in k.value && k.value[t] == next)
            && forall t | t in items :: t in k.value && next <= k.value[t]
  {
    hide Runnable, Waiting;
    HeadIsLeast(k.tasks, k.delayed, k.overflow, k.value, k.wake, k.now);
    assert k.tasks.ListOk(k.delayed);
    var items := k.tasks.lists[k.delayed].items;
    forall t | t in items ensures t in k.value && ResetUnblockTime(k).nextUnblock <= k.value[t] {
      assert t in k.tasks.home && k.tasks.home[t] == k.delayed && t in k.wake;
    }
    if items != [] {
      var h := items[0];
      assert h in items;
    }
  }

  lemma ResetKeeps(k: K)
    requires Core(k)
    ensures Core(ResetUnblockTime(k)) && (Counted(ResetUnblockTime(k)) <==> Counted(k))
    ensures Calm(k) ==> Calm(ResetUnblockTime(k))
  {
    HeadIsLeast(k.tasks, k.delayed, k.overflow, k.value, k.wake, k.now);
    hide Agrees, Runnable, Waiting;
  }

  /** Once the head of the current list is in the future, or is known to be, so is every wake time. */
  lemma AllLaterIfCalm(k: K)
    requires Core(k)
    requires forall t | t in k.wake && k.tasks.home[t] == k.delayed :: k.tickCount < k.value[t]
    ensures AllLater(k) && NoneDue(k.tasks, k.delayed, k.wake, k.now)
  {}

  /** Counting the tick, up to the test whether anything is due. */
  function StartTick(k: K): K
    requires Core(k) && Core(CountTick(k))
  {
    if Add(k.tickCount, 1) == 0 then ResetUnblockTime(CountTick(k)) else CountTick(k)
  }

  lemma CountTickWakes(k: K)
    requires Steady(k) && Core(CountTick(k))
    requires Add(k.tickCount, 1) == 0 ==> k.tasks.lists[k.delayed].items == []
    ensures Steady(CountTick(k)) && WakingUp(k, CountTick(k)) && SameControl(k, CountTick(k))
    ensures CountTick(k).wake == k.wake
  {
    hide Agrees, Waiting, Directory.Valid, EventsKept, InTurn;
    EventsKeptAtFirst(k);
    EventsApart(k, k, CountTick(k));
    CountTickInTurn(k);
  }

  lemma SleepersSwitched(a: Lineup, b: Lineup, priority: map<Task, int>)
    requires a.Whole() && b.tasks == a.tasks && b.events == a.events
    requires (b.delayed, b.overflow) == (a.delayed, a.overflow)
             || ((b.delayed, b.overflow) == (a.overflow, a.delayed) && a.tasks.lists[a.delayed].items == [])
    ensures InTurn(a, b, priority, [])
  {
    NoneReadied(a, priority);
    assert b.Sleepers() == a.Sleepers();
    hide Those, Without;
    assert BecameReady(a, b, priority, [], []);
  }

  /** Counting a tick leaves the order of the sleepers alone, a switch of the lists included. */
  lemma CountTickInTurn(k: K)
    requires Core(k) && (Add(k.tickCount, 1) == 0 ==> k.tasks.lists[k.delayed].items == [])
    ensures InTurn(LineupOf(k), LineupOf(CountTick(k)), k.priority, [])
  {
    hide Core, Without, Those;
    CoreWhole(k);
    SleepersSwitched(LineupOf(k), LineupOf(CountTick(k)), k.priority);
  }

  lemma SleeperIsDelayed(k: K, q: Place, i: nat)
    requires Core(k) && q in {k.delayed, k.overflow} && q in k.tasks.lists && i < |k.tasks.lists[q].items|
    ensures var t := k.tasks.lists[q].items[i];
            t in k.wake && t in k.value && k.value[t] == Residue(k.wake[t])
            && Epoch(k.wake[t]) == (if q == k.delayed then Epoch(k.now) else Epoch(k.now) + 1)
            && k.overflow != k.delayed
  {
    hide Runnable, Waiting;
    assert k.tasks.ListOk(q);
    var t := k.tasks.lists[q].items[i];
    assert t in k.tasks.lists[q].items;
    assert t in k.tasks.home && k.tasks.home[t] == q;
    assert t in k.wake;
  }

  lemma InOrderOnList(k: K, q: Place, i: nat, j: nat)
    requires Core(k) && q in {k.delayed, k.overflow} && q in k.tasks.lists && i < j < |k.tasks.lists[q].items|
    ensures var t, u := k.tasks.lists[q].items[i], k.tasks.lists[q].items[j];
            t in k.wake && u in k.wake && k.wake[t] <= k.wake[u]
  {
    SleeperIsDelayed(k, q, i);
    SleeperIsDelayed(k, q, j);
    hide Runnable, Waiting;
    var items := k.tasks.lists[q].items;
    var vs := ValuesOf(items, k.value);
    assert vs[i] <= vs[j];
    SameEpochOrder(k.wake[items[i]], k.wake[items[j]]);
  }

  /** The tasks that sleep stand in the order of their wake times, across both lists. */
  lemma SleepersInOrder(k: K, i: nat, j: nat)
    requires Core(k) && LineupOf(k).Whole() && i < j < |LineupOf(k).Sleepers()|
    ensures var s := LineupOf(k).Sleepers();
            s[i] in k.wake && s[j] in k.wake && k.wake[s[i]] <= k.wake[s[j]]
  {
    hide Core;
    var n := |k.tasks.lists[k.delayed].items|;
    if j < n {
      InOrderOnList(k, k.delayed, i, j);
    } else if n <= i {
      InOrderOnList(k, k.overflow, i - n, j - n);
    } else {
      SleeperIsDelayed(k, k.delayed, i);
      SleeperIsDelayed(k, k.overflow, j - n);
    }
  }

  /** What happens to variables other than the lists does not matter to who waits for what. */
  lemma EventsApart(before: K, k: K, after: K)
    requires EventsKept(before, k) && after.events == k.events && after.tasks.home == k.tasks.home
    requires after.priority == k.priority
    ensures EventsKept(before, after)
  {}

  lemma TickBegins(k: K)
    requires Steady(k) && Calm(k)
    ensures Core(CountTick(k))
    ensures var c := StartTick(k);
            && Steady(c) && WakingUp(k, c) && SameControl(k, c) && c.wake == k.wake && c.current in c.priority
            && c.priority == k.priority && c.current == k.current
  {
    hide Core, Calm, InTurn;
    TickKeeps(k);
    CountTickWakes(k);
    ResetKeeps(CountTick(k));
    Parts(StartTick(k));
  }

  lemma HeadOf(k: K)
    requires Core(k)
    ensures var items := k.tasks.lists[k.delayed].items;
            items != [] ==> items[0] in k.value && 0 <= k.value[items[0]] <= MAX_DELAY
    ensures k.delayed in k.tasks.lists
  {
    HeadIsLeast(k.tasks, k.delayed, k.overflow, k.value, k.wake, k.now);
  }

  lemma TickEnds(before: K, k: K)
    requires Steady(k) && WakingUp(before, k) && SameControl(before, k)
    requires var items := k.tasks.lists[k.delayed].items;
             items == [] || (items[0] in k.value && k.tickCount < k.value[items[0]])
    ensures var after := ResetUnblockTime(k);
            Steady(after) && Calm(after) && OneTickLater(before, after) && SameControl(before, after)
  {
    hide WakingUp, Runnable, Waiting, OneTickLater, Counted;
    HeadIsLeast(k.tasks, k.delayed, k.overflow, k.value, k.wake, k.now);
    AllLaterIfCalm(k);
    AllAwake(before, k);
    ResetKeeps(k);
    AfterReset(before, k);
  }

  lemma AfterReset(before: K, k: K)
    requires Core(k) && OneTickLater(before, k) && SameControl(before, k)
    ensures OneTickLater(before, ResetUnblockTime(k)) && SameControl(before, ResetUnblockTime(k))
  {
    hide Core, InTurn;
  }

  /** Before the cached unblock time there is nothing to wake. */
  lemma NothingToWake(before: K)
    requires Steady(before) && Calm(before) && Core(CountTick(before))
    requires StartTick(before).tickCount < StartTick(before).nextUnblock
    ensures var k := StartTick(before);
            Steady(k) && Calm(k) && OneTickLater(before, k) && SameControl(before, k)
    ensures forall t :: !Due(before, t)
  {
    hide WakingUp, Runnable, Waiting, OneTickLater, Counted;
    var k := StartTick(before);
    TickBegins(before);
    HeadOf(k);
    if Add(before.tickCount, 1) == 0 {
      HeadOf(CountTick(before));
      TickEnds(before, k);
    } else {
      AllLaterIfCalm(k);
      AllAwake(before, k);
    }
    NoneWereDue(before, k);
  }

  lemma NoneWereDue(before: K, k: K)
    requires OneTickLater(before, k) && k.wake == before.wake
    ensures forall t :: !Due(before, t)
  {
    hide InTurn;
  }

  /** A woken task takes the processor from the current one. */
  ghost predicate Preempts(k: K, t: Task) {
    t in k.priority && k.current in k.priority && k.priority[t] > k.priority[k.current]
  }

  lemma PreemptsIfHigher(k: K, t: Task)
    requires t in k.priority && k.current in k.priority
    ensures Preempts(k, t) <==> k.priority[t] > k.priority[k.current]
  {}

  ghost predicate Due(k: K, t: Task) { t in k.wake && k.wake[t] <= k.now + 1 }

  /** Whether a tick asks for a context switch. */
  ghost predicate TickSwitches(before: K, after: K)
    requires after.current in after.priority
    requires Ready(after.priority[after.current]) in after.tasks.lists
  {
    || (exists t :: Due(before, t) && Preempts(before, t))
    || |after.tasks.lists[Ready(after.priority[after.current])].items| > 1
    || before.yieldPending
  }
}
