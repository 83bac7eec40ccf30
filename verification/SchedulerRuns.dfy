/** What the steps of the scheduler give over whole runs. */
module SchedulerRuns {
  import opened Ticks
  import opened Rings
  import opened Directories
  import opened SortedDirectories
  import opened DelayedLists
  import opened EventLists
  import opened KernelState
  import opened TaskMoves
  import opened TickCounting
  import opened WakingOrder
  import opened SchedulerSteps
  import BlockTime

  // ---------- Runs ----------

  /** The step is not about `t`. */
  ghost predicate Spares(before: K, l: Label, t: Task) {
    match l
    case Block(_, _) => before.current != t
    case WakeByEvent(u) => u != t
    case ResumeAll => !IsPending(before, t)
    case Create(u, _) => u != t
    case Delete(u) => u != t
    case _ => true
  }

  ghost predicate Run(run: seq<K>, labels: seq<Label>) {
    && |run| == |labels| + 1
    && (forall i | 0 <= i < |run| :: Core(run[i]))
    && (forall i | 0 <= i < |labels| :: Step(run[i], labels[i], run[i + 1]))
  }

  // ---------- The switch of the delayed lists ----------

  /** Over any run without a hasty block nothing is left due in any state. */
  lemma {:induction false} NothingIsLeftDue(run: seq<K>, labels: seq<Label>, i: nat)
    requires Run(run, labels) && Calm(run[0]) && forall j | 0 <= j < |labels| :: !Hasty(run[j], labels[j])
    requires i < |run|
    ensures Calm(run[i])
  {
    hide Core, Effect, Calm, Hasty;
    if i > 0 {
      NothingIsLeftDue(run, labels, i - 1);
      assert Step(run[i - 1], labels[i - 1], run[i]) && !Hasty(run[i - 1], labels[i - 1]);
    }
  }

  /** In any run without a hasty block the assertion of taskSWITCH_DELAYED_LISTS holds whenever the
      counter is about to wrap: the current delayed list is empty. */
  lemma SwitchFindsListEmpty(run: seq<K>, labels: seq<Label>, i: nat)
    requires Run(run, labels) && Calm(run[0]) && forall j | 0 <= j < |labels| :: !Hasty(run[j], labels[j])
    requires i < |run| && run[i].tickCount == MAX_DELAY
    ensures run[i].delayed in run[i].tasks.lists && run[i].tasks.lists[run[i].delayed].items == []
  {
    hide Step, Calm;
    NothingIsLeftDue(run, labels, i);
    TickKeeps(run[i]);
    Parts(run[i]);
  }

  /** The kernel's two counters are what a time-out is measured by at that real time: xTickCount, and
      xNumOfOverflows as its 64-bit pattern. */
  lemma CountersShowTheTime(k: K)
    requires Core(k)
    ensures k.tickCount == BlockTime.TickCount(k.now) && Residue(k.overflows) == BlockTime.NumOfOverflows(k.now)
    ensures k.now == k.overflows * 0x1_0000_0000_0000_0000 + k.tickCount
  {
    hide Agrees, Runnable, Waiting;
  }

  // ---------- Waking on time ----------

  /** A step that touches a delayed task only as the clock does: it is ready when counted ticks
      bring its wake time, and otherwise stays delayed with the same wake time. */
  ghost predicate ClockOnly(before: K, after: K, t: Task) {
    && before.now <= after.now
    && (t in before.wake ==>
          if before.now < after.now && before.wake[t] <= after.now
          then t !in after.wake && t in after.tasks.home && t in after.priority
               && after.tasks.home[t] == Ready(after.priority[t])
          else t in after.wake && after.wake[t] == before.wake[t])
  }

  lemma StepIsClockOnly(before: K, l: Label, after: K, t: Task)
    requires Core(before) && Step(before, l, after) && Spares(before, l, t)
    ensures ClockOnly(before, after, t)
  {
    hide Core, Selected, StaysCalm, StaysOrdered;
    hide InTurn, BecameReady, AtEnd, Asleep, Joins, Leaves, SameBut, Pended;
    if t in before.wake { DelayedIsBlocked(before, t); }
    Parts(before);
    if l.SwitchContext? { SelectIsClockOnly(before, after, t); }
  }

  lemma SelectIsClockOnly(before: K, after: K, t: Task)
    requires Selected(before, after)
    ensures ClockOnly(before, after, t)
  {}

  /** In every run in which nothing but the clock is about `t`, it is delayed in every state before
      its wake time and ready in the state that counts that tick, whatever wraps come between. */
  lemma {:induction false} WokenOnTheDueTick(run: seq<K>, labels: seq<Label>, t: Task, due: int, i: nat)
    requires Run(run, labels) && forall j | 0 <= j < |labels| :: Spares(run[j], labels[j], t)
    requires t in run[0].wake && run[0].wake[t] == due && run[0].now < due
    requires i < |run|
    ensures run[i].now < due ==>
              t in run[i].wake && run[i].wake[t] == due && t in run[i].tasks.home && IsBlocked(run[i].tasks.home[t])
    ensures 0 < i && run[i - 1].now < due <= run[i].now ==>
              t in run[i].tasks.home && t in run[i].priority && run[i].tasks.home[t] == Ready(run[i].priority[t])
  {
    hide Core, Step, Spares;
    if i > 0 {
      WokenOnTheDueTick(run, labels, t, due, i - 1);
      assert Step(run[i - 1], labels[i - 1], run[i]) && Spares(run[i - 1], labels[i - 1], t);
      StepIsClockOnly(run[i - 1], labels[i - 1], run[i], t);
    }
    if run[i].now < due {
      DelayedIsBlocked(run[i], t);
    }
  }

  lemma DelayedIsBlocked(k: K, t: Task)
    requires Core(k) && t in k.wake
    ensures t in k.tasks.home && IsBlocked(k.tasks.home[t])
  {}

  /** A task that blocks for 0 < ticks < 2^64 with no event is ready on exactly that counted tick. */
  lemma BlocksForExactly(before: K, run: seq<K>, labels: seq<Label>, ticks: Tick, i: nat)
    requires Run(run, labels) && forall j | 0 <= j < |labels| :: Spares(run[j], labels[j], before.current)
    requires 0 < ticks && CurrentBlocked(before, run[0], ticks, false)
    requires i < |run|
    ensures var t := before.current;
            && (run[i].now - before.now < ticks ==> t in run[i].tasks.home && IsBlocked(run[i].tasks.home[t]))
            && (0 < i && run[i - 1].now - before.now < ticks <= run[i].now - before.now ==>
                  t in run[i].tasks.home && t in run[i].priority && run[i].tasks.home[t] == Ready(run[i].priority[t]))
  {
    hide Core, Step, Spares;
    WokenOnTheDueTick(run, labels, before.current, before.now + ticks, i);
  }

  // ---------- No tick is lost ----------

  /** The ticks a step delivers to the kernel. */
  function Delivered(l: Label): int {
    match l
    case CountedTick => 1
    case PendedTick => 1
    case CatchUp(ticks) => ticks
    case _ => 0
  }

  /** Of the ticks delivered, those not yet counted are pended. */
  ghost predicate Accounts(before: K, after: K, delivered: int) {
    after.now + after.pendedTicks == before.now + before.pendedTicks + delivered
  }

  /** Every step accounts for the ticks it delivers, except one that comes while the scheduler is
      suspended and makes xPendedTicks wrap. */
  lemma StepAccounts(before: K, l: Label, after: K)
    requires Core(before) && Step(before, l, after)
    ensures Accounts(before, after, Delivered(l)) <==> !(l.PendedTick? && before.pendedTicks == MAX_DELAY)
  {
    hide Core;
  }

  function Total(labels: seq<Label>): int {
    if labels == [] then 0 else Total(labels[..|labels| - 1]) + Delivered(labels[|labels| - 1])
  }

  /** Over any run in which xPendedTicks does not wrap, the ticks counted and the ticks still pended
      are the ticks delivered and caught up. */
  lemma {:induction false} NoTickIsLost(run: seq<K>, labels: seq<Label>)
    requires Run(run, labels)
    requires forall i | 0 <= i < |labels| :: labels[i].PendedTick? ==> run[i].pendedTicks != MAX_DELAY
    ensures Accounts(run[0], run[|labels|], Total(labels))
    decreases |labels|
  {
    hide Core, Step;
    if labels != [] {
      var n := |labels| - 1;
      assert Step(run[n], labels[n], run[n + 1]);
      NoTickIsLost(run[..|run| - 1], labels[..n]);
      StepAccounts(run[n], labels[n], run[n + 1]);
    }
  }

  // ---------- Event lists in order ----------

  /** Only a change of priority can put an event list out of order. */
  lemma StepKeepsOrder(before: K, l: Label, after: K)
    requires Step(before, l, after) && !l.Reprioritise?
    ensures OrderKept(before, after)
  {
    hide ListOrdered;
  }

  lemma WaitersHavePriorities(k: K)
    requires Core(k)
    ensures k.events.Valid() && forall u | u in k.events.home :: u in k.priority
  {}

  /** Task t fits where it is on its event list, if it is on one, with priority p. */
  ghost predicate CanBecome(k: K, t: Task, p: int)
    requires Core(k)
  {
    WaitersHavePriorities(k);
    Fits(k.events, k.priority, t, p)
  }

  /** A change of priority leaves the event lists in order exactly when the waiter fits. */
  lemma ReprioritiseKeepsOrder(before: K, after: K, t: Task, p: int)
    requires Core(before) && Ordered(before.events, before.priority)
    requires Step(before, Label.Reprioritise(t, p), after)
    ensures Ordered(after.events, after.priority) <==> CanBecome(before, t, p)
  {
    WaitersHavePriorities(before);
    OrderedAfterChange(before.events, before.priority, t, p);
    hide Core, Ordered, Fits;
  }

  /** Over any run that starts with the event lists in order and in which every waiter whose
      priority changes still fits, they are in order, so that a wakeup is that of a waiter of the
      highest priority. */
  lemma {:induction false} EventListsStayOrdered(run: seq<K>, labels: seq<Label>, i: nat)
    requires Run(run, labels) && Ordered(run[0].events, run[0].priority)
    requires forall j | 0 <= j < |labels| && labels[j].Reprioritise? ::
               CanBecome(run[j], labels[j].t, labels[j].priority)
    requires i < |run|
    ensures Ordered(run[i].events, run[i].priority)
  {
    hide Core, Step, CanBecome, ListOrdered;
    if i > 0 {
      EventListsStayOrdered(run, labels, i - 1);
      var l := labels[i - 1];
      assert Step(run[i - 1], l, run[i]);
      if l.Reprioritise? {
        ReprioritiseKeepsOrder(run[i - 1], run[i], l.t, l.priority);
      } else {
        StepKeepsOrder(run[i - 1], l, run[i]);
      }
    }
  }

  // ---------- Round robin ----------

  /** The step takes a task off the ready list of priority p. */
  predicate Takes(before: K, l: Label, p: int) {
    match l
    case Block(_, _) => before.current in before.tasks.home && before.tasks.home[before.current] == Ready(p)
    case Delete(t) => t in before.tasks.home && before.tasks.home[t] == Ready(p)
    case Reprioritise(t, _) => t in before.tasks.home && before.tasks.home[t] == Ready(p)
    case _ => false
  }

  /** Tasks may have joined the ring, just before its index; nothing else has happened to it. */
  ghost predicate Grown(was: Ring<Task>, now: Ring<Task>) {
    was.Valid() && exists s :: now == was.Joined(s)
  }

  lemma SameIsGrown(ring: Ring<Task>)
    requires ring.Valid()
    ensures Grown(ring, ring)
  {
    JoinedNone(ring);
  }

  lemma InsertEndGrows(ring: Ring<Task>, t: Task)
    requires ring.Valid()
    ensures Grown(ring, ring.InsertEnd(t))
  {
    JoinedOne(ring, t);
  }

  lemma AtEndGrows(before: Lists, after: Lists, t: Task, place: Place, q: Place)
    requires AtEnd(before, after, t, place) && q in before.lists && before.home[t] != q
    ensures q in after.lists && Grown(before.lists[q], after.lists[q])
  {
    ListRing(before, q);
    hide Directory.Valid, Grown;
    SameIsGrown(before.lists[q]);
    InsertEndGrows(before.lists[q], t);
  }

  lemma ReadyGrows(before: K, after: K, first: seq<Task>, p: int)
    requires InTurn(LineupOf(before), LineupOf(after), before.priority, first) && 0 <= p < MAX_PRIORITIES
    ensures Ready(p) in before.tasks.lists && Ready(p) in after.tasks.lists
    ensures Grown(before.tasks.lists[Ready(p)], after.tasks.lists[Ready(p)])
  {
    var woken :| BecameReady(LineupOf(before), LineupOf(after), before.priority, first, woken);
    assert IsPlace(Ready(p));
    hide Without, Those;
  }

  /** A step that is no switch and takes no task off a ready list leaves the list as it is, index
      included, but for tasks that join it just before the index. */
  lemma StepGrows(before: K, l: Label, after: K, p: int)
    requires Core(before) && Core(after) && Step(before, l, after) && 0 <= p < MAX_PRIORITIES
    requires !l.SwitchContext? && !Takes(before, l, p)
    ensures Ready(p) in before.tasks.lists && Ready(p) in after.tasks.lists
    ensures Grown(before.tasks.lists[Ready(p)], after.tasks.lists[Ready(p)])
  {
    hide Core, StaysCalm, StaysOrdered, Grown, InTurn, BecameReady, AtEnd, Leaves, Joins, Pended, SortedInto;
    hide Directory.Valid;
    ReadyListed(before, p);
    ReadyListed(after, p);
    SleepPlaces(after);
    var was := before.tasks.lists[Ready(p)];
    SameIsGrown(was);
    match l {
      case CountedTick => ReadyGrows(before, after, [], p);
      case CatchUp(_) => ReadyGrows(before, after, [], p);
      case ResumeAll => ReadyGrows(before, after, before.events.lists[PENDING].items, p);
      case WakeByEvent(t) =>
        assert InTurn(LineupOf(before), LineupOf(after), before.priority, [t]) by {
          InTurnIf(LineupOf(before), LineupOf(after), before.priority, [t]);
        }
        ReadyGrows(before, after, [t], p);
      case Block(_, forever) => BlockGrows(before, after, l.ticks, forever, p);
      case Create(t, q) => JoinsGrows(before.tasks, after.tasks, t, Ready(q), Ready(p));
      case Delete(t) => DeleteGrows(before, after, t, p);
      case Reprioritise(t, q) =>
        if before.tasks.home[t].Ready? { AtEndGrows(before.tasks, after.tasks, t, Ready(q), Ready(p)); }
      case _ =>
    }
  }

  lemma InTurnIf(a: Lineup, b: Lineup, priority: map<Task, int>, first: seq<Task>)
    requires BecameReady(a, b, priority, first, [])
    ensures InTurn(a, b, priority, first)
  {
    hide BecameReady;
  }

  lemma ReadyListed(k: K, p: int)
    requires Core(k) && 0 <= p < MAX_PRIORITIES
    ensures Ready(p) in k.tasks.lists && k.tasks.lists[Ready(p)].Valid()
  {
    assert IsPlace(Ready(p));
    ListRing(k.tasks, Ready(p));
  }

  lemma SleepPlaces(k: K)
    requires Core(k)
    ensures !k.delayed.Ready? && !k.overflow.Ready?
  {}

  lemma JoinsGrows(before: Lists, after: Lists, t: Task, place: Place, q: Place)
    requires Joins(before, after, t, place) && q in before.lists
    ensures q in after.lists && Grown(before.lists[q], after.lists[q])
  {
    ListRing(before, q);
    hide Directory.Valid, Grown;
    SameIsGrown(before.lists[q]);
    InsertEndGrows(before.lists[q], t);
  }

  lemma DeleteGrows(before: K, after: K, t: Task, p: int)
    requires Ready(p) in before.tasks.lists && !Takes(before, Label.Delete(t), p)
    requires if t == before.current then AtEnd(before.tasks, after.tasks, t, Termination)
             else Leaves(before.tasks, after.tasks, t)
    ensures Ready(p) in after.tasks.lists
    ensures Grown(before.tasks.lists[Ready(p)], after.tasks.lists[Ready(p)])
  {
    if t == before.current {
      AtEndGrows(before.tasks, after.tasks, t, Termination, Ready(p));
    } else {
      ListRing(before.tasks, Ready(p));
      SameIsGrown(before.tasks.lists[Ready(p)]);
      hide Directory.Valid, Grown;
    }
  }

  lemma BlockGrows(before: K, after: K, ticks: Tick, forever: bool, p: int)
    requires CurrentBlocked(before, after, ticks, forever) && Ready(p) in before.tasks.lists
    requires !Takes(before, Label.Block(ticks, forever), p)
    requires !after.delayed.Ready? && !after.overflow.Ready?
    ensures Ready(p) in after.tasks.lists
    ensures Grown(before.tasks.lists[Ready(p)], after.tasks.lists[Ready(p)])
  {
    hide SortedInto;
    if forever {
      AtEndGrows(before.tasks, after.tasks, after.current, Suspended, Ready(p));
    } else {
      ListRing(before.tasks, Ready(p));
      SameIsGrown(before.tasks.lists[Ready(p)]);
      hide Directory.Valid, Grown;
    }
  }

  // ---------- Turns ----------

  /** With `o` the walking order at the start and `c` the tasks chosen since: all but the last of `o`
      have their turns in order, whoever has joined; the last too if nobody has. */
  ghost predicate TurnsSoFar(o: seq<Task>, c: seq<Task>, now: Ring<Task>) {
    var n := |o|;
    && now.Valid() && n <= |now.items|
    && (|c| < n ==> c == o[..|c|] && now.Order()[..n - 1 - |c|] == o[|c|..n - 1])
    && (|c| <= n && |now.items| == n ==> c == o[..|c|] && now.Order() == o[|c|..] + o[..|c|])
  }

  lemma TurnsAtFirst(ring: Ring<Task>)
    requires ring.Valid()
    ensures TurnsSoFar(ring.Order(), [], ring)
  {}

  lemma TurnsAfterJoining(o: seq<Task>, c: seq<Task>, was: Ring<Task>, now: Ring<Task>)
    requires TurnsSoFar(o, c, was) && Grown(was, now)
    ensures TurnsSoFar(o, c, now)
  {
    var s :| now == was.Joined(s);
    JoinedOrder(was, s);
    if s == [] {
      JoinedNone(was);
    } else if |c| < |o| {
      assert now.Order()[..|o| - 1 - |c|] == was.Order()[..|o| - 1 - |c|];
    }
  }

  /** A turn taken from the front of the walking order. */
  lemma TurnTaken(o: seq<Task>, c: seq<Task>, was: seq<Task>)
    requires was != [] && |o| <= |was|
    requires |c| < |o| ==> c == o[..|c|] && was[..|o| - 1 - |c|] == o[|c|..|o| - 1]
    ensures var n, m, now, d := |o|, |c|, was[1..] + [was[0]], c + [was[0]];
            m + 1 < n ==> d == o[..m + 1] && now[..n - 2 - m] == o[m + 1..n - 1]
  {
    var n, m := |o|, |c|;
    if m + 1 < n {
      assert was[..n - 1 - m][0] == o[m..n - 1][0];
      assert (was[1..] + [was[0]])[..n - 2 - m] == was[..n - 1 - m][1..];
    }
  }

  lemma OwnTurnTaken(o: seq<Task>, c: seq<Task>, was: seq<Task>)
    requires was != [] && |c| < |o| == |was| && c == o[..|c|] && was == o[|c|..] + o[..|c|]
    ensures c + [was[0]] == o[..|c| + 1] && was[1..] + [was[0]] == o[|c| + 1..] + o[..|c| + 1]
  {}

  lemma TurnsAfterSwitch(o: seq<Task>, c: seq<Task>, was: Ring<Task>)
    requires TurnsSoFar(o, c, was) && was.items != []
    ensures was.Next().Valid() && 0 < was.Next().at
    ensures TurnsSoFar(o, c + [was.Next().Current()], was.Next())
  {
    NextRotates(was);
    hide Ring.Order, Ring.Current;
    assert |was.Order()| == |was.items| by { OrderLength(was); }
    TurnTaken(o, c, was.Order());
    if |c| < |o| == |was.items| { OwnTurnTaken(o, c, was.Order()); }
  }

  lemma OrderLength(ring: Ring<Task>)
    requires ring.Valid()
    ensures |ring.Order()| == |ring.items|
  {}

  /** At priority p tasks come but do not go, and every switch of the run runs one of them. */
  ghost predicate ServesAt(run: seq<K>, labels: seq<Label>, p: int) {
    && Run(run, labels) && 0 <= p < MAX_PRIORITIES
    && forall i | 0 <= i < |labels| ::
         && !Takes(run[i], labels[i], p)
         && (labels[i].SwitchContext? ==>
               run[i + 1].current in run[i + 1].tasks.home && run[i + 1].tasks.home[run[i + 1].current] == Ready(p))
  }

  /** The tasks that the context switches of a run have chosen. */
  function Chosen(run: seq<K>, labels: seq<Label>): seq<Task>
    requires |run| == |labels| + 1
    decreases |labels|
  {
    if labels == [] then [] else
      var n := |labels| - 1;
      Chosen(run[..n + 1], labels[..n]) + if labels[n].SwitchContext? then [run[n + 1].current] else []
  }

  lemma SwitchedTo(before: K, after: K, p: int)
    requires Selected(before, after) && after.tasks.home[after.current] == Ready(p)
    ensures Ready(p) in before.tasks.lists && Ready(p) in after.tasks.lists
    ensures var ring := before.tasks.lists[Ready(p)];
            && ring.Valid() && ring.items != [] && ring.Next().Valid() && 0 < ring.Next().at
            && after.current == ring.Next().Current() && after.tasks.lists[Ready(p)] == ring.Next()
  {}

  lemma {:induction false} TurnsOverRun(run: seq<K>, labels: seq<Label>, p: int)
    requires ServesAt(run, labels, p)
    ensures forall i | 0 <= i < |run| :: Ready(p) in run[i].tasks.lists && run[i].tasks.lists[Ready(p)].Valid()
    ensures TurnsSoFar(run[0].tasks.lists[Ready(p)].Order(), Chosen(run, labels),
                       run[|labels|].tasks.lists[Ready(p)])
    decreases |labels|
  {
    hide Core, Step, TurnsSoFar, Grown, Selected, Takes;
    forall i | 0 <= i < |run| ensures Ready(p) in run[i].tasks.lists && run[i].tasks.lists[Ready(p)].Valid() {
      ReadyListed(run[i], p);
    }
    if labels == [] {
      TurnsAtFirst(run[0].tasks.lists[Ready(p)]);
    } else {
      var n := |labels| - 1;
      assert Step(run[n], labels[n], run[n + 1]) && !Takes(run[n], labels[n], p);
      TurnsOverRun(run[..n + 1], labels[..n], p);
      var o, c := run[0].tasks.lists[Ready(p)].Order(), Chosen(run[..n + 1], labels[..n]);
      var was := run[n].tasks.lists[Ready(p)];
      if labels[n].SwitchContext? {
        SwitchIsSelected(run[n], run[n + 1]);
        SwitchedTo(run[n], run[n + 1], p);
        TurnsAfterSwitch(o, c, was);
      } else {
        StepGrows(run[n], labels[n], run[n + 1], p);
        TurnsAfterJoining(o, c, was, run[n + 1].tasks.lists[Ready(p)]);
        assert Chosen(run, labels) == c;
      }
    }
  }

  lemma SwitchIsSelected(before: K, after: K)
    requires Step(before, Label.SwitchContext, after)
    ensures Selected(before, after)
  {}

  /** Round robin over any run in which no task leaves the ready list of the n tasks at the top
      priority: whatever ticks are counted and whatever tasks join it between them, the first n - 1
      context switches run the first n - 1 of the n tasks in walking order. */
  lemma ServedInOrder(run: seq<K>, labels: seq<Label>, p: int)
    requires ServesAt(run, labels, p)
    ensures Ready(p) in run[0].tasks.lists && run[0].tasks.lists[Ready(p)].Valid()
    ensures var o, c := run[0].tasks.lists[Ready(p)].Order(), Chosen(run, labels);
            |c| < |o| ==> c == o[..|c|]
  {
    hide Core, Step, Takes, Ring.Order;
    TurnsOverRun(run, labels, p);
  }

  /** Over any such run in which nobody joins them, n context switches run each of the n tasks
      exactly once. */
  lemma EachTaskRunsOnce(run: seq<K>, labels: seq<Label>, p: int)
    requires ServesAt(run, labels, p)
    ensures Ready(p) in run[0].tasks.lists && Ready(p) in run[|labels|].tasks.lists
    ensures var was, now := run[0].tasks.lists[Ready(p)].items, run[|labels|].tasks.lists[Ready(p)].items;
            |Chosen(run, labels)| == |was| == |now| ==> multiset(Chosen(run, labels)) == multiset(was)
  {
    hide Core, Step, Takes, Ring.Order;
    TurnsOverRun(run, labels, p);
    OrderPermutes(run[0].tasks.lists[Ready(p)]);
    var o := run[0].tasks.lists[Ready(p)].Order();
    assert o[..|o|] == o;
  }
}
