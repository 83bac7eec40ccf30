/** Mutexes and priority inheritance (FreeRTOS/Source/tasks.c and queue.c): the variables as one
    value, the steps that change it, and what every step keeps. */
module MutexState {
  import opened Options
  import opened Rings
  import opened Directories
  import opened DelayedLists
  import opened EventLists

  type Mutex = int

  datatype Mutexes = Mutexes(
    ready: Directory<int>,              // pxReadyTasksLists, by priority
    waiters: Directory<int>,            // xTasksWaitingToReceive of each mutex
    priority: map<Task, int>,           // uxPriority
    base: map<Task, int>,               // uxBasePriority
    held: map<Task, int>,               // uxMutexesHeld
    eventValue: map<Task, int>,         // item value of the event list item
    holder: map<Mutex, Option<Task>>,   // xMutexHolder; None while the mutex is available
    topReady: int,                      // uxTopReadyPriority
    current: Task)                      // pxCurrentTCB

  ghost function Held(s: Mutexes, t: Task): set<Mutex> { set m | m in s.holder && s.holder[m] == Some(t) }

  // ---------- The invariant ----------

  ghost predicate Known(s: Mutexes) {
    && s.base.Keys == s.priority.Keys && s.held.Keys == s.priority.Keys && s.current in s.priority
    && (forall t | t in s.priority :: 0 <= s.priority[t] < MAX_PRIORITIES && t in s.base && s.base[t] >= 0)
    && s.eventValue == Ranks(s.priority)
    && (forall m | m in s.holder ::
          m != PENDING && m in s.waiters.lists && (s.holder[m].Some? ==> s.holder[m].value in s.priority))
  }

  /** No task runs below its base priority, a task that holds nothing runs at it, and the count of
      mutexes held is right. */
  ghost predicate Lawful(s: Mutexes) { LawfulExcept(s, None) }

  /** The same while one task, having given its last mutex, may still have to disinherit. */
  ghost predicate LawfulExcept(s: Mutexes, except: Option<Task>) {
    forall t | t in s.priority :: t in s.base && t in s.held
      && s.base[t] <= s.priority[t] && s.held[t] == |Held(s, t)|
      && (s.held[t] == 0 && Some(t) != except ==> s.priority[t] == s.base[t])
  }

  /** A ready task is on the ready list of its current priority, and uxTopReadyPriority is no
      lower than any of them. */
  ghost predicate Queued(s: Mutexes) {
    && s.ready.Valid() && (forall p | 0 <= p < MAX_PRIORITIES :: p in s.ready.lists)
    && 0 <= s.topReady < MAX_PRIORITIES
    && (forall t | t in s.ready.home :: t in s.priority && s.ready.home[t] == s.priority[t] <= s.topReady)
  }

  ghost predicate Waiting(s: Mutexes) {
    s.waiters.Valid() && forall t | t in s.waiters.home :: t in s.priority && t !in s.ready.home
  }

  ghost predicate Ok(s: Mutexes) { Known(s) && Lawful(s) && Queued(s) && Waiting(s) }

  /** Task w waits for a mutex that task h holds. */
  ghost predicate WaitsFor(s: Mutexes, w: Task, h: Task) {
    w in s.waiters.home && s.waiters.home[w] in s.holder && s.holder[s.waiters.home[w]] == Some(h)
  }

  /** Every holder runs at least at the priority of every task waiting for its mutex. */
  ghost predicate Dominates(s: Mutexes) {
    forall w, h | WaitsFor(s, w, h) :: w in s.priority && h in s.priority && s.priority[w] <= s.priority[h]
  }

  /** Every list of waiters that was in order still is. */
  ghost predicate WaitersStayOrdered(before: Mutexes, after: Mutexes) {
    StaysOrdered(before.waiters, before.priority, after.waiters, after.priority)
  }

  /** Task t, if it waits for a mutex, fits where it is with priority p. */
  ghost predicate FitsWith(s: Mutexes, t: Task, p: int)
    requires Waiting(s)
  {
    Fits(s.waiters, s.priority, t, p)
  }

  // ---------- A change of priority ----------

  /** `t` runs at priority p from now on; if it is ready it changes lists, and if it waits it
      stays where it is. */
  function SetPriority(s: Mutexes, t: Task, p: int): Mutexes
    requires s.ready.Valid() && p in s.ready.lists
  {
    s.(priority := s.priority[t := p], eventValue := s.eventValue[t := MAX_PRIORITIES - p],
       ready := if t in s.ready.home then s.ready.Remove(t).InsertEnd(p, t) else s.ready,
       topReady := if t in s.ready.home then Higher(s.topReady, p) else s.topReady)
  }

  lemma RanksUpdate(priority: map<Task, int>, t: Task, p: int)
    ensures Ranks(priority)[t := MAX_PRIORITIES - p] == Ranks(priority[t := p])
  {}

  lemma SetPriorityOk(s: Mutexes, t: Task, p: int)
    requires Known(s) && LawfulExcept(s, Some(t)) && Queued(s) && Waiting(s)
    requires t in s.priority && s.base[t] <= p < MAX_PRIORITIES
    requires s.held[t] == 0 ==> p == s.base[t]
    ensures s.ready.Valid() && p in s.ready.lists && Ok(SetPriority(s, t, p))
  {
    hide Directory.Valid, Directory.ListOk, Directory.Remove, Directory.InsertEnd, Ranks, Lawful;
    RanksUpdate(s.priority, t, p);
    SetPriorityLawful(s, t, p);
  }

  lemma SetPriorityLawful(s: Mutexes, t: Task, p: int)
    requires s.ready.Valid() && p in s.ready.lists && LawfulExcept(s, Some(t))
    requires t in s.priority && t in s.base && t in s.held && s.base[t] <= p && (s.held[t] == 0 ==> p == s.base[t])
    ensures Lawful(SetPriority(s, t, p))
  {
    hide Directory.Valid, Directory.Remove, Directory.InsertEnd;
    assert forall u :: Held(SetPriority(s, t, p), u) == Held(s, u);
  }

  /** A new priority keeps holders above their waiters exactly if it is no lower than those of the
      tasks waiting for t and no higher than that of the task t waits for. */
  lemma SetPriorityDominates(s: Mutexes, t: Task, p: int)
    requires Known(s) && Waiting(s) && s.ready.Valid() && p in s.ready.lists && t in s.priority && Dominates(s)
    ensures forall w, h | WaitsFor(s, w, h) :: w in s.priority && h in s.priority
    ensures Dominates(SetPriority(s, t, p)) <==>
              && (forall w | WaitsFor(s, w, t) && w != t :: s.priority[w] <= p)
              && (forall h | WaitsFor(s, t, h) && h != t :: p <= s.priority[h])
  {
    hide Directory.Valid, Directory.Remove, Directory.InsertEnd, Ranks;
    var after := SetPriority(s, t, p);
    assert forall w, h :: WaitsFor(after, w, h) <==> WaitsFor(s, w, h);
    assert after.priority == s.priority[t := p];
  }

  /** The lists of waiters stay in order if t fits where it waits, and only then if they all are. */
  lemma SetPriorityOrder(s: Mutexes, t: Task, p: int)
    requires Waiting(s) && s.ready.Valid() && p in s.ready.lists
    ensures FitsWith(s, t, p) ==> WaitersStayOrdered(s, SetPriority(s, t, p))
    ensures Ordered(s.waiters, s.priority) ==>
              (Ordered(s.waiters, SetPriority(s, t, p).priority) <==> FitsWith(s, t, p))
  {
    OrderedAfterChange(s.waiters, s.priority, t, p);
    hide Directory.Valid, Directory.Remove, Directory.InsertEnd, Fits, StaysOrdered, Ordered;
  }

  // ---------- Ready and waiting ----------

  function Unready(s: Mutexes, t: Task): Mutexes
    requires s.ready.Valid() && t in s.ready.home
  {
    s.(ready := s.ready.Remove(t))
  }

  function MakeReady(s: Mutexes, t: Task): Mutexes
    requires s.ready.Valid() && t in s.priority && s.priority[t] in s.ready.lists && t !in s.ready.home
  {
    s.(ready := s.ready.InsertEnd(s.priority[t], t), topReady := Higher(s.topReady, s.priority[t]))
  }

  /** Who is ready does not matter to who waits for whom. */
  lemma SameWaits(s: Mutexes, after: Mutexes)
    requires after.waiters == s.waiters && after.holder == s.holder && after.priority == s.priority
    ensures Dominates(after) <==> Dominates(s)
  {
    assert forall w, h :: WaitsFor(after, w, h) <==> WaitsFor(s, w, h);
  }

  lemma UnreadyOk(s: Mutexes, t: Task)
    requires Ok(s) && t in s.ready.home
    ensures s.ready.Valid() && Ok(Unready(s, t)) && (Dominates(Unready(s, t)) <==> Dominates(s))
  {
    hide Directory.Valid, Directory.ListOk, Directory.Remove;
    SameWaits(s, Unready(s, t));
    assert forall u :: Held(Unready(s, t), u) == Held(s, u);
  }

  lemma MakeReadyOk(s: Mutexes, t: Task)
    requires Ok(s) && t in s.priority && t !in s.ready.home && t !in s.waiters.home
    ensures s.ready.Valid() && s.priority[t] in s.ready.lists
    ensures Ok(MakeReady(s, t)) && (Dominates(MakeReady(s, t)) <==> Dominates(s))
  {
    hide Directory.Valid, Directory.ListOk, Directory.InsertEnd;
    SameWaits(s, MakeReady(s, t));
    assert forall u :: Held(MakeReady(s, t), u) == Held(s, u);
  }

  /** vTaskPlaceOnEventList, on the list of a mutex */
  function Enqueue(s: Mutexes, m: Mutex, t: Task): Mutexes
    requires s.waiters.Valid() && m in s.waiters.lists && t !in s.waiters.home
    requires t in s.priority && 0 <= s.priority[t] < MAX_PRIORITIES
  {
    s.(waiters := s.waiters.InsertAt(m, PriorityPlace(s.waiters, s.priority, m, t), t))
  }

  lemma EnqueueOk(s: Mutexes, m: Mutex, t: Task)
    requires Ok(s) && m in s.holder && t in s.priority && t !in s.waiters.home && t !in s.ready.home
    ensures s.waiters.Valid() && m in s.waiters.lists && Ok(Enqueue(s, m, t))
    ensures WaitersStayOrdered(s, Enqueue(s, m, t))
  {
    hide Directory.Valid, Directory.ListOk, PriorityPlace, ListOrdered;
    OrderedAfterInsert(s.waiters, s.priority, m, t);
    assert forall u :: Held(Enqueue(s, m, t), u) == Held(s, u);
  }

  /** Waiting for a mutex keeps holders above their waiters if its holder is above the newcomer. */
  lemma EnqueueDominates(s: Mutexes, m: Mutex, t: Task)
    requires Ok(s) && m in s.holder && t in s.priority && t !in s.waiters.home && t !in s.ready.home
    requires s.holder[m].Some? ==> s.holder[m].value in s.priority && s.priority[t] <= s.priority[s.holder[m].value]
    ensures s.waiters.Valid() && m in s.waiters.lists && (Dominates(Enqueue(s, m, t)) <==> Dominates(s))
  {
    hide Directory.Valid, Directory.ListOk, PriorityPlace, Lawful, Queued;
    var after := Enqueue(s, m, t);
    assert forall w, h :: WaitsFor(after, w, h) <==> WaitsFor(s, w, h) || (w == t && s.holder[m] == Some(h));
  }

  function Dequeue(s: Mutexes, t: Task): Mutexes
    requires s.waiters.Valid() && t in s.waiters.home
  {
    s.(waiters := s.waiters.Remove(t))
  }

  lemma DequeueOk(s: Mutexes, t: Task)
    requires Ok(s) && t in s.waiters.home
    ensures s.waiters.Valid() && t in s.priority && t !in s.ready.home && t !in Dequeue(s, t).waiters.home
    ensures Ok(Dequeue(s, t)) && (Dominates(s) ==> Dominates(Dequeue(s, t)))
    ensures WaitersStayOrdered(s, Dequeue(s, t))
  {
    hide Directory.Valid, Directory.ListOk, Directory.Remove, ListOrdered;
    OrderedAfterRemove(s.waiters, s.priority, t);
    assert forall u :: Held(Dequeue(s, t), u) == Held(s, u);
    assert forall w, h | WaitsFor(Dequeue(s, t), w, h) :: WaitsFor(s, w, h);
  }

  // ---------- Taking and giving ----------

  function Own(s: Mutexes, m: Mutex): Mutexes
    requires s.current in s.held
  {
    s.(held := s.held[s.current := s.held[s.current] + 1], holder := s.holder[m := Some(s.current)])
  }

  lemma OwnLawful(s: Mutexes, m: Mutex)
    requires Ok(s) && m in s.holder && s.holder[m] == None
    ensures Ok(Own(s, m))
  {
    hide Directory.Valid, Directory.ListOk;
    var after := Own(s, m);
    assert Held(after, s.current) == Held(s, s.current) + {m} && m !in Held(s, s.current);
    forall u | u != s.current ensures Held(after, u) == Held(s, u) {
      forall k ensures k in Held(after, u) <==> k in Held(s, u) {}
    }
  }

  /** A mutex can be taken while others still wait for it.  Holders stay above their waiters exactly
      if none of those is above the taker. */
  lemma OwnOk(s: Mutexes, m: Mutex)
    requires Ok(s) && m in s.holder && s.holder[m] == None
    ensures Ok(Own(s, m)) && forall w | w in s.waiters.home :: w in s.priority
    ensures Dominates(s) ==>
              (Dominates(Own(s, m)) <==>
                 forall w | w in s.waiters.home && s.waiters.home[w] == m :: s.priority[w] <= s.priority[s.current])
  {
    OwnLawful(s, m);
    hide Directory.Valid, Directory.ListOk, Lawful, Queued;
    var after := Own(s, m);
    assert forall w, h :: WaitsFor(after, w, h) <==>
                            WaitsFor(s, w, h) || (h == s.current && w in s.waiters.home && s.waiters.home[w] == m);
  }

  /** The mutex is available, its holder counts one less. */
  function Disown(s: Mutexes, m: Mutex): Mutexes
    requires s.current in s.held
  {
    s.(held := s.held[s.current := s.held[s.current] - 1], holder := s.holder[m := None])
  }

  lemma DisownOk(s: Mutexes, m: Mutex)
    requires Ok(s) && m in s.holder && s.holder[m] == Some(s.current)
    ensures s.current in s.held && s.held[s.current] > 0
    ensures var after := Disown(s, m);
            && Known(after) && LawfulExcept(after, Some(s.current)) && Queued(after) && Waiting(after)
            && (Dominates(s) ==> Dominates(after))
  {
    hide Directory.Valid, Directory.ListOk;
    var after := Disown(s, m);
    assert forall w, h | WaitsFor(after, w, h) :: WaitsFor(s, w, h);
    assert Held(after, s.current) == Held(s, s.current) - {m} && m in Held(s, s.current);
    forall u | u != s.current ensures Held(after, u) == Held(s, u) {
      forall k ensures k in Held(after, u) <==> k in Held(s, u) {}
    }
  }

  /** xTaskPriorityDisinherit, once the count has gone down */
  function Disinherit(s: Mutexes): Mutexes
    requires s.current in s.priority && s.current in s.base && s.current in s.held
    requires s.ready.Valid() && s.base[s.current] in s.ready.lists
  {
    if s.priority[s.current] != s.base[s.current] && s.held[s.current] == 0
    then SetPriority(s, s.current, s.base[s.current]) else s
  }

  lemma DisinheritOk(s: Mutexes)
    requires Known(s) && LawfulExcept(s, Some(s.current)) && Queued(s) && Waiting(s)
    requires s.current in s.ready.home
    ensures s.current in s.base && s.current in s.held && s.ready.Valid() && s.base[s.current] in s.ready.lists
    ensures s.current in s.priority && s.priority[s.current] in s.ready.lists
    ensures Ok(Disinherit(s)) && (Dominates(s) ==> Dominates(Disinherit(s)))
    ensures WaitersStayOrdered(s, Disinherit(s))
  {
    hide Known, Queued, Waiting, SetPriority, ListOrdered, LawfulExcept, Dominates;
    var t := s.current;
    CurrentLaw(s);
    if s.priority[t] != s.base[t] && s.held[t] == 0 {
      SetPriorityOk(s, t, s.base[t]);
      SetPriorityOrder(s, t, s.base[t]);
      assert FitsWith(s, t, s.base[t]) by { ReadyFits(s, t, s.base[t]); }
      if Dominates(s) {
        HoldsNothing(s, t);
        SetPriorityDominates(s, t, s.base[t]);
        NotWaiting(s, t);
      }
    } else {
      LawfulAgain(s);
    }
  }

  lemma CurrentLaw(s: Mutexes)
    requires Known(s) && LawfulExcept(s, Some(s.current)) && Queued(s)
    ensures var t := s.current;
            && t in s.priority && t in s.base && t in s.held && 0 <= s.base[t] <= s.priority[t] < MAX_PRIORITIES
            && s.held[t] == |Held(s, t)| && s.ready.Valid() && s.base[t] in s.ready.lists && s.priority[t] in s.ready.lists
  {}

  lemma LawfulAgain(s: Mutexes)
    requires LawfulExcept(s, Some(s.current)) && s.current in s.priority && s.current in s.base && s.current in s.held
    requires s.priority[s.current] == s.base[s.current] || s.held[s.current] != 0
    ensures Lawful(s)
  {}

  /** A ready task waits for nothing. */
  lemma NotWaiting(s: Mutexes, t: Task)
    requires Waiting(s) && t in s.ready.home
    ensures t !in s.waiters.home && forall h :: !WaitsFor(s, t, h)
  {}

  lemma ReadyFits(s: Mutexes, t: Task, p: int)
    requires Waiting(s) && t in s.ready.home
    ensures FitsWith(s, t, p)
  {}

  lemma HoldsNothing(s: Mutexes, t: Task)
    requires t in s.held && s.held[t] == 0 && s.held[t] == |Held(s, t)|
    ensures (forall m | m in s.holder :: s.holder[m] != Some(t)) && (forall w :: !WaitsFor(s, w, t))
  {
    forall m | m in s.holder ensures s.holder[m] != Some(t) {
      assert s.holder[m] == Some(t) ==> m in Held(s, t);
    }
  }

  /** A task that holds exactly one mutex holds no other. */
  lemma HoldsOnlyThis(s: Mutexes, t: Task, m: Mutex)
    requires t in s.held && s.held[t] == 1 && s.held[t] == |Held(s, t)| && m in s.holder && s.holder[m] == Some(t)
    ensures forall k | k in s.holder && s.holder[k] == Some(t) :: k == m
  {
    assert m in Held(s, t);
    assert |Held(s, t) - {m}| == 0;
    forall k | k in s.holder && s.holder[k] == Some(t) ensures k == m {
      assert k in Held(s, t);
    }
  }

  /** prvGetHighestPriorityOfWaitToReceiveList */
  function HighestWaiting(s: Mutexes, m: Mutex): int
    requires m in s.waiters.lists
    requires forall i | 0 <= i < |s.waiters.lists[m].items| :: s.waiters.lists[m].items[i] in s.eventValue
  {
    if s.waiters.lists[m].items != [] then MAX_PRIORITIES - s.eventValue[s.waiters.lists[m].items[0]] else 0
  }

  /** It is the priority of a waiter, of the highest one if the list is in order, and that of the
      idle task if there are none. */
  lemma HighestWaitingIsHighest(s: Mutexes, m: Mutex)
    requires Ok(s) && m in s.holder
    ensures m in s.waiters.lists
    ensures forall t | t in s.waiters.lists[m].items :: t in s.eventValue && t in s.priority && t in s.waiters.home
    ensures forall i | 0 <= i < |s.waiters.lists[m].items| :: s.waiters.lists[m].items[i] in s.eventValue
    ensures 0 <= HighestWaiting(s, m) < MAX_PRIORITIES
    ensures ListOrdered(s.waiters, s.priority, m) ==>
              forall t | t in s.waiters.home && s.waiters.home[t] == m :: s.priority[t] <= HighestWaiting(s, m)
    ensures if s.waiters.lists[m].items == [] then HighestWaiting(s, m) == 0
            else exists t | t in s.waiters.lists[m].items :: s.priority[t] == HighestWaiting(s, m)
  {
    hide Known, Lawful, Queued, Waiting, ListOrdered, Directory.Valid;
    WaitersOf(s, m);
    var items := s.waiters.lists[m].items;
    if items != [] {
      var h := items[0];
      assert h in items && s.eventValue[h] == MAX_PRIORITIES - s.priority[h];
      if ListOrdered(s.waiters, s.priority, m) { HeadIsHighest(s.waiters, s.priority, m); }
    }
  }

  lemma WaitersOf(s: Mutexes, m: Mutex)
    requires Ok(s) && m in s.holder
    ensures m in s.waiters.lists
    ensures var items := s.waiters.lists[m].items;
            && (forall t | t in items :: t in s.waiters.home && t in s.priority && t in s.eventValue
                                         && s.eventValue[t] == MAX_PRIORITIES - s.priority[t]
                                         && 0 <= s.priority[t] < MAX_PRIORITIES)
            && (forall i | 0 <= i < |items| :: items[i] in s.eventValue)
            && (forall t | t in s.waiters.home && s.waiters.home[t] == m :: t in items)
  {
    hide Lawful, Queued;
    assert s.waiters.ListOk(m);
    var items := s.waiters.lists[m].items;
    forall t | t in items ensures t in s.waiters.home {}
    assert forall i | 0 <= i < |items| :: items[i] in items;
  }

  /** The priority a holder of exactly mutex m needs once a waiter has given up. */
  function Needed(s: Mutexes, m: Mutex, h: Task): (p: int)
    requires Ok(s) && m in s.holder && h in s.priority
    ensures h in s.base && s.base[h] <= p < MAX_PRIORITIES
  {
    HighestWaitingIsHighest(s, m);
    Higher(s.base[h], HighestWaiting(s, m))
  }

  lemma NeededIsEnough(s: Mutexes, m: Mutex, h: Task)
    requires Ok(s) && m in s.holder && h in s.priority
    ensures h in s.base && (forall w | w in s.waiters.home :: w in s.priority) && m in s.waiters.lists
    ensures ListOrdered(s.waiters, s.priority, m) ==>
              forall w | w in s.waiters.home && s.waiters.home[w] == m :: s.priority[w] <= Needed(s, m, h)
    ensures var items := s.waiters.lists[m].items;
            Needed(s, m, h) == if items != [] && items[0] in s.priority && s.priority[items[0]] > s.base[h]
                               then s.priority[items[0]] else s.base[h]
    ensures Needed(s, m, h) == s.base[h]
            || exists w | w in s.waiters.home && s.waiters.home[w] == m :: s.priority[w] == Needed(s, m, h)
  {
    HighestWaitingIsHighest(s, m);
    WaitersOf(s, m);
    var items := s.waiters.lists[m].items;
    if items != [] {
      var first := items[0];
      assert first in items;
    }
    hide Lawful, Queued, ListOrdered, Directory.Valid;
  }

  // ---------- The start ----------

  /** No mutex taken, every task blocked for some other reason. */
  function Initial(base: map<Task, int>, mutexes: set<Mutex>, current: Task): Mutexes {
    Mutexes(Directory(map[0 := Ring([], 0), 1 := Ring([], 0), 2 := Ring([], 0), 3 := Ring([], 0), 4 := Ring([], 0)], map[]),
            Directory(map m | m in mutexes :: Ring([], 0), map[]),
            base, base, map t | t in base :: 0, Ranks(base), map m | m in mutexes :: None, 0, current)
  }

  lemma InitialOk(base: map<Task, int>, mutexes: set<Mutex>, current: Task)
    requires current in base && PENDING !in mutexes
    requires forall t | t in base :: 0 <= base[t] < MAX_PRIORITIES
    ensures Ok(Initial(base, mutexes, current)) && Dominates(Initial(base, mutexes, current))
    ensures Ordered(Initial(base, mutexes, current).waiters, base)
  {
    var s := Initial(base, mutexes, current);
    assert forall t :: Held(s, t) == {};
  }
}
