/** Taking, waiting for and giving mutexes: the priority inheritance protocol of
    FreeRTOS/Source/tasks.c and queue.c, one critical section at a time. */
module PriorityInheritance {
  import opened Options
  import opened Directories
  import opened DelayedLists
  import opened EventLists
  import opened MutexState

  class Kernel {
    var s: Mutexes

    constructor (base: map<Task, int>, mutexes: set<Mutex>, current: Task)
      requires current in base && PENDING !in mutexes
      requires forall t | t in base :: 0 <= base[t] < MAX_PRIORITIES
      ensures Ok(s) && Dominates(s) && s == Initial(base, mutexes, current)
      ensures s.priority == s.base == base && s.current == current && s.ready.home == map[] && s.waiters.home == map[]
      ensures s.holder.Keys == mutexes && forall m | m in mutexes :: s.holder[m] == None
    {
      InitialOk(base, mutexes, current);
      s := Initial(base, mutexes, current);
    }

    /** xTaskPriorityInherit for a holder that is a task.  A holder that waits for another mutex
        stays where it is on that list, and the holder of that mutex inherits nothing. */
    method Inherit(h: Task) returns (inherited: bool)
      requires Ok(s) && h in s.priority && s.held[h] > 0
      modifies this
      ensures Ok(s) && SameButPriority(old(s), s) && OnlyRequeued(old(s), s, h)
      ensures s.current == old(s).current && s.current in old(s).priority && h in old(s).base && h in s.priority
      ensures s.priority == Raised(old(s).priority, h, old(s).priority[s.current])
      ensures inherited <==> old(s).base[h] < old(s).priority[s.current]
      ensures forall g | WaitsFor(old(s), h, g) :: g in s.priority
      ensures Dominates(old(s)) ==>
                (Dominates(s) <==> forall g | WaitsFor(old(s), h, g) :: s.priority[s.current] <= s.priority[g])
      ensures FitsWith(old(s), h, s.priority[h]) ==> WaitersStayOrdered(old(s), s)
      ensures Ordered(old(s).waiters, old(s).priority) ==>
                (Ordered(s.waiters, s.priority) <==> FitsWith(old(s), h, s.priority[h]))
    {
      hide Known, Lawful, Queued, Waiting, SetPriority, Dominates, StaysOrdered, Ordered, WaitsFor, FitsWith;
      hide OnlyRequeued;
      StaysQueued(s, h);
      LawOf(s, h);
      LawOf(s, s.current);
      WaitsKnown(s);
      inherited := false;
      if s.priority[h] < s.priority[s.current] {
        var p := s.priority[s.current];
        SetPriorityOk(s, h, p);
        SetPriorityOrder(s, h, p);
        SetPriorityFields(s, h, p);
        if Dominates(s) { RaiseDominates(s, h, p); }
        s := SetPriority(s, h, p);
        inherited := true;
      } else {
        HighEnough(s, h);
        if s.base[h] < s.priority[s.current] {
          inherited := true;
        }
      }
    }

    /** The critical section of xQueueSemaphoreTake that takes an available mutex. */
    method Take(m: Mutex) returns (ok: bool)
      requires Ok(s) && m in s.holder && s.current in s.ready.home
      modifies this
      ensures Ok(s) && ok == (old(s).holder[m] == None)
      ensures !ok ==> s == old(s)
      ensures old(s).current in old(s).held && s.current in s.priority
      ensures forall w | w in s.waiters.home :: w in s.priority
      ensures ok ==> s == old(s).(holder := old(s).holder[m := Some(old(s).current)],
                                  held := old(s).held[old(s).current := old(s).held[old(s).current] + 1])
      ensures ok && Dominates(old(s)) ==>
                (Dominates(s) <==>
                   forall w | w in s.waiters.home && s.waiters.home[w] == m :: s.priority[w] <= s.priority[s.current])
    {
      hide Known, Lawful, Queued, Waiting, Dominates;
      ok := s.holder[m] == None;
      CurrentKnown(s);
      LawOf(s, s.current);
      if ok {
        OwnOk(s, m);
        s := Own(s, m);
      }
    }

    /** The part of xQueueSemaphoreTake that waits for a mutex held by a task.  Afterwards every
        holder is above its waiters exactly if the task for which the holder itself waits, if any,
        is above the current one. */
    method BlockOn(m: Mutex) returns (inherited: bool)
      requires Ok(s) && m in s.holder && s.holder[m].Some? && s.current in s.ready.home
      modifies this
      ensures Ok(s) && s.current == old(s).current && s.holder == old(s).holder
      ensures s.held == old(s).held && s.base == old(s).base
      ensures s.current in old(s).priority && s.holder[m].value in old(s).priority && s.holder[m].value in old(s).base
      ensures s.priority == Raised(old(s).priority, s.holder[m].value, old(s).priority[s.current])
      ensures s.ready.home.Keys == old(s).ready.home.Keys - {s.current}
      ensures inherited <==> old(s).base[s.holder[m].value] < old(s).priority[s.current]
      ensures var h := s.holder[m].value;
              && h in s.priority && s.priority[h] >= s.priority[s.current] == old(s).priority[s.current]
              && (forall g | WaitsFor(old(s), h, g) :: g in s.priority)
              && (Dominates(old(s)) ==>
                    (Dominates(s) <==> forall g | WaitsFor(old(s), h, g) :: s.priority[s.current] <= s.priority[g]))
              && (FitsWith(old(s), h, s.priority[h]) ==> WaitersStayOrdered(old(s), s))
      ensures Joined(old(s), s, m) && LeftReady(old(s), s, s.holder[m].value)
    {
      hide Known, Lawful, Queued, Waiting, Dominates, SetPriority, Enqueue, Unready;
      hide StaysOrdered, Ordered, WaitsFor, FitsWith, OnlyRequeued, LeftReady, Joined, Unreadied;
      var h := s.holder[m].value;
      HolderHolds(s, m);
      CurrentReady(s);
      LawOf(s, s.current);
      inherited := Inherit(h);
      ghost var raised := s;
      CurrentStillReady(old(s), s);
      CurrentReady(s);
      UnreadyOk(s, s.current);
      UnreadyFields(s, s.current);
      s := Unready(s, s.current);
      LawOf(s, s.current);
      EnqueueOk(s, m, s.current);
      EnqueueDominates(s, m, s.current);
      EnqueueFields(s, m, s.current);
      ghost var apart := s;
      JoinsWaiters(old(s), s, m);
      s := Enqueue(s, m, s.current);
      LeavesReady(old(s), raised, apart, s, h);
      if FitsWith(old(s), h, s.priority[h]) { BothStayOrdered(old(s), raised, s); }
    }

    /** xQueueGenericSend on a mutex: only its holder can give it (the kernel asserts it), and the
        first waiter becomes ready, one of the highest priority if the list is in order. */
    method Give(m: Mutex) returns (ok: bool)
      requires Ok(s) && m in s.holder && s.current in s.ready.home
      requires s.holder[m].Some? ==> s.holder[m] == Some(s.current)
      modifies this
      ensures Ok(s) && (Dominates(old(s)) ==> Dominates(s)) && ok == old(s).holder[m].Some?
      ensures WaitersStayOrdered(old(s), s) && old(s).ready.home.Keys <= s.ready.home.Keys
      ensures !ok ==> s == old(s)
      ensures ok ==>
                && s.holder == old(s).holder[m := None] && s.current == old(s).current && s.base == old(s).base
                && s.current in s.held && s.current in s.base && s.current in old(s).held
                && s.held == old(s).held[s.current := old(s).held[s.current] - 1]
                && s.priority == (if s.held[s.current] == 0 then old(s).priority[s.current := s.base[s.current]]
                                  else old(s).priority)
                && FirstWoken(old(s), s, m)
    {
      hide Known, Queued, Waiting, Dominates, SetPriority, LawfulExcept, Dequeue, MakeReady, Disinherit;
      hide StaysOrdered, ListOrdered, OnlyRequeued, Readied, FirstWoken;
      ok := s.holder[m].Some?;
      FirstIsHighest(s, m);
      SameOrder(s, s);
      if ok {
        CurrentReady(s);
        DisownOk(s, m);
        SameOrder(s, Disown(s, m));
        s := Disown(s, m);
        DisinheritOk(s);
        DisinheritFields(s);
        DisinheritQueues(s);
        BothStayOrdered(old(s), s, Disinherit(s));
        ghost var disowned := s;
        s := Disinherit(s);
        ghost var lowered := s;
        CurrentKnown(s);
        LawOf(s, s.current);
        ListsOf(s, m);
        if s.waiters.lists[m].items != [] {
          var w := s.waiters.lists[m].items[0];
          HeadWaits(s, m);
          DequeueOk(s, w);
          DequeueFields(s, w);
          BothStayOrdered(old(s), s, Dequeue(s, w));
          s := Dequeue(s, w);
          MakeReadyOk(s, w);
          MakeReadyFields(s, w);
          SameOrder(s, MakeReady(s, w));
          BothStayOrdered(old(s), s, MakeReady(s, w));
          s := MakeReady(s, w);
        }
        LawOf(s, s.current);
        GivenOn(old(s), disowned, lowered, s, m);
      }
    }

    /** A tick readies a task whose wait for a mutex has timed out. */
    method TimeOut(t: Task)
      requires Ok(s) && t in s.waiters.home
      modifies this
      ensures Ok(s) && (Dominates(old(s)) ==> Dominates(s)) && WaitersStayOrdered(old(s), s)
      ensures s.ready.home.Keys == old(s).ready.home.Keys + {t} && Readied(old(s).ready, s, t)
      ensures old(s).waiters.Valid() && s.waiters == old(s).waiters.Remove(t)
      ensures s == old(s).(ready := s.ready, waiters := s.waiters, topReady := s.topReady)
    {
      hide Known, Lawful, Queued, Waiting, Dominates, Dequeue, MakeReady, StaysOrdered, Readied;
      DequeueOk(s, t);
      DequeueFields(s, t);
      s := Dequeue(s, t);
      MakeReadyOk(s, t);
      MakeReadyFields(s, t);
      SameOrder(s, MakeReady(s, t));
      BothStayOrdered(old(s), s, MakeReady(s, t));
      s := MakeReady(s, t);
    }

    /** The last part of xQueueSemaphoreTake: the current task runs again after its time-out and the
        queue is still empty; with `inherited` it had raised the holder, which now gives up what no
        other waiter needs (vTaskPriorityDisinheritAfterTimeout).  The kernel asserts that the
        holder that gives up its priority is not the current task. */
    method AfterTimeOut(m: Mutex, inherited: bool) returns (asserted: bool)
      requires Ok(s) && m in s.holder
      modifies this
      ensures Ok(s) && SameButPriority(old(s), s)
      ensures s.holder[m] == None || !inherited ==> asserted && s == old(s)
      ensures s.holder[m].Some? ==>
                var h := s.holder[m].value;
                && h in s.held && h in s.base && h in s.priority && h in old(s).priority
                && s.priority == old(s).priority[h := s.priority[h]]
                && (asserted <==> !(inherited && h == s.current && s.held[h] == 1
                                    && old(s).priority[h] != Needed(old(s), m, h)))
                && (!asserted || s.held[h] > 1 ==> s == old(s)) && OnlyRequeued(old(s), s, h)
                && (inherited && asserted && s.held[h] == 1 ==>
                      s.priority[h] == Needed(old(s), m, h) && LoweredTo(old(s), s, m, h))
                && (FitsWith(old(s), h, s.priority[h]) ==> WaitersStayOrdered(old(s), s))
      ensures m in old(s).waiters.lists
      ensures Dominates(old(s)) && ListOrdered(old(s).waiters, old(s).priority, m) ==> Dominates(s)
    {
      hide Known, Lawful, Queued, Waiting, Dominates, SetPriority, StaysOrdered, ListOrdered, WaitsFor, FitsWith, Needed;
      hide OnlyRequeued;
      asserted := true;
      ListsOf(s, m);
      SameOrder(s, s);
      if s.holder[m].Some? {
        HolderHolds(s, m);
        HolderStillKnown(s, s.holder[m].value);
        StaysQueued(s, s.holder[m].value);
      }
      if inherited {
        if s.holder[m].Some? {
          var h := s.holder[m].value;
          LawOf(s, h);
          NeededIsEnough(s, m, h);
          HighestWaitingIsHighest(s, m);
          var highest := HighestWaiting(s, m);
          var priorityToUse := if s.base[h] < highest then highest else s.base[h];
          assert priorityToUse == Needed(s, m, h) by { NeededIs(s, m, h); }
          if s.priority[h] != priorityToUse {
            if s.held[h] == 1 {
              if h == s.current {
                asserted := false;
              } else {
                SetPriorityOk(s, h, priorityToUse);
                SetPriorityOrder(s, h, priorityToUse);
                SetPriorityFields(s, h, priorityToUse);
                if Dominates(s) && ListOrdered(s.waiters, s.priority, m) { LowerDominates(s, m, h); }
                s := SetPriority(s, h, priorityToUse);
              }
            }
          }
          HolderStillKnown(s, h);
        }
      }
    }

    /** The current task blocks for some other reason. */
    method Sleep()
      requires Ok(s) && s.current in s.ready.home
      modifies this
      ensures Ok(s) && (Dominates(old(s)) ==> Dominates(s))
      ensures Unreadied(old(s).ready, s, old(s).current) && s == old(s).(ready := s.ready)
    {
      hide Known, Lawful, Queued, Waiting, Dominates, Unreadied;
      UnreadyOk(s, s.current);
      UnreadyFields(s, s.current);
      s := Unready(s, s.current);
    }

    /** A task that was blocked for some other reason is ready again. */
    method Wake(t: Task)
      requires Ok(s) && t in s.priority && t !in s.ready.home && t !in s.waiters.home
      modifies this
      ensures Ok(s) && (Dominates(old(s)) ==> Dominates(s))
      ensures Readied(old(s).ready, s, t)
      ensures s == old(s).(ready := s.ready, topReady := s.topReady)
    {
      hide Known, Lawful, Queued, Waiting, Dominates, Readied;
      MakeReadyOk(s, t);
      MakeReadyFields(s, t);
      s := MakeReady(s, t);
    }

    /** vTaskSwitchContext: a ready task of the highest priority runs. */
    method SwitchTo(t: Task)
      requires Ok(s) && t in s.ready.home
      requires forall u | u in s.ready.home :: u in s.priority && t in s.priority && s.priority[u] <= s.priority[t]
      modifies this
      ensures Ok(s) && (Dominates(old(s)) ==> Dominates(s))
      ensures t in s.priority && s == old(s).(current := t, topReady := s.priority[t])
    {
      CurrentApart(s, t);
      s := s.(current := t, topReady := s.priority[t]);
    }
  }

  /** Task h runs at least at priority p. */
  function Raised(priority: map<Task, int>, h: Task, p: int): map<Task, int>
    requires h in priority
  {
    if priority[h] < p then priority[h := p] else priority
  }

  ghost predicate SameButPriority(before: Mutexes, after: Mutexes) {
    && after.base == before.base && after.held == before.held && after.holder == before.holder
    && after.current == before.current && after.waiters == before.waiters
    && after.ready.home.Keys == before.ready.home.Keys
  }

  /** The ready lists once the priority of `t` is p: unless it was so before or `t` is not ready, it
      has gone to the end of the list of that priority, and no other task moved. */
  ghost function Requeued(s: Mutexes, t: Task, p: int): Directory<int>
    requires s.ready.Valid() && t in s.priority && p in s.ready.lists
  {
    if p != s.priority[t] && t in s.ready.home then s.ready.Remove(t).InsertEnd(p, t) else s.ready
  }

  /** In the ready lists nothing but `t` has moved, to the end of the list of its new priority. */
  ghost predicate OnlyRequeued(before: Mutexes, after: Mutexes, t: Task) {
    && before.ready.Valid() && t in before.priority && t in after.priority && after.priority[t] in before.ready.lists
    && after.ready == Requeued(before, t, after.priority[t])
  }

  /** `t` has joined the end of the ready list of its priority. */
  ghost predicate Readied(ready: Directory<int>, after: Mutexes, t: Task) {
    && ready.Valid() && t !in ready.home && t in after.priority && after.priority[t] in ready.lists
    && after.ready == ready.InsertEnd(after.priority[t], t)
  }

  /** The current task has left the ready lists, in which only the holder h of mutex m has moved, and
      waits for m behind the waiters of at least its priority. */
  ghost predicate Joined(before: Mutexes, after: Mutexes, m: Mutex) {
    && before.waiters.Valid() && m in before.waiters.lists && after.current !in before.waiters.home
    && after.current in after.priority && 0 <= after.priority[after.current] < MAX_PRIORITIES
    && after.waiters == before.waiters.InsertAt(m,
         PriorityPlace(before.waiters, after.priority, m, after.current), after.current)
    && JoinedByPriority(before.waiters.lists[m].items, after.waiters.lists[m].items, after.priority, after.current)
    && after.current !in after.ready.home
  }

  /** `t` has left the ready lists, and no other task moved. */
  ghost predicate Unreadied(ready: Directory<int>, after: Mutexes, t: Task) {
    ready.Valid() && t in ready.home && after.ready == ready.Remove(t)
  }

  /** The current task has left the ready lists, in which the task h that inherits may have moved. */
  ghost predicate LeftReady(before: Mutexes, after: Mutexes, h: Task) {
    && before.ready.Valid() && h in before.priority && h in after.priority && after.priority[h] in before.ready.lists
    && Unreadied(Requeued(before, h, after.priority[h]), after, after.current)
  }

  /** The first waiter, of the highest priority if the list is in order, is ready instead of waiting. */
  ghost predicate FirstWoken(before: Mutexes, after: Mutexes, m: Mutex) {
    && before.waiters.Valid() && m in before.waiters.lists
    && before.ready.Valid() && before.current in before.priority && before.current in after.priority
    && after.priority[before.current] in before.ready.lists
    && var items := before.waiters.lists[m].items;
    var ready := Requeued(before, before.current, after.priority[before.current]);
    if items == [] then after.waiters == before.waiters && after.ready == ready
    else && items[0] in before.waiters.home && after.waiters == before.waiters.Remove(items[0])
         && Readied(ready, after, items[0])
         && (ListOrdered(before.waiters, before.priority, m) ==>
               forall w | w in items :: w in before.priority && items[0] in before.priority
                                        && before.priority[w] <= before.priority[items[0]])
  }

  /** The holder runs at its base priority or, if that is higher, at that of the first waiter, and no
      waiter is above it if the list was in order. */
  ghost predicate LoweredTo(before: Mutexes, after: Mutexes, m: Mutex, h: Task) {
    && h in after.base && h in after.priority && after.base[h] <= after.priority[h]
    && m in before.waiters.lists && (forall w | w in before.waiters.home :: w in before.priority)
    && (ListOrdered(before.waiters, before.priority, m) ==>
          forall w | w in before.waiters.home && before.waiters.home[w] == m :: before.priority[w] <= after.priority[h])
    && var items := before.waiters.lists[m].items;
       after.priority[h] == if items != [] && items[0] in before.priority && before.priority[items[0]] > after.base[h]
                            then before.priority[items[0]] else after.base[h]
  }

  // ---------- Facts of the invariant, one at a time ----------

  lemma LawOf(s: Mutexes, t: Task)
    requires Ok(s) && t in s.priority
    ensures t in s.base && t in s.held && 0 <= s.base[t] <= s.priority[t] < MAX_PRIORITIES
    ensures s.held[t] == |Held(s, t)| && (s.held[t] == 0 ==> s.priority[t] == s.base[t])
    ensures s.current in s.priority && s.ready.Valid() && s.waiters.Valid() && LawfulExcept(s, Some(t))
  {}

  lemma CurrentKnown(s: Mutexes)
    requires Ok(s)
    ensures s.current in s.priority && forall w | w in s.waiters.home :: w in s.priority
  {}

  lemma CurrentReady(s: Mutexes)
    requires Ok(s) && s.current in s.ready.home
    ensures s.current !in s.waiters.home && s.current in s.priority && s.current in s.held
  {}

  lemma HolderHolds(s: Mutexes, m: Mutex)
    requires Ok(s) && m in s.holder && s.holder[m].Some?
    ensures var h := s.holder[m].value; h in s.priority && h in s.held && s.held[h] > 0
    ensures s.current in s.held
  {
    hide Directory.Valid, Queued;
    assert m in Held(s, s.holder[m].value);
  }

  lemma WaitsKnown(s: Mutexes)
    requires Ok(s)
    ensures forall w, h | WaitsFor(s, w, h) :: w in s.priority && h in s.priority
  {
    hide Queued, Lawful;
    forall w, h | WaitsFor(s, w, h) ensures w in s.priority && h in s.priority {
      var m := s.waiters.home[w];
      assert m in s.holder && s.holder[m].Some? && s.holder[m].value in s.priority;
    }
  }

  lemma HighEnough(s: Mutexes, h: Task)
    requires Ok(s) && h in s.priority && s.current in s.priority && s.priority[h] >= s.priority[s.current]
    ensures forall g | WaitsFor(s, h, g) :: g in s.priority
    ensures Dominates(s) ==> forall g | WaitsFor(s, h, g) :: s.priority[s.current] <= s.priority[g]
    ensures FitsWith(s, h, s.priority[h]) ==> WaitersStayOrdered(s, s)
    ensures Ordered(s.waiters, s.priority) ==> FitsWith(s, h, s.priority[h])
  {
    hide Queued, Lawful, StaysOrdered, Ordered, FitsWith;
    SameOrder(s, s);
    WaitsKnown(s);
    assert s.priority[h := s.priority[h]] == s.priority;
    assert Ordered(s.waiters, s.priority) ==> FitsWith(s, h, s.priority[h]) by {
      FitsAsItIs(s, h);
    }
  }

  lemma FitsAsItIs(s: Mutexes, h: Task)
    requires Waiting(s) && h in s.priority
    ensures Ordered(s.waiters, s.priority) ==> FitsWith(s, h, s.priority[h])
  {
    assert s.priority[h := s.priority[h]] == s.priority;
    OrderedAfterChange(s.waiters, s.priority, h, s.priority[h]);
  }

  lemma RaiseDominates(s: Mutexes, h: Task, p: int)
    requires Ok(s) && Dominates(s) && h in s.priority && s.ready.Valid() && p in s.ready.lists
    requires s.current in s.priority && s.priority[h] < p == s.priority[s.current]
    ensures forall g | WaitsFor(s, h, g) :: g in s.priority
    ensures var after := SetPriority(s, h, p);
            Dominates(after) <==> forall g | WaitsFor(s, h, g) :: after.priority[s.current] <= after.priority[g]
  {
    SetPriorityDominates(s, h, p);
    hide Queued, Lawful, Directory.Valid, Directory.Remove, Directory.InsertEnd;
    assert SetPriority(s, h, p).priority == s.priority[h := p];
  }

  lemma LowerDominates(s: Mutexes, m: Mutex, h: Task)
    requires Ok(s) && Dominates(s) && m in s.holder && s.holder[m] == Some(h) && h in s.held && s.held[h] == 1
    requires m in s.waiters.lists && ListOrdered(s.waiters, s.priority, m)
    ensures h in s.priority && s.ready.Valid() && Needed(s, m, h) in s.ready.lists
    ensures Dominates(SetPriority(s, h, Needed(s, m, h)))
  {
    hide Queued, Directory.Valid, ListOrdered, Needed, SetPriority;
    HolderHolds(s, m);
    LawOf(s, h);
    HoldsOnlyThis(s, h, m);
    NeededIsEnough(s, m, h);
    ReadyLists(s, Needed(s, m, h));
    SetPriorityDominates(s, h, Needed(s, m, h));
    assert forall w | WaitsFor(s, w, h) :: s.waiters.home[w] == m;
    assert forall w | w in s.waiters.home && s.waiters.home[w] == m :: WaitsFor(s, w, h);
  }

  lemma ReadyLists(s: Mutexes, p: int)
    requires Ok(s) && 0 <= p < MAX_PRIORITIES
    ensures p in s.ready.lists
  {}

  lemma NeededIs(s: Mutexes, m: Mutex, h: Task)
    requires Ok(s) && m in s.holder && h in s.priority && h in s.base && m in s.waiters.lists
    requires forall i | 0 <= i < |s.waiters.lists[m].items| :: s.waiters.lists[m].items[i] in s.eventValue
    ensures Needed(s, m, h) == if s.base[h] < HighestWaiting(s, m) then HighestWaiting(s, m) else s.base[h]
  {}

  lemma HolderStillKnown(s: Mutexes, h: Task)
    requires Ok(s) && h in s.priority
    ensures h in s.base && h in s.held && s.base[h] <= s.priority[h] && s.priority == s.priority[h := s.priority[h]]
  {}

  lemma GivenOn(before: Mutexes, disowned: Mutexes, lowered: Mutexes, after: Mutexes, m: Mutex)
    requires disowned == before.(held := disowned.held, holder := disowned.holder)
    requires OnlyRequeued(disowned, lowered, before.current) && lowered.waiters == before.waiters
    requires after.priority == lowered.priority
    requires before.waiters.Valid() && m in before.waiters.lists
    requires var items := before.waiters.lists[m].items;
             if items == [] then after == lowered
             else && items[0] in before.waiters.home && after.waiters == before.waiters.Remove(items[0])
                  && Readied(lowered.ready, after, items[0])
    requires var items := before.waiters.lists[m].items;
             items != [] && ListOrdered(before.waiters, before.priority, m) ==> forall w | w in items ::
               w in before.priority && items[0] in before.priority && before.priority[w] <= before.priority[items[0]]
    ensures FirstWoken(before, after, m)
  {
    hide ListOrdered, Directory.Valid;
  }

  lemma SameOrder(s: Mutexes, after: Mutexes)
    requires after.waiters == s.waiters && after.priority == s.priority
    ensures WaitersStayOrdered(s, after)
  {}

  lemma BothStayOrdered(a: Mutexes, b: Mutexes, c: Mutexes)
    requires WaitersStayOrdered(a, b) && WaitersStayOrdered(b, c)
    ensures WaitersStayOrdered(a, c)
  {
    hide ListOrdered;
  }

  lemma ListsOf(s: Mutexes, m: Mutex)
    requires Ok(s) && m in s.holder
    ensures m in s.waiters.lists && s.waiters.Valid()
  {}

  lemma FirstIsHighest(s: Mutexes, m: Mutex)
    requires Ok(s) && m in s.holder
    ensures m in s.waiters.lists && s.waiters.Valid()
    ensures var items := s.waiters.lists[m].items;
            items != [] && ListOrdered(s.waiters, s.priority, m) ==> forall w | w in items ::
              w in s.priority && items[0] in s.priority && s.priority[w] <= s.priority[items[0]]
  {
    hide Lawful, Queued, ListOrdered;
    WaitersOf(s, m);
    if s.waiters.lists[m].items != [] && ListOrdered(s.waiters, s.priority, m) {
      HeadIsHighest(s.waiters, s.priority, m);
    }
  }

  lemma HeadWaits(s: Mutexes, m: Mutex)
    requires s.waiters.Valid() && m in s.waiters.lists && s.waiters.lists[m].items != []
    ensures s.waiters.lists[m].items[0] in s.waiters.home
  {
    assert s.waiters.ListOk(m);
    var t := s.waiters.lists[m].items[0];
    assert t in s.waiters.lists[m].items;
  }

  lemma CurrentStillReady(before: Mutexes, s: Mutexes)
    requires SameButPriority(before, s) && before.current in before.ready.home
    ensures s.current in s.ready.home
  {}

  lemma SetPriorityFields(s: Mutexes, t: Task, p: int)
    requires s.ready.Valid() && p in s.ready.lists
    ensures SetPriority(s, t, p).priority == s.priority[t := p] && SameButPriority(s, SetPriority(s, t, p))
    ensures t in s.priority && p != s.priority[t] ==> OnlyRequeued(s, SetPriority(s, t, p), t)
  {}

  lemma StaysQueued(s: Mutexes, t: Task)
    requires Ok(s) && t in s.priority
    ensures OnlyRequeued(s, s, t)
  {
    hide Lawful, Waiting;
  }

  lemma UnreadyFields(s: Mutexes, t: Task)
    requires s.ready.Valid() && t in s.ready.home
    ensures Unreadied(s.ready, Unready(s, t), t)
    ensures var after := Unready(s, t);
            && after.ready == s.ready.Remove(t) && after.priority == s.priority && after.holder == s.holder
            && after == s.(ready := after.ready)
  {}

  lemma EnqueueFields(s: Mutexes, m: Mutex, t: Task)
    requires s.waiters.Valid() && m in s.waiters.lists && t !in s.waiters.home
    requires t in s.priority && 0 <= s.priority[t] < MAX_PRIORITIES
    ensures var after := Enqueue(s, m, t);
            && after.waiters == s.waiters.InsertAt(m, PriorityPlace(s.waiters, s.priority, m, t), t)
            && after == s.(waiters := after.waiters)
  {}

  lemma JoinsWaiters(before: Mutexes, s: Mutexes, m: Mutex)
    requires s.waiters.Valid() && m in s.waiters.lists && s.current !in s.waiters.home && s.current !in s.ready.home
    requires s.current in s.priority && 0 <= s.priority[s.current] < MAX_PRIORITIES && before.waiters == s.waiters
    ensures Joined(before, Enqueue(s, m, s.current), m)
  {
    hide Directory.Valid, PriorityPlace, JoinedByPriority;
    PlacedByPriority(s.waiters, s.priority, m, s.current);
  }

  lemma LeavesReady(before: Mutexes, raised: Mutexes, s: Mutexes, after: Mutexes, h: Task)
    requires OnlyRequeued(before, raised, h) && Unreadied(raised.ready, s, s.current)
    requires s.priority == raised.priority && after == s.(waiters := after.waiters)
    ensures LeftReady(before, after, h)
  {
    hide Requeued, Directory.Valid;
  }

  lemma DequeueFields(s: Mutexes, t: Task)
    requires s.waiters.Valid() && t in s.waiters.home
    ensures var after := Dequeue(s, t);
            && after.waiters.home == s.waiters.home - {t} && after.waiters == s.waiters.Remove(t)
            && after == s.(waiters := after.waiters)
  {}

  lemma MakeReadyFields(s: Mutexes, t: Task)
    requires s.ready.Valid() && t in s.priority && s.priority[t] in s.ready.lists && t !in s.ready.home
    ensures var after := MakeReady(s, t);
            && after.ready.home == s.ready.home[t := s.priority[t]] && Readied(s.ready, after, t)
            && after == s.(ready := after.ready, topReady := after.topReady)
  {}

  lemma DisinheritQueues(s: Mutexes)
    requires s.current in s.priority && s.current in s.base && s.current in s.held
    requires s.ready.Valid() && s.base[s.current] in s.ready.lists && s.priority[s.current] in s.ready.lists
    ensures OnlyRequeued(s, Disinherit(s), s.current)
  {}

  lemma DisinheritFields(s: Mutexes)
    requires s.current in s.priority && s.current in s.base && s.current in s.held
    requires s.ready.Valid() && s.base[s.current] in s.ready.lists
    ensures var after := Disinherit(s);
            && after.holder == s.holder && after.held == s.held && after.current == s.current
            && after.waiters == s.waiters && after.base == s.base
            && after.ready.home.Keys == s.ready.home.Keys
            && after.priority == (if s.held[s.current] == 0 then s.priority[s.current := s.base[s.current]] else s.priority)
  {}

  lemma CurrentApart(s: Mutexes, t: Task)
    requires Ok(s) && t in s.ready.home
    requires forall u | u in s.ready.home :: u in s.priority && t in s.priority && s.priority[u] <= s.priority[t]
    ensures t in s.priority
    ensures var after := s.(current := t, topReady := s.priority[t]);
            Ok(after) && (Dominates(after) <==> Dominates(s))
  {
    hide Directory.Valid, Ranks;
    var after := s.(current := t, topReady := s.priority[t]);
    SameWaits(s, after);
    assert forall u :: Held(after, u) == Held(s, u);
  }
}
