/** In which order the tasks of the kernel become ready. */
module WakingOrder {
  import opened Rings
  import opened Directories
  import opened DelayedLists
  import opened EventLists
  import opened KernelState

  /** The lists on which the order of tasks matters. */
  datatype Lineup = Lineup(tasks: Lists, delayed: Place, overflow: Place, events: Directory<int>) {
    ghost predicate Whole() {
      && (forall p | IsPlace(p) :: p in tasks.lists && tasks.lists[p].Valid())
      && IsPlace(delayed) && IsPlace(overflow)
    }

    /** The delayed tasks, those of the current epoch first. */
    ghost function Sleepers(): seq<Task>
      requires Whole()
    {
      tasks.lists[delayed].items + tasks.lists[overflow].items
    }
  }

  function LineupOf(k: K): Lineup { Lineup(k.tasks, k.delayed, k.overflow, k.events) }

  /** The tasks of `s` that have priority p. */
  function Those(s: seq<Task>, priority: map<Task, int>, p: int): seq<Task> {
    if s == [] then [] else
      var n := |s| - 1;
      Those(s[..n], priority, p) + if s[n] in priority && priority[s[n]] == p then [s[n]] else []
  }

  lemma {:induction false} ThoseConcat(s: seq<Task>, x: seq<Task>, priority: map<Task, int>, p: int)
    ensures Those(s + x, priority, p) == Those(s, priority, p) + Those(x, priority, p)
  {
    if x == [] {
      assert s + x == s;
    } else {
      var n := |x| - 1;
      ThoseConcat(s, x[..n], priority, p);
      assert (s + x)[..|s + x| - 1] == s + x[..n];
    }
  }

  /** First the tasks of `first`, then those of `woken`, went one by one to the ends of the ready
      lists of their priorities: no index moved on and no other task came or left.  The tasks of
      `woken` came from the front of the delayed tasks.  All other lists keep their order. */
  ghost predicate BecameReady(a: Lineup, b: Lineup, priority: map<Task, int>, first: seq<Task>, woken: seq<Task>) {
    && a.Whole() && b.Whole() && b.events.lists.Keys == a.events.lists.Keys
    && (forall p | 0 <= p < MAX_PRIORITIES ::
          b.tasks.lists[Ready(p)] == a.tasks.lists[Ready(p)].Joined(Those(first + woken, priority, p)))
    && woken + b.Sleepers() == Without(a.Sleepers(), first)
    && b.tasks.lists[Suspended].items == Without(a.tasks.lists[Suspended].items, first)
    && b.tasks.lists[Termination].items == Without(a.tasks.lists[Termination].items, first)
    && forall e | e in a.events.lists ::
         b.events.lists[e].items == Without(a.events.lists[e].items, first + woken)
  }

  ghost predicate InTurn(a: Lineup, b: Lineup, priority: map<Task, int>, first: seq<Task>) {
    exists woken :: BecameReady(a, b, priority, first, woken)
  }

  lemma CoreWhole(k: K)
    requires Core(k)
    ensures LineupOf(k).Whole()
  {
    forall p | IsPlace(p) ensures p in k.tasks.lists && k.tasks.lists[p].Valid() {
      ListRing(k.tasks, p);
    }
  }

  lemma NoneReadied(a: Lineup, priority: map<Task, int>)
    requires a.Whole()
    ensures BecameReady(a, a, priority, [], [])
  {
    forall p | 0 <= p < MAX_PRIORITIES
      ensures a.tasks.lists[Ready(p)] == a.tasks.lists[Ready(p)].Joined(Those([] + [], priority, p))
    {
      assert IsPlace(Ready(p));
      JoinedNone(a.tasks.lists[Ready(p)]);
    }
    WithoutAbsent(a.Sleepers(), []);
    WithoutAbsent(a.tasks.lists[Suspended].items, []);
    WithoutAbsent(a.tasks.lists[Termination].items, []);
    forall e | e in a.events.lists ensures a.events.lists[e].items == Without(a.events.lists[e].items, [] + []) {
      WithoutAbsent(a.events.lists[e].items, [] + []);
    }
  }

  // ---------- One after the other ----------

  lemma ReadyJoinedMore(a: Lineup, b: Lineup, c: Lineup, priority: map<Task, int>,
                        x: seq<Task>, y: seq<Task>, p: int)
    requires a.Whole() && b.Whole() && c.Whole() && 0 <= p < MAX_PRIORITIES
    requires b.tasks.lists[Ready(p)] == a.tasks.lists[Ready(p)].Joined(Those(x, priority, p))
    requires c.tasks.lists[Ready(p)] == b.tasks.lists[Ready(p)].Joined(Those(y, priority, p))
    ensures c.tasks.lists[Ready(p)] == a.tasks.lists[Ready(p)].Joined(Those(x + y, priority, p))
  {
    assert IsPlace(Ready(p));
    ThoseConcat(x, y, priority, p);
    JoinedMore(a.tasks.lists[Ready(p)], Those(x, priority, p), Those(y, priority, p));
  }

  lemma ReadiedMore(a: Lineup, b: Lineup, c: Lineup, priority: map<Task, int>,
                    f1: seq<Task>, w1: seq<Task>, f2: seq<Task>, w2: seq<Task>)
    requires BecameReady(a, b, priority, f1, w1) && BecameReady(b, c, priority, f2, w2) && (w1 == [] || f2 == [])
    ensures BecameReady(a, c, priority, f1 + f2, w1 + w2)
  {
    var all := (f1 + f2) + (w1 + w2);
    assert all == (f1 + w1) + (f2 + w2);
    forall p | 0 <= p < MAX_PRIORITIES
      ensures c.tasks.lists[Ready(p)] == a.tasks.lists[Ready(p)].Joined(Those(all, priority, p))
    {
      ReadyJoinedMore(a, b, c, priority, f1 + w1, f2 + w2, p);
    }
    SleepersMore(a, b, c, priority, f1, w1, f2, w2);
    WithoutTwice(a.tasks.lists[Suspended].items, f1, f2);
    WithoutTwice(a.tasks.lists[Termination].items, f1, f2);
    forall e | e in a.events.lists
      ensures c.events.lists[e].items == Without(a.events.lists[e].items, all)
    {
      WithoutTwice(a.events.lists[e].items, f1 + w1, f2 + w2);
    }
  }

  lemma SleepersMore(a: Lineup, b: Lineup, c: Lineup, priority: map<Task, int>,
                     f1: seq<Task>, w1: seq<Task>, f2: seq<Task>, w2: seq<Task>)
    requires BecameReady(a, b, priority, f1, w1) && BecameReady(b, c, priority, f2, w2) && (w1 == [] || f2 == [])
    ensures w1 + w2 + c.Sleepers() == Without(a.Sleepers(), f1 + f2)
  {
    hide Lineup.Sleepers;
    SleepersShift(a.Sleepers(), b.Sleepers(), c.Sleepers(), f1, w1, f2, w2);
  }

  lemma SleepersShift(a: seq<Task>, b: seq<Task>, c: seq<Task>,
                      f1: seq<Task>, w1: seq<Task>, f2: seq<Task>, w2: seq<Task>)
    requires w1 + b == Without(a, f1) && w2 + c == Without(b, f2) && (w1 == [] || f2 == [])
    ensures w1 + w2 + c == Without(a, f1 + f2)
  {
    assert w1 + w2 + c == w1 + (w2 + c);
    if f2 == [] {
      WithoutAbsent(b, f2);
      assert f1 + f2 == f1;
    } else {
      WithoutTwice(a, f1, f2);
      assert w1 + b == b && w1 + (w2 + c) == w2 + c;
    }
  }

  lemma InTurnMore(a: Lineup, b: Lineup, c: Lineup, priority: map<Task, int>)
    requires InTurn(a, b, priority, []) && InTurn(b, c, priority, [])
    ensures InTurn(a, c, priority, [])
  {
    hide BecameReady;
    var w1 :| BecameReady(a, b, priority, [], w1);
    var w2 :| BecameReady(b, c, priority, [], w2);
    var none: seq<Task> := [];
    ReadiedMore(a, b, c, priority, none, w1, none, w2);
    assert none + none == none;
  }

  lemma InTurnAfter(a: Lineup, b: Lineup, c: Lineup, priority: map<Task, int>, first: seq<Task>)
    requires BecameReady(a, b, priority, first, []) && InTurn(b, c, priority, [])
    ensures InTurn(a, c, priority, first)
  {
    hide BecameReady;
    var w :| BecameReady(b, c, priority, [], w);
    ReadiedMore(a, b, c, priority, first, [], [], w);
    assert first + [] == first && [] + w == w;
  }

  // ---------- One task at a time ----------

  /** What a task that becomes ready does to the lists. */
  lemma UnblockLists(k: K, t: Task, p: Place)
    requires Core(k) && t in k.tasks.home && !k.tasks.home[t].Ready? && IsPlace(p)
    ensures p in k.tasks.lists && k.tasks.lists[p].Valid() && t in k.priority && p in Unblock(k, t).tasks.lists
    ensures var now := Unblock(k, t).tasks.lists[p];
            && (!p.Ready? ==> now.items == Without(k.tasks.lists[p].items, [t]))
            && now.Valid() && (p.Ready? ==> now == if p.priority == k.priority[t] then k.tasks.lists[p].InsertEnd(t)
                                    else k.tasks.lists[p])
  {
    hide Directory.Remove, Directory.InsertEnd, Waiting, Directory.Valid, Directory.ListOk;
    assert k.tasks.Valid() && forall q :: q in k.tasks.lists <==> IsPlace(q);
    ListRing(k.tasks, p);
    RemoveIsWithout(k.tasks, t, p);
  }

  lemma ReadyListJoined(k: K, t: Task, p: int)
    requires Core(k) && t in k.tasks.home && !k.tasks.home[t].Ready? && 0 <= p < MAX_PRIORITIES
    ensures Ready(p) in k.tasks.lists && k.tasks.lists[Ready(p)].Valid() && Ready(p) in Unblock(k, t).tasks.lists
    ensures Unblock(k, t).tasks.lists[Ready(p)] == k.tasks.lists[Ready(p)].Joined(Those([t], k.priority, p))
  {
    hide Core, Unblock;
    assert IsPlace(Ready(p));
    UnblockLists(k, t, Ready(p));
    JoinedNone(k.tasks.lists[Ready(p)]);
    JoinedOne(k.tasks.lists[Ready(p)], t);
    assert [t][..0] == [];
  }

  lemma EventListsLeft(events: Directory<int>, t: Task, e: int)
    requires events.Valid() && e in events.lists
    ensures Forget(events, t).lists[e].items == Without(events.lists[e].items, [t])
  {
    if t in events.home {
      RemoveIsWithout(events, t, e);
    } else {
      assert events.ListOk(e);
      WithoutAbsent(events.lists[e].items, [t]);
    }
  }

  lemma UnblockWhole(k: K, t: Task)
    requires Core(k) && t in k.tasks.home && !k.tasks.home[t].Ready?
    ensures LineupOf(Unblock(k, t)).Whole()
  {
    var after := LineupOf(Unblock(k, t));
    forall p | IsPlace(p) ensures p in after.tasks.lists && after.tasks.lists[p].Valid() {
      UnblockLists(k, t, p);
    }
    assert IsPlace(k.delayed) && IsPlace(k.overflow);
    hide Core;
  }

  lemma SleepersLeft(k: K, t: Task)
    requires Core(k) && t in k.tasks.home && !k.tasks.home[t].Ready?
    ensures LineupOf(k).Whole() && LineupOf(Unblock(k, t)).Whole()
    ensures LineupOf(Unblock(k, t)).Sleepers() == Without(LineupOf(k).Sleepers(), [t])
  {
    CoreWhole(k);
    UnblockWhole(k, t);
    assert IsPlace(k.delayed) && IsPlace(k.overflow);
    UnblockLists(k, t, k.delayed);
    UnblockLists(k, t, k.overflow);
    WithoutConcat(k.tasks.lists[k.delayed].items, k.tasks.lists[k.overflow].items, [t]);
    hide BecameReady, Runnable, Waiting;
  }

  lemma UnblockEvents(k: K, t: Task)
    requires Core(k) && t in k.tasks.home
    ensures k.events.Valid() && Unblock(k, t).events == Forget(k.events, t)
    ensures Unblock(k, t).delayed == k.delayed && Unblock(k, t).overflow == k.overflow
  {}

  /** A task that becomes ready goes to the end of its ready list. */
  lemma UnblockJoins(k: K, t: Task)
    requires Core(k) && t in k.tasks.home && !k.tasks.home[t].Ready?
    ensures BecameReady(LineupOf(k), LineupOf(Unblock(k, t)), k.priority, [t], [])
  {
    hide Core, Unblock, Forget, Directory.Valid, Lineup.Sleepers;
    SleepersLeft(k, t);
    assert [t] + [] == [t] && forall p :: 0 <= p < MAX_PRIORITIES ==> IsPlace(Ready(p));
    forall p | 0 <= p < MAX_PRIORITIES
      ensures Unblock(k, t).tasks.lists[Ready(p)] == k.tasks.lists[Ready(p)].Joined(Those([t] + [], k.priority, p))
    {
      ReadyListJoined(k, t, p);
    }
    assert IsPlace(Suspended) && IsPlace(Termination);
    UnblockLists(k, t, Suspended);
    UnblockLists(k, t, Termination);
    UnblockEvents(k, t);
    forall e | e in k.events.lists
      ensures Unblock(k, t).events.lists[e].items == Without(k.events.lists[e].items, [t] + [])
    {
      EventListsLeft(k.events, t, e);
    }
  }

  lemma ElsewhereStays(k: K, t: Task, p: Place)
    requires Core(k) && t in k.tasks.home && !k.tasks.home[t].Ready? && IsPlace(p) && !p.Ready? && k.tasks.home[t] != p
    ensures p in k.tasks.lists && p in Unblock(k, t).tasks.lists
    ensures Unblock(k, t).tasks.lists[p].items == k.tasks.lists[p].items == Without(k.tasks.lists[p].items, [])
  {
    UnblockLists(k, t, p);
    assert k.tasks.ListOk(p);
    WithoutAbsent(k.tasks.lists[p].items, [t]);
    WithoutAbsent(k.tasks.lists[p].items, []);
    hide OnTime, Runnable, Waiting, MoveTo;
  }

  lemma HeadHome(k: K, t: Task)
    requires Core(k) && k.tasks.lists[k.delayed].items != [] && t == k.tasks.lists[k.delayed].items[0]
    ensures t in k.tasks.home && k.tasks.home[t] == k.delayed && !k.delayed.Ready? && k.events.Valid()
    ensures k.delayed != Suspended && k.delayed != Termination && k.overflow != k.delayed && !k.overflow.Ready?
    ensures NoDup(k.tasks.lists[k.delayed].items) && IsPlace(k.delayed) && IsPlace(k.overflow)
  {
    assert k.tasks.ListOk(k.delayed) && t in k.tasks.lists[k.delayed].items;
  }

  lemma HeadFirst(k: K, t: Task)
    requires Core(k) && k.tasks.lists[k.delayed].items != [] && t == k.tasks.lists[k.delayed].items[0]
    requires t in k.tasks.home && !k.tasks.home[t].Ready?
    ensures LineupOf(k).Whole() && LineupOf(Unblock(k, t)).Whole()
    ensures [t] + LineupOf(Unblock(k, t)).Sleepers() == Without(LineupOf(k).Sleepers(), [])
  {
    hide Core, Unblock, Without, Lineup.Whole, Directory.Valid;
    HeadHome(k, t);
    CoreWhole(k);
    UnblockWhole(k, t);
    UnblockEvents(k, t);
    UnblockLists(k, t, k.delayed);
    ElsewhereStays(k, t, k.overflow);
    var items := k.tasks.lists[k.delayed].items;
    WithoutOne(items, 0);
    assert items == [t] + (items[..0] + items[0 + 1..]);
    WithoutAbsent(LineupOf(k).Sleepers(), []);
  }

  /** The head of the delayed list is the first of those that sleep. */
  lemma UnblockHeadJoins(k: K, t: Task)
    requires Core(k) && k.tasks.lists[k.delayed].items != [] && t == k.tasks.lists[k.delayed].items[0]
    ensures t in k.tasks.home && BecameReady(LineupOf(k), LineupOf(Unblock(k, t)), k.priority, [], [t])
  {
    hide Core, Unblock, Lineup.Sleepers;
    HeadHome(k, t);
    UnblockJoins(k, t);
    HeadFirst(k, t);
    ElsewhereStays(k, t, Suspended);
    ElsewhereStays(k, t, Termination);
    assert [t] + [] == [t] && [] + [t] == [t];
  }

  lemma WakingHeadInTurn(a: Lineup, k: K, t: Task, priority: map<Task, int>)
    requires Core(k) && k.tasks.lists[k.delayed].items != [] && t == k.tasks.lists[k.delayed].items[0]
    requires InTurn(a, LineupOf(k), priority, []) && priority == k.priority
    ensures t in k.tasks.home && InTurn(a, LineupOf(Unblock(k, t)), priority, [])
  {
    hide Core, Unblock, BecameReady;
    UnblockHeadJoins(k, t);
    InTurnMore(a, LineupOf(k), LineupOf(Unblock(k, t)), priority);
  }

  // ---------- The pending tasks ----------

  /** So many tasks from the front of xPendingReadyList have become ready one after the other. */
  ghost predicate PendingInTurn(a: Lineup, b: Lineup, priority: map<Task, int>) {
    && PENDING in a.events.lists && PENDING in b.events.lists
    && var was, now := a.events.lists[PENDING].items, b.events.lists[PENDING].items;
    && |now| <= |was| && now == was[|was| - |now|..]
    && BecameReady(a, b, priority, was[..|was| - |now|], [])
  }

  lemma PendingNone(k: K)
    requires Core(k)
    ensures PendingInTurn(LineupOf(k), LineupOf(k), k.priority)
  {
    hide BecameReady;
    CoreWhole(k);
    NoneReadied(LineupOf(k), k.priority);
    assert k.events.lists[PENDING].items[..0] == [];
  }

  lemma PendingHeadParts(k: K)
    requires Core(k) && PENDING in k.events.lists && k.events.lists[PENDING].items != []
    ensures var items := k.events.lists[PENDING].items;
            var t := items[0];
            && NoDup(items) && t in k.tasks.home && !k.tasks.home[t].Ready?
            && k.events.Valid() && Forget(k.events, t).lists.Keys == k.events.lists.Keys
            && Forget(k.events, t).lists[PENDING].items == items[1..]
  {
    assert k.events.ListOk(PENDING);
    var items := k.events.lists[PENDING].items;
    assert items[0] in items;
    EventListsLeft(k.events, items[0], PENDING);
    WithoutOne(items, 0);
    hide OnTime, Runnable, Forget;
  }

  lemma PendingMore(a: Lineup, k: K, t: Task, priority: map<Task, int>)
    requires Core(k) && PendingInTurn(a, LineupOf(k), priority) && priority == k.priority
    requires k.events.lists[PENDING].items != [] && t == k.events.lists[PENDING].items[0]
    ensures t in k.tasks.home && PendingInTurn(a, LineupOf(Unblock(k, t)), priority)
  {
    hide Core, Unblock, BecameReady, Forget, Directory.Valid;
    PendingHeadParts(k);
    UnblockJoins(k, t);
    UnblockEvents(k, t);
    var was, items := a.events.lists[PENDING].items, k.events.lists[PENDING].items;
    var n := |was| - |items|;
    assert was[n] == t && was[..n] + [t] == was[..n + 1];
    var none: seq<Task> := [];
    ReadiedMore(a, LineupOf(k), LineupOf(Unblock(k, t)), priority, was[..n], none, [t], none);
    assert none + none == none;
  }

  lemma PendingDone(a: Lineup, b: Lineup, priority: map<Task, int>)
    requires PendingInTurn(a, b, priority) && b.events.lists[PENDING].items == []
    ensures BecameReady(a, b, priority, a.events.lists[PENDING].items, [])
  {
    hide BecameReady;
    var was := a.events.lists[PENDING].items;
    assert was[..|was|] == was;
  }
}
