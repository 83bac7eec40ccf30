/** The event lists of the kernel, kept in descending order of priority: an item's value is
    configMAX_PRIORITIES less the priority of its task. */
module EventLists {
  import opened Rings
  import opened Directories
  import opened DelayedLists
  import opened SortedInsertion
  import opened SortedDirectories

  /** Among the event lists, number 0 is xPendingReadyList, which is not kept in order. */
  const PENDING: int := 0

  function Ranks(priority: map<Task, int>): map<Task, int> {
    map t | t in priority :: MAX_PRIORITIES - priority[t]
  }

  function RanksOn(items: seq<Task>, priority: map<Task, int>): seq<int> { ValuesOf(items, Ranks(priority)) }

  ghost predicate ListOrdered(events: Directory<int>, priority: map<Task, int>, e: int)
    requires e in events.lists
  {
    Sorted(RanksOn(events.lists[e].items, priority))
  }

  ghost predicate Ordered(events: Directory<int>, priority: map<Task, int>) {
    forall e | e in events.lists && e != PENDING :: ListOrdered(events, priority, e)
  }

  /** Every event list that was in order still is. */
  ghost predicate StaysOrdered(was: Directory<int>, before: map<Task, int>,
                               events: Directory<int>, priority: map<Task, int>)
  {
    && events.lists.Keys == was.lists.Keys
    && forall e | e in was.lists && e != PENDING && ListOrdered(was, before, e) ::
         e in events.lists && ListOrdered(events, priority, e)
  }

  lemma OrderedAfterRemove(events: Directory<int>, priority: map<Task, int>, t: Task)
    requires events.Valid() && t in events.home
    ensures StaysOrdered(events, priority, events.Remove(t), priority)
  {
    var e, i := events.home[t], events.IndexOf(t);
    if ListOrdered(events, priority, e) {
      ValuesRemove(events.lists[e].items, Ranks(priority), i);
    }
    hide Directory.Valid, Sorted, RanksOn;
  }

  /** Where vListInsert puts the event list item of `t`. */
  function PriorityPlace(events: Directory<int>, priority: map<Task, int>, e: int, t: Task): (i: nat)
    requires e in events.lists && t in priority && 0 <= priority[t] < MAX_PRIORITIES
    ensures i <= |events.lists[e].items|
  {
    InsertPos(RanksOn(events.lists[e].items, priority), MAX_PRIORITIES - priority[t])
  }

  /** `t` has joined the list behind tasks of at least its priority and in front of a lower one, in a
      list in order of all lower ones.  The others keep their order. */
  ghost predicate JoinedByPriority(was: seq<Task>, now: seq<Task>, priority: map<Task, int>, t: Task) {
    && t in now && t !in was && t in priority
    && var i := Position(now, t);
    && was == now[..i] + now[i + 1..]
    && (forall u | u in now[..i] && u in priority :: priority[u] >= priority[t])
    && (i + 1 < |now| && now[i + 1] in priority ==> priority[now[i + 1]] < priority[t])
    && (Sorted(RanksOn(was, priority)) ==> forall u | u in now[i + 1..] && u in priority :: priority[u] < priority[t])
  }

  lemma ByRankOrPriority(was: seq<Task>, now: seq<Task>, priority: map<Task, int>, t: Task)
    requires t in priority && SortedInto(was, now, Ranks(priority), t, MAX_PRIORITIES - priority[t])
    ensures JoinedByPriority(was, now, priority, t)
  {
    assert forall u :: u in Ranks(priority) <==> u in priority;
    assert forall u | u in priority :: Ranks(priority)[u] == MAX_PRIORITIES - priority[u];
    hide Ranks, Sorted;
  }

  lemma PlacedByPriority(events: Directory<int>, priority: map<Task, int>, e: int, t: Task)
    requires events.Valid() && e in events.lists && t !in events.home
    requires t in priority && 0 <= priority[t] < MAX_PRIORITIES
    ensures var after := events.InsertAt(e, PriorityPlace(events, priority, e, t), t);
            JoinedByPriority(events.lists[e].items, after.lists[e].items, priority, t)
  {
    hide InsertPos, Ranks, SortedInto, JoinedByPriority;
    assert events.ListOk(e);
    InsertedInto(events.lists[e].items, Ranks(priority), t, MAX_PRIORITIES - priority[t],
                 PriorityPlace(events, priority, e, t));
    ByRankOrPriority(events.lists[e].items, events.InsertAt(e, PriorityPlace(events, priority, e, t), t).lists[e].items,
                     priority, t);
  }

  lemma OrderedAfterInsert(events: Directory<int>, priority: map<Task, int>, e: int, t: Task)
    requires events.Valid() && e in events.lists && t !in events.home
    requires t in priority && 0 <= priority[t] < MAX_PRIORITIES
    ensures StaysOrdered(events, priority,
                         events.InsertAt(e, PriorityPlace(events, priority, e, t), t), priority)
  {
    hide Sorted, InsertPos, Ranks;
    assert events.ListOk(e);
    hide Directory.Valid, Directory.ListOk;
    if ListOrdered(events, priority, e) {
      RankOf(priority, t);
      ValuesInsert(events.lists[e].items, Ranks(priority), t, MAX_PRIORITIES - priority[t]);
    }
  }

  lemma RankOf(priority: map<Task, int>, t: Task)
    requires t in priority
    ensures Ranks(priority)[t := MAX_PRIORITIES - priority[t]] == Ranks(priority)
  {}

  lemma OrderedAfterPend(events: Directory<int>, priority: map<Task, int>, t: Task)
    requires events.Valid() && PENDING in events.lists && t !in events.home
    ensures StaysOrdered(events, priority, events.InsertEnd(PENDING, t), priority)
  {}

  /** Priorities of tasks that are on no event list do not matter. */
  lemma OrderedApart(events: Directory<int>, priority: map<Task, int>, t: Task, p: int)
    requires events.Valid() && t !in events.home
    ensures StaysOrdered(events, priority, events, priority[t := p])
  {
    forall e | e in events.lists && ListOrdered(events, priority, e)
      ensures ListOrdered(events, priority[t := p], e)
    {
      OtherListApart(events, priority, t, p, e);
    }
  }

  lemma OtherListApart(events: Directory<int>, priority: map<Task, int>, t: Task, p: int, e: int)
    requires events.Valid() && e in events.lists && (t in events.home ==> events.home[t] != e)
    ensures RanksOn(events.lists[e].items, priority[t := p]) == RanksOn(events.lists[e].items, priority)
  {
    assert events.ListOk(e);
    var items := events.lists[e].items;
    assert forall i | 0 <= i < |items| :: items[i] in items;
  }

  /** The head of an event list that is in order is a waiter of the highest priority. */
  lemma HeadIsHighest(events: Directory<int>, priority: map<Task, int>, e: int)
    requires e in events.lists && ListOrdered(events, priority, e)
    requires events.lists[e].items != [] && forall u | u in events.lists[e].items :: u in priority
    ensures var h := events.lists[e].items[0];
            h in events.lists[e].items && forall u | u in events.lists[e].items :: priority[u] <= priority[h]
  {
    var items := events.lists[e].items;
    var ranks := RanksOn(items, priority);
    assert items[0] in items;
    forall u | u in items ensures priority[u] <= priority[items[0]] {
      var i :| 0 <= i < |items| && items[i] == u;
      assert ranks[0] <= ranks[i];
    }
  }

  // ---------- A waiter's priority changes ----------

  /** Priority inheritance rewrites the item value of a waiter where it is.  With priority p the
      waiter at place i fits if neither neighbour ought to change sides with it. */
  predicate FitsAt(items: seq<Task>, priority: map<Task, int>, i: nat, p: int)
    requires i < |items| && forall j | 0 <= j < |items| :: items[j] in priority
  {
    && (i == 0 || priority[items[i - 1]] >= p)
    && (i + 1 == |items| || p >= priority[items[i + 1]])
  }

  /** The list stays in order exactly when the new priority fits. */
  lemma InOrderIffFits(items: seq<Task>, priority: map<Task, int>, i: nat, p: int)
    requires i < |items| && NoDup(items) && Sorted(RanksOn(items, priority))
    requires forall j | 0 <= j < |items| :: items[j] in priority
    ensures Sorted(RanksOn(items, priority[items[i] := p])) <==> FitsAt(items, priority, i, p)
  {
    var was, now := RanksOn(items, priority), RanksOn(items, priority[items[i] := p]);
    assert forall j | 0 <= j < |items| :: items[j] in items;
    assert forall j | 0 <= j < |items| && j != i :: now[j] == was[j];
    assert now[i] == MAX_PRIORITIES - p;
    if i > 0 { assert was[i - 1] == MAX_PRIORITIES - priority[items[i - 1]]; }
    if i + 1 < |items| { assert was[i + 1] == MAX_PRIORITIES - priority[items[i + 1]]; }
  }

  /** Task t, if it waits on an event list, fits where it is with priority p. */
  ghost predicate Fits(events: Directory<int>, priority: map<Task, int>, t: Task, p: int)
    requires events.Valid() && forall u | u in events.home :: u in priority
  {
    if t !in events.home || events.home[t] == PENDING then true else
      WaitersHavePriorities(events, priority, events.home[t]);
      FitsAt(events.lists[events.home[t]].items, priority, events.IndexOf(t), p)
  }

  lemma WaitersHavePriorities(events: Directory<int>, priority: map<Task, int>, e: int)
    requires events.Valid() && (forall u | u in events.home :: u in priority) && e in events.lists
    ensures events.ListOk(e)
    ensures var items := events.lists[e].items; forall i | 0 <= i < |items| :: items[i] in priority
  {
    assert events.ListOk(e);
    var items := events.lists[e].items;
    forall u | u in items ensures u in priority {
      assert u in events.home;
    }
  }

  /** A change of priority keeps the lists in order if the waiter fits, and only then. */
  lemma OrderedAfterChange(events: Directory<int>, priority: map<Task, int>, t: Task, p: int)
    requires events.Valid() && forall u | u in events.home :: u in priority
    ensures Fits(events, priority, t, p) ==> StaysOrdered(events, priority, events, priority[t := p])
    ensures Ordered(events, priority) ==> (Ordered(events, priority[t := p]) <==> Fits(events, priority, t, p))
  {
    hide Directory.ListOk, Sorted, RanksOn, FitsAt;
    forall e | e in events.lists && (t in events.home ==> events.home[t] != e)
      ensures ListOrdered(events, priority[t := p], e) <==> ListOrdered(events, priority, e)
    {
      OtherListApart(events, priority, t, p, e);
    }
    if t in events.home {
      var e := events.home[t];
      WaitersHavePriorities(events, priority, e);
      assert NoDup(events.lists[e].items) by { ListOkParts(events, e); }
      if ListOrdered(events, priority, e) {
        InOrderIffFits(events.lists[e].items, priority, events.IndexOf(t), p);
      }
    }
  }

  lemma ListOkParts(events: Directory<int>, e: int)
    requires e in events.lists && events.ListOk(e)
    ensures NoDup(events.lists[e].items)
  {}

  /** The head is still a waiter of the highest priority exactly when the changed waiter is the
      head and its follower is not above it, or it is another one and not above the head. */
  lemma HeadIsHighestIff(items: seq<Task>, priority: map<Task, int>, i: nat, p: int)
    requires i < |items| && NoDup(items) && Sorted(RanksOn(items, priority))
    requires forall j | 0 <= j < |items| :: items[j] in priority
    ensures var after := priority[items[i] := p];
            (forall j | 0 <= j < |items| :: after[items[j]] <= after[items[0]])
            <==> if i == 0 then |items| == 1 || priority[items[1]] <= p else p <= priority[items[0]]
  {
    var ranks, after := RanksOn(items, priority), priority[items[i] := p];
    assert forall j | 0 <= j < |items| :: items[j] in items && ranks[j] == MAX_PRIORITIES - priority[items[j]];
    if i == 0 && |items| > 1 && priority[items[1]] <= p {
      forall j | 0 <= j < |items| ensures after[items[j]] <= after[items[0]] {
        if j > 0 { assert ranks[1] <= ranks[j]; }
      }
    }
  }

  /** Task 20, of priority 1, waits behind task 10, of priority 2, on list 7 when a task of
      priority 3 asks for a mutex that 20 holds.  Then the head of the list is not the highest. */
  lemma InheritanceUnsettles()
    ensures var events := Directory(map[PENDING := Ring([], 0), 7 := Ring([10, 20], 0)], map[10 := 7, 20 := 7]);
            var priority := map[10 := 2, 20 := 1];
            && events.Valid() && Ordered(events, priority)
            && !Ordered(events, priority[20 := 3]) && priority[20 := 3][20] > priority[20 := 3][events.lists[7].items[0]]
  {
    var events := Directory(map[PENDING := Ring([], 0), 7 := Ring([10, 20], 0)], map[10 := 7, 20 := 7]);
    var priority := map[10 := 2, 20 := 1];
    assert events.ListOk(PENDING) && events.ListOk(7);
    assert 10 in events.lists[7].items && 20 in events.lists[7].items by { assert [10, 20][0] == 10 && [10, 20][1] == 20; }
    assert RanksOn([10, 20], priority) == [3, 4];
    var now := RanksOn([10, 20], priority[20 := 3]);
    assert now[0] == 3 && now[1] == 2;
    assert !ListOrdered(events, priority[20 := 3], 7);
  }
}
