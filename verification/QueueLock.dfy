/** A queue with the tasks that wait for it (FreeRTOS/Source/queue.c), and its locking: while it is
    locked, interrupts that post or take items do not touch the lists of waiting tasks; they count, and
    unlocking makes up for it.  The two sides of a queue, posting (Tx) and taking (Rx), work alike. */
module QueueLock {
  import opened Options
  import opened Rings
  import opened Directories
  import opened SortedInsertion
  import opened SortedDirectories
  import opened BoundedDeque
  import opened ByteQueue

  const UNLOCKED: int := -1
  const LOCKED_UNMODIFIED: int := 0
  const INT8_MAX: int := 127

  /** One side: its lock count, the tasks waiting for the event in the order of their list, and the
      tasks that have been taken off the list to be made ready, in order. */
  datatype Side = Side(lock: int, waiters: seq<Task>, woken: seq<Task>)

  /** xTaskRemoveFromEventList */
  function WakeFirst(s: Side): Side
    requires s.waiters != []
  {
    s.(waiters := s.waiters[1..], woken := s.woken + [s.waiters[0]])
  }

  /** The first n waiters are woken, or all of them if there are fewer. */
  function WakeUpTo(s: Side, n: nat): Side {
    var m := if n < |s.waiters| then n else |s.waiters|;
    s.(waiters := s.waiters[m..], woken := s.woken + s.waiters[..m])
  }

  /** vListInsert among the waiters, by event list item value. */
  function Place(s: Side, rank: map<Task, int>, t: Task): Side
    requires t in rank
  {
    var i := InsertPos(ValuesOf(s.waiters, rank), rank[t]);
    s.(waiters := s.waiters[..i] + [t] + s.waiters[i..])
  }

  /** `t` has joined the waiters: behind those of no greater item value, that is of at least its
      priority, and in front of a greater one, in a list in order of all greater ones.  The others
      keep their order, and nothing else changes. */
  ghost predicate JoinedWaiters(before: Side, after: Side, rank: map<Task, int>, t: Task) {
    && after.lock == before.lock && after.woken == before.woken
    && t in rank && t !in before.waiters && t in after.waiters
    && var i := Directories.Position(after.waiters, t);
    && before.waiters == after.waiters[..i] + after.waiters[i + 1..]
    && (forall u | u in after.waiters[..i] && u in rank :: rank[u] <= rank[t])
    && (i + 1 < |after.waiters| && after.waiters[i + 1] in rank ==> rank[t] < rank[after.waiters[i + 1]])
    && (InOrder(before, rank) ==> forall u | u in after.waiters[i + 1..] && u in rank :: rank[t] < rank[u])
  }

  lemma PlaceJoins(s: Side, rank: map<Task, int>, t: Task)
    requires t in rank && t !in s.waiters
    ensures JoinedWaiters(s, Place(s, rank, t), rank, t)
  {
    hide InsertPos, Sorted;
    InsertedInto(s.waiters, rank, t, rank[t], InsertPos(ValuesOf(s.waiters, rank), rank[t]));
  }

  lemma PlaceApart(s: Side, rank: map<Task, int>, t: Task)
    requires t in rank
    ensures Place(s, rank, t) == s.(waiters := Place(s, rank, t).waiters)
  {}

  // ---------- The steps ----------

  /** prvLockQueue, for one side */
  function Lock(s: Side): Side { if s.lock == UNLOCKED then s.(lock := LOCKED_UNMODIFIED) else s }

  /** An interrupt posts or takes an item, with so many tasks in the system. */
  function Event(s: Side, numberOfTasks: int): Side {
    if s.lock == UNLOCKED then Serve(s)
    else if s.lock < numberOfTasks then s.(lock := s.lock + 1)
    else s
  }

  /** A task posts or takes an item: whether the side is locked does not matter to it. */
  function Serve(s: Side): Side { if s.waiters != [] then WakeFirst(s) else s }

  function Unlock(s: Side): Side { WakeUpTo(s, if s.lock > 0 then s.lock else 0).(lock := UNLOCKED) }

  /** The list of waiters: tasks of the system, each once. */
  ghost predicate Waiting(s: Side, rank: map<Task, int>) {
    NoDup(s.waiters) && forall t | t in s.waiters :: t in rank
  }

  /** The highest priority comes first. */
  ghost predicate InOrder(s: Side, rank: map<Task, int>) { Sorted(ValuesOf(s.waiters, rank)) }

  /** While tasks wait on a side, or one that holds the lock has seen that it must, no more is available
      than there are woken tasks that have still to try again and wakeups owed to the lock; except that
      a full lock count will wake them all. */
  predicate Covered(s: Side, available: int, retried: int, watching: bool, numberOfTasks: int) {
    s.waiters != [] || watching ==>
      || available <= |s.woken| - retried + (if s.lock > 0 then s.lock else 0)
      || (s.lock >= 0 && s.lock == numberOfTasks)
  }

  class LockedQueue {
    const queue: Queue
    const numberOfTasks: int
    var rank: map<Task, int>     // event list item values
    var tx: Side
    var rx: Side

    ghost var txRetried: int     // of the woken tasks, those that have tried again
    ghost var rxRetried: int
    ghost var sawEmpty: bool     // the task that holds the lock has found the queue empty
    ghost var sawFull: bool

    ghost predicate Valid()
      reads this, queue, queue.storage
    {
      && queue.Valid() && |rank.Keys| <= numberOfTasks <= INT8_MAX
      && Waiting(tx, rank) && Waiting(rx, rank)
      && UNLOCKED <= tx.lock <= numberOfTasks && UNLOCKED <= rx.lock <= numberOfTasks
      && 0 <= txRetried <= |tx.woken| && 0 <= rxRetried <= |rx.woken|
      && (sawEmpty ==> tx.lock >= 0) && (sawFull ==> rx.lock >= 0)
    }

    /** No task waits to receive an item, or to send into a space, that nobody is about to take. */
    ghost predicate NoneForgotten()
      reads this, queue
    {
      && Covered(tx, |queue.items|, txRetried, sawEmpty, numberOfTasks)
      && Covered(rx, queue.length - |queue.items|, rxRetried, sawFull, numberOfTasks)
    }

    /** In particular, while the queue is unlocked and tasks wait to receive, there are no more items
        than woken tasks that have still to try again; and likewise for spaces and senders. */
    lemma WaitersAreCovered()
      requires Valid() && NoneForgotten()
      ensures tx.lock == UNLOCKED && tx.waiters != [] ==> |queue.items| <= |tx.woken| - txRetried
      ensures rx.lock == UNLOCKED && rx.waiters != [] ==> queue.length - |queue.items| <= |rx.woken| - rxRetried
    {}

    /** xQueueGenericReset of a new queue. */
    constructor (length: nat, itemSize: nat, numberOfTasks: int, rank: map<Task, int>)
      requires length >= 1 && |rank.Keys| <= numberOfTasks <= INT8_MAX
      ensures Valid() && fresh(queue) && fresh(queue.storage) && queue.items == []
      ensures queue.length == length && queue.itemSize == itemSize && this.rank == rank
      ensures tx == rx == Side(UNLOCKED, [], []) && NoneForgotten()
    {
      queue := new Queue(length, itemSize);
      this.numberOfTasks, this.rank := numberOfTasks, rank;
      tx, rx := Side(UNLOCKED, [], []), Side(UNLOCKED, [], []);
      txRetried, rxRetried, sawEmpty, sawFull := 0, 0, false, false;
    }

    /** Priority inheritance rewrites a task's item value where it stands. */
    method SetRank(t: Task, r: int)
      requires Valid() && t in rank
      modifies `rank
      ensures Valid() && rank == old(rank)[t := r] && (old(NoneForgotten()) ==> NoneForgotten())
    {
      assert rank.Keys == rank[t := r].Keys;
      rank := rank[t := r];
    }

    /** xQueueGenericReset of a queue in use: receivers stay, as there is nothing for them, and one
        sender is woken.  Other senders are forgotten, unless there are none or the space for them has
        takers. */
    method Reset()
      requires Valid()
      modifies queue, `tx, `rx, `sawEmpty, `sawFull
      ensures Valid() && queue.items == []
      ensures tx == old(tx).(lock := UNLOCKED) && rx == Serve(old(rx).(lock := UNLOCKED))
      ensures NoneForgotten() <==> |old(rx).waiters| <= 1 || queue.length <= |rx.woken| - rxRetried
    {
      queue.Reset();
      tx, rx := tx.(lock := UNLOCKED), rx.(lock := UNLOCKED);
      sawEmpty, sawFull := false, false;
      if rx.waiters != [] {
        rx := WakeFirst(rx);
      }
    }

    /** xQueueGenericSend with no block time, or the attempt of a task that has been waiting; with
        `retries` it has been woken for this. */
    method Send(item: Bytes, at: Position, ghost retries: bool) returns (ok: bool)
      requires Valid() && |item| == queue.itemSize && (at == Overwrite ==> queue.length == 1)
      requires retries ==> rxRetried < |rx.woken|
      modifies queue, queue.storage, `tx, `rxRetried
      ensures Valid() && ok == Apply(old(queue.items), queue.length, BoundedDeque.Send(item, at)).accepted
      ensures ok <==> |old(queue.items)| < queue.length || at == Overwrite
      ensures queue.items ==
                if ok then Copied(old(queue.items), queue.length, queue.itemSize, item, at) else old(queue.items)
      ensures tx == (if ok then Serve(old(tx)) else old(tx))
      ensures rxRetried == old(rxRetried) + if retries then 1 else 0
      ensures old(NoneForgotten()) && tx.lock == UNLOCKED ==> NoneForgotten()
    {
      hide Queue.Valid, Copied, Apply;
      SentCount(queue.items, queue.length, queue.itemSize, item, at);
      ok := queue.Send(item, at);
      if retries { rxRetried := rxRetried + 1; }
      if ok && tx.waiters != [] {
        tx := WakeFirst(tx);
      }
    }

    /** xQueueReceive likewise */
    method Receive(ghost retries: bool) returns (item: Option<Bytes>)
      requires Valid() && (retries ==> txRetried < |tx.woken|)
      modifies queue, `rx, `txRetried
      ensures Valid() && queue.items == Apply(old(queue.items), queue.length, BoundedDeque.Receive).items
      ensures item == Apply(old(queue.items), queue.length, BoundedDeque.Receive).received
      ensures rx == (if item.Some? then Serve(old(rx)) else old(rx))
      ensures txRetried == old(txRetried) + if retries then 1 else 0
      ensures old(NoneForgotten()) && rx.lock == UNLOCKED ==> NoneForgotten()
    {
      hide Queue.Valid;
      item := queue.Receive();
      if retries { txRetried := txRetried + 1; }
      if item.Some? && rx.waiters != [] {
        rx := WakeFirst(rx);
      }
    }

    /** xQueuePeek likewise: the item is left, for the next task that waits to receive. */
    method Peek(ghost retries: bool) returns (item: Option<Bytes>)
      requires Valid() && (retries ==> txRetried < |tx.woken|)
      modifies queue, `tx, `txRetried
      ensures Valid() && queue.items == old(queue.items)
      ensures item == Apply(old(queue.items), queue.length, BoundedDeque.Peek).received
      ensures tx == (if item.Some? then Serve(old(tx)) else old(tx))
      ensures txRetried == old(txRetried) + if retries then 1 else 0
      ensures old(NoneForgotten()) && tx.lock == UNLOCKED ==> NoneForgotten()
    {
      hide Queue.Valid, Copied;
      item := queue.Peek();
      if retries { txRetried := txRetried + 1; }
      if item.Some? && tx.waiters != [] {
        tx := WakeFirst(tx);
      }
    }

    /** prvLockQueue */
    method LockQueue()
      requires Valid()
      modifies `tx, `rx
      ensures Valid() && tx == Lock(old(tx)) && rx == Lock(old(rx))
      ensures old(NoneForgotten()) ==> NoneForgotten()
    {
      if rx.lock == UNLOCKED {
        rx := rx.(lock := LOCKED_UNMODIFIED);
      }
      if tx.lock == UNLOCKED {
        tx := tx.(lock := LOCKED_UNMODIFIED);
      }
    }

    /** xQueueGenericSendFromISR */
    method SendFromISR(item: Bytes, at: Position) returns (ok: bool)
      requires Valid() && |item| == queue.itemSize && (at == Overwrite ==> queue.length == 1)
      modifies queue, queue.storage, `tx
      ensures Valid() && ok == Apply(old(queue.items), queue.length, BoundedDeque.Send(item, at)).accepted
      ensures ok <==> |old(queue.items)| < queue.length || at == Overwrite
      ensures queue.items ==
                if ok then Copied(old(queue.items), queue.length, queue.itemSize, item, at) else old(queue.items)
      ensures tx == if ok then Event(old(tx), numberOfTasks) else old(tx)
      ensures old(NoneForgotten()) ==> NoneForgotten()
    {
      hide Queue.Valid, Copied, Apply;
      SentCount(queue.items, queue.length, queue.itemSize, item, at);
      var lock := tx.lock;
      ok := queue.Send(item, at);
      if ok {
        if lock == UNLOCKED {
          if tx.waiters != [] {
            tx := WakeFirst(tx);
          }
        } else {
          if lock < numberOfTasks {
            assert lock != INT8_MAX;
            tx := tx.(lock := lock + 1);
          }
        }
      }
    }

    /** xQueueReceiveFromISR */
    method ReceiveFromISR() returns (item: Option<Bytes>)
      requires Valid()
      modifies queue, `rx
      ensures Valid() && queue.items == Apply(old(queue.items), queue.length, BoundedDeque.Receive).items
      ensures item == Apply(old(queue.items), queue.length, BoundedDeque.Receive).received
      ensures rx == if item.Some? then Event(old(rx), numberOfTasks) else old(rx)
      ensures old(NoneForgotten()) ==> NoneForgotten()
    {
      hide Queue.Valid;
      var lock := rx.lock;
      item := queue.Receive();
      if item.Some? {
        if lock == UNLOCKED {
          if rx.waiters != [] {
            rx := WakeFirst(rx);
          }
        } else {
          if lock < numberOfTasks {
            assert lock != INT8_MAX;
            rx := rx.(lock := lock + 1);
          }
        }
      }
    }

    /** vTaskPlaceOnEventList for a task that found the queue empty (it waits for a post) or full
        (it waits for an item to be taken) and is on neither list. */
    method PlaceWaiter(t: Task, forPost: bool)
      requires Valid() && t in rank && t !in tx.waiters && t !in rx.waiters
      modifies `tx, `rx
      ensures Valid()
      ensures tx == (if forPost then Place(old(tx), rank, t) else old(tx))
      ensures rx == (if forPost then old(rx) else Place(old(rx), rank, t))
      ensures if forPost then JoinedWaiters(old(tx), tx, rank, t) else JoinedWaiters(old(rx), rx, rank, t)
      ensures (InOrder(old(tx), rank) ==> InOrder(tx, rank)) && (InOrder(old(rx), rank) ==> InOrder(rx, rank))
      ensures old(NoneForgotten()) && (if forPost then sawEmpty else sawFull) ==> NoneForgotten()
    {
      hide Queue.Valid, Place, JoinedWaiters, Waiting, InOrder;
      if forPost {
        PlaceApart(tx, rank, t);
        PlaceKeepsWaiting(tx, rank, t);
        PlaceJoins(tx, rank, t);
        tx := Place(tx, rank, t);
      } else {
        PlaceApart(rx, rank, t);
        PlaceKeepsWaiting(rx, rank, t);
        PlaceJoins(rx, rank, t);
        rx := Place(rx, rank, t);
      }
    }

    /** prvIsQueueEmpty and prvIsQueueFull, as a task asks them that has locked the queue and is about
        to wait. */
    method MustWait(forPost: bool) returns (must: bool)
      requires Valid() && tx.lock >= 0 && rx.lock >= 0
      modifies `sawEmpty, `sawFull
      ensures Valid() && must == (if forPost then queue.items == [] else |queue.items| == queue.length)
      ensures must ==> if forPost then sawEmpty else sawFull
      ensures old(NoneForgotten()) ==> NoneForgotten()
    {
      if forPost {
        must := queue.messagesWaiting == 0;
        if must { sawEmpty := true; }
      } else {
        must := queue.messagesWaiting == queue.length;
        if must { sawFull := true; }
      }
    }

    /** A tick takes a task whose wait has timed out off its list. */
    method GiveUp(t: Task, forPost: bool)
      requires Valid() && t in if forPost then tx.waiters else rx.waiters
      modifies `tx, `rx
      ensures Valid() && (old(NoneForgotten()) ==> NoneForgotten())
      ensures tx == (if forPost then old(tx).(waiters := Without(old(tx).waiters, [t])) else old(tx))
      ensures rx == (if forPost then old(rx) else old(rx).(waiters := Without(old(rx).waiters, [t])))
    {
      if forPost {
        LeaveKeepsWaiting(tx, rank, t);
        tx := Leave(tx, t);
      } else {
        LeaveKeepsWaiting(rx, rank, t);
        rx := Leave(rx, t);
      }
    }

    /** The first critical section of prvUnlockQueue. */
    method UnlockTx()
      requires Valid()
      modifies `tx, `sawEmpty
      ensures Valid() && tx == Unlock(old(tx)) && (old(NoneForgotten()) ==> NoneForgotten())
    {
      hide Queue.Valid, Unlock, Covered;
      UnlockCovers(tx, rank, |queue.items|, txRetried, sawEmpty, numberOfTasks);
      tx := UnlockSide(tx);
      sawEmpty := false;
    }

    /** The second. */
    method UnlockRx()
      requires Valid()
      modifies `rx, `sawFull
      ensures Valid() && rx == Unlock(old(rx)) && (old(NoneForgotten()) ==> NoneForgotten())
    {
      hide Queue.Valid, Unlock, Covered;
      UnlockCovers(rx, rank, queue.length - |queue.items|, rxRetried, sawFull, numberOfTasks);
      rx := UnlockSide(rx);
      sawFull := false;
    }

    /** prvUnlockQueue, if no interrupt comes between the two. */
    method UnlockQueue()
      requires Valid()
      modifies `tx, `rx, `sawEmpty, `sawFull
      ensures Valid() && tx == Unlock(old(tx)) && rx == Unlock(old(rx))
      ensures old(NoneForgotten()) ==> NoneForgotten()
    {
      hide Queue.Valid, Unlock, Covered;
      UnlockTx();
      UnlockRx();
    }
  }

  /** Each of the two loops of prvUnlockQueue. */
  method UnlockSide(s: Side) returns (u: Side)
    requires s.lock >= UNLOCKED
    ensures u == Unlock(s)
  {
    hide WakeUpTo, WakeFirst, Unlock;
    u := s;
    var lock := s.lock;
    ghost var done: nat := 0;
    NoneWoken(s);
    while lock > LOCKED_UNMODIFIED
      invariant done == 0 || done == s.lock - lock
      invariant done == 0 ==> lock == s.lock
      invariant lock >= 0 || done == 0
      invariant done <= |s.waiters| && u == WakeUpTo(s, done)
      decreases lock
    {
      AllWoken(s, done);
      if u.waiters != [] {
        OneMoreWoken(s, done);
        u := WakeFirst(u);
        done := done + 1;
      } else {
        break;
      }
      lock := lock - 1;
    }
    AllWoken(s, done);
    WakesAll(s, done);
    u := u.(lock := UNLOCKED);
  }

  // ---------- What the steps keep ----------

  lemma OneMoreWoken(s: Side, n: nat)
    requires n < |s.waiters|
    ensures WakeUpTo(s, n).waiters != [] && WakeFirst(WakeUpTo(s, n)) == WakeUpTo(s, n + 1)
  {}

  lemma AllWoken(s: Side, n: nat)
    requires n <= |s.waiters|
    ensures WakeUpTo(s, n).waiters == [] <==> n == |s.waiters|
  {}

  lemma WakesAll(s: Side, done: nat)
    requires done <= |s.waiters| && (done > 0 ==> done <= s.lock)
    requires done == |s.waiters| || done == (if s.lock > 0 then s.lock else 0)
    ensures WakeUpTo(s, done).(lock := UNLOCKED) == Unlock(s)
  {}

  lemma NoneWoken(s: Side)
    ensures WakeUpTo(s, 0) == s
  {}

  lemma LockIrrelevant(s: Side, rank: map<Task, int>)
    requires Waiting(s, rank)
    ensures Waiting(s.(lock := UNLOCKED), rank)
  {}

  lemma WakeKeepsWaiting(s: Side, rank: map<Task, int>, n: nat)
    requires Waiting(s, rank)
    ensures Waiting(WakeUpTo(s, n), rank)
    ensures InOrder(s, rank) ==> InOrder(WakeUpTo(s, n), rank)
  {
    if InOrder(s, rank) { ValuesDrop(s.waiters, rank, if n < |s.waiters| then n else |s.waiters|); }
  }

  lemma ValuesDrop(waiters: seq<Task>, rank: map<Task, int>, n: nat)
    requires n <= |waiters| && Sorted(ValuesOf(waiters, rank))
    ensures Sorted(ValuesOf(waiters[n..], rank))
  {
    assert ValuesOf(waiters[n..], rank) == ValuesOf(waiters, rank)[n..];
  }

  lemma PlaceKeepsWaiting(s: Side, rank: map<Task, int>, t: Task)
    requires Waiting(s, rank) && t in rank && t !in s.waiters
    ensures Waiting(Place(s, rank, t), rank)
    ensures InOrder(s, rank) ==> InOrder(Place(s, rank, t), rank)
  {
    var vs := ValuesOf(s.waiters, rank);
    var i := InsertPos(vs, rank[t]);
    NoDupInsert(s.waiters, i, t);
    MembersInsert(s.waiters, i, t);
    if InOrder(s, rank) {
      InsertKeepsOrder(vs, rank[t]);
      assert ValuesOf(Place(s, rank, t).waiters, rank) == Insert(vs, rank[t]);
    }
  }

  lemma UnlockCovers(s: Side, rank: map<Task, int>, available: int, retried: int, watching: bool, numberOfTasks: int)
    requires Waiting(s, rank) && |rank.Keys| <= numberOfTasks && s.lock >= UNLOCKED
    ensures Waiting(Unlock(s), rank) && Unlock(s).lock == UNLOCKED && |Unlock(s).woken| >= |s.woken|
    ensures Covered(s, available, retried, watching, numberOfTasks) ==>
              Covered(Unlock(s), available, retried, false, numberOfTasks)
  {
    WaitersAreTasks(s, rank);
    WakeKeepsWaiting(s, rank, if s.lock > 0 then s.lock else 0);
    LockIrrelevant(WakeUpTo(s, if s.lock > 0 then s.lock else 0), rank);
    hide Waiting;
  }

  /** uxListRemove of a waiter */
  function Leave(s: Side, t: Task): Side
    requires t in s.waiters
  {
    var i := Directories.Position(s.waiters, t);
    s.(waiters := s.waiters[..i] + s.waiters[i + 1..])
  }

  lemma LeaveKeepsWaiting(s: Side, rank: map<Task, int>, t: Task)
    requires Waiting(s, rank) && t in s.waiters
    ensures Waiting(Leave(s, t), rank) && Leave(s, t) == s.(waiters := Without(s.waiters, [t]))
  {
    NoDupRemove(s.waiters, Directories.Position(s.waiters, t));
    WithoutOne(s.waiters, Directories.Position(s.waiters, t));
  }

  /** A send that is taken leaves as many items or one more. */
  lemma SentCount(items: seq<Bytes>, length: nat, size: nat, item: Bytes, at: Position)
    requires at == Overwrite ==> length == 1
    ensures |items| <= |Copied(items, length, size, item, at)| <= |items| + 1
    ensures |Copied(items, length, size, item, at)| == |items| ==> |items| >= length
    ensures Apply(items, length, BoundedDeque.Send(item, at)).accepted <==> |items| < length || at == Overwrite
  {}

  /** No more tasks wait than there are. */
  lemma WaitersAreTasks(s: Side, rank: map<Task, int>)
    requires Waiting(s, rank)
    ensures |s.waiters| <= |rank.Keys|
  {
    NoDupSize(s.waiters);
    forall t | t in Members(s.waiters) ensures t in rank.Keys {
      assert t in s.waiters;
    }
    Fewer(Members(s.waiters), rank.Keys);
  }

  lemma Fewer(a: set<int>, b: set<int>)
    requires a <= b
    ensures |a| <= |b|
  {
    assert |b| == |b - a| + |a * b| && a * b == a;
  }

  // ---------- A whole locked episode ----------

  /** What can happen to one side while it is locked: an interrupt's event, or the locking task
      putting itself on the list. */
  datatype LockedStep = Posted | Placed(task: Task)

  function Take(s: Side, rank: map<Task, int>, numberOfTasks: int, step: LockedStep): Side {
    match step
    case Posted => Event(s, numberOfTasks)
    case Placed(t) => if t in rank then Place(s, rank, t) else s
  }

  function Episode(s: Side, rank: map<Task, int>, numberOfTasks: int, steps: seq<LockedStep>): Side
    decreases |steps|
  {
    if steps == [] then s else Episode(Take(s, rank, numberOfTasks, steps[0]), rank, numberOfTasks, steps[1..])
  }

  /** The waiters as they would be had the events not happened. */
  function Placements(s: Side, rank: map<Task, int>, steps: seq<LockedStep>): Side
    decreases |steps|
  {
    if steps == [] then s
    else if steps[0].Placed? && steps[0].task in rank then Placements(Place(s, rank, steps[0].task), rank, steps[1..])
    else Placements(s, rank, steps[1..])
  }

  function Posts(steps: seq<LockedStep>): nat
    decreases |steps|
  {
    if steps == [] then 0 else (if steps[0].Posted? then 1 else 0) + Posts(steps[1..])
  }

  lemma {:induction false} EpisodeCounts(s: Side, rank: map<Task, int>, numberOfTasks: int, steps: seq<LockedStep>)
    requires 0 <= s.lock <= numberOfTasks
    ensures var after, placed := Episode(s, rank, numberOfTasks, steps), Placements(s, rank, steps);
            && after.lock == (if s.lock + Posts(steps) < numberOfTasks then s.lock + Posts(steps) else numberOfTasks)
            && after.waiters == placed.waiters && after.woken == s.woken
    decreases |steps|
  {
    if steps != [] {
      var next := Take(s, rank, numberOfTasks, steps[0]);
      EpisodeCounts(next, rank, numberOfTasks, steps[1..]);
      PlacementsLock(s, next.lock, rank, if steps[0].Placed? && steps[0].task in rank then steps else steps[1..]);
    }
  }

  lemma {:induction false} PlacementsLock(s: Side, lock: int, rank: map<Task, int>, steps: seq<LockedStep>)
    ensures Placements(s.(lock := lock), rank, steps).waiters == Placements(s, rank, steps).waiters
    decreases |steps|
  {
    if steps != [] {
      if steps[0].Placed? && steps[0].task in rank {
        var placed := Place(s, rank, steps[0].task);
        assert Place(s.(lock := lock), rank, steps[0].task) == placed.(lock := lock);
        PlacementsLock(placed, lock, rank, steps[1..]);
      } else {
        PlacementsLock(s, lock, rank, steps[1..]);
      }
    }
  }

  /** No wakeup is lost.  A side is locked, interrupts post any number of times, tasks put
      themselves on the list before, between and after those posts, and the side is unlocked: one
      waiter is woken for each post, from the front of the list, as long as there are any. */
  lemma NoWakeupIsLost(s: Side, rank: map<Task, int>, numberOfTasks: int, steps: seq<LockedStep>)
    requires s.lock == UNLOCKED && |rank.Keys| <= numberOfTasks
    requires Waiting(Placements(s, rank, steps), rank)
    ensures var waiters := Placements(s, rank, steps).waiters;
            var n := if Posts(steps) < |waiters| then Posts(steps) else |waiters|;
            Unlock(Episode(Lock(s), rank, numberOfTasks, steps)) == Side(UNLOCKED, waiters[n..], s.woken + waiters[..n])
  {
    var locked := Lock(s);
    EpisodeCounts(locked, rank, numberOfTasks, steps);
    PlacementsLock(s, LOCKED_UNMODIFIED, rank, steps);
    WaitersAreTasks(Placements(s, rank, steps), rank);
  }

  /** Tasks that are not yet waiting can be placed one after the other. */
  ghost predicate Fresh(s: Side, steps: seq<LockedStep>)
    decreases |steps|
  {
    forall i | 0 <= i < |steps| && steps[i].Placed? ::
      steps[i].task !in s.waiters && forall j | 0 <= j < i && steps[j].Placed? :: steps[j].task != steps[i].task
  }

  lemma {:induction false} PlacementsWaiting(s: Side, rank: map<Task, int>, steps: seq<LockedStep>)
    requires Waiting(s, rank) && Fresh(s, steps)
    ensures Waiting(Placements(s, rank, steps), rank)
    ensures InOrder(s, rank) ==> InOrder(Placements(s, rank, steps), rank)
    decreases |steps|
  {
    if steps != [] {
      var rest := steps[1..];
      assert forall i | 0 <= i < |rest| :: rest[i] == steps[i + 1];
      if steps[0].Placed? && steps[0].task in rank {
        var placed := Place(s, rank, steps[0].task);
        PlaceKeepsWaiting(s, rank, steps[0].task);
        MembersInsert(s.waiters, InsertPos(ValuesOf(s.waiters, rank), rank[steps[0].task]), steps[0].task);
        PlacementsWaiting(placed, rank, rest);
      } else {
        PlacementsWaiting(s, rank, rest);
      }
    }
  }

  // ---------- Who is woken first ----------

  ghost predicate Ahead(s: seq<Task>, u: Task, v: Task) {
    exists i, j :: 0 <= i < j < |s| && s[i] == u && s[j] == v
  }

  /** With the waiters in order, the one served is of the highest priority, and of those the one that
      stands first; the others stay as they were. */
  lemma ServedIsHighest(s: Side, rank: map<Task, int>)
    requires s.waiters != [] && Waiting(s, rank) && InOrder(s, rank)
    ensures Serve(s).lock == s.lock && |Serve(s).woken| == |s.woken| + 1 && Serve(s).woken[..|s.woken|] == s.woken
    ensures var h := Serve(s).woken[|s.woken|];
            && [h] + Serve(s).waiters == s.waiters && h in rank
            && forall u | u in Serve(s).waiters :: u in rank && rank[h] <= rank[u]
  {
    var vs, h := ValuesOf(s.waiters, rank), s.waiters[0];
    assert h in s.waiters;
    forall u | u in s.waiters[1..] ensures u in rank && rank[h] <= rank[u] {
      assert u in s.waiters;
      var i :| 0 < i < |s.waiters| && s.waiters[i] == u;
      assert vs[0] <= vs[i];
    }
  }

  lemma PlaceKeepsAhead(s: Side, rank: map<Task, int>, t: Task, u: Task, v: Task)
    requires t in rank && Ahead(s.waiters, u, v)
    ensures Ahead(Place(s, rank, t).waiters, u, v)
  {
    var i, j :| 0 <= i < j < |s.waiters| && s.waiters[i] == u && s.waiters[j] == v;
    var k := InsertPos(ValuesOf(s.waiters, rank), rank[t]);
    var now := Place(s, rank, t).waiters;
    assert now[if i < k then i else i + 1] == u && now[if j < k then j else j + 1] == v;
  }

  lemma PlacedAfter(s: Side, rank: map<Task, int>, t: Task, u: Task)
    requires Waiting(s, rank) && InOrder(s, rank) && t in rank && t !in s.waiters && u in s.waiters && u in rank
    requires rank[u] <= rank[t]
    ensures Ahead(Place(s, rank, t).waiters, u, t)
  {
    PlaceJoins(s, rank, t);
    var now := Place(s, rank, t).waiters;
    var k := Directories.Position(now, t);
    assert u in now[..k] + now[k + 1..];
    assert u !in now[k + 1..];
    var i :| 0 <= i < k && now[..k][i] == u;
    assert now[i] == u && now[k] == t;
  }

  lemma {:induction false} PlacementsKeepAhead(s: Side, rank: map<Task, int>, steps: seq<LockedStep>, u: Task, v: Task)
    requires Ahead(s.waiters, u, v)
    ensures Ahead(Placements(s, rank, steps).waiters, u, v)
    decreases |steps|
  {
    hide Ahead, Place;
    if steps != [] {
      if steps[0].Placed? && steps[0].task in rank {
        PlaceKeepsAhead(s, rank, steps[0].task, u, v);
        PlacementsKeepAhead(Place(s, rank, steps[0].task), rank, steps[1..], u, v);
      } else {
        PlacementsKeepAhead(s, rank, steps[1..], u, v);
      }
    }
  }

  lemma FreshRest(s: Side, rank: map<Task, int>, steps: seq<LockedStep>)
    requires Waiting(s, rank) && Fresh(s, steps) && steps != []
    ensures Fresh(s, steps[1..])
    ensures steps[0].Placed? && steps[0].task in rank ==>
              var placed := Place(s, rank, steps[0].task);
              && steps[0].task !in s.waiters && Waiting(placed, rank) && Fresh(placed, steps[1..])
              && (InOrder(s, rank) ==> InOrder(placed, rank))
              && forall t :: t in placed.waiters <==> t in s.waiters || t == steps[0].task
  {
    var rest := steps[1..];
    assert forall i | 0 <= i < |rest| :: rest[i] == steps[i + 1];
    if steps[0].Placed? && steps[0].task in rank {
      PlaceKeepsWaiting(s, rank, steps[0].task);
      MembersInsert(s.waiters, InsertPos(ValuesOf(s.waiters, rank), rank[steps[0].task]), steps[0].task);
      hide Waiting, InOrder;
    }
  }

  /** A task that already waits stands ahead of every newcomer of no higher priority. */
  lemma {:induction false} WaitingStaysAhead(s: Side, rank: map<Task, int>, steps: seq<LockedStep>, u: Task, j: nat)
    requires Waiting(s, rank) && InOrder(s, rank) && Fresh(s, steps) && u in s.waiters
    requires j < |steps| && steps[j].Placed? && steps[j].task in rank && u in rank && rank[u] <= rank[steps[j].task]
    ensures Ahead(Placements(s, rank, steps).waiters, u, steps[j].task)
    decreases |steps|
  {
    hide Ahead, Place, Waiting, InOrder, Fresh;
    FreshRest(s, rank, steps);
    if j == 0 {
      PlacedAfter(s, rank, steps[0].task, u);
      PlacementsKeepAhead(Place(s, rank, steps[0].task), rank, steps[1..], u, steps[0].task);
    } else {
      var next := if steps[0].Placed? && steps[0].task in rank then Place(s, rank, steps[0].task) else s;
      WaitingStaysAhead(next, rank, steps[1..], u, j - 1);
    }
  }

  /** Of two tasks the one placed first stands ahead of the other, unless the other has a higher
      priority. */
  lemma {:induction false} PlacedInTurn(s: Side, rank: map<Task, int>, steps: seq<LockedStep>, i: nat, j: nat)
    requires Waiting(s, rank) && InOrder(s, rank) && Fresh(s, steps) && i < j < |steps|
    requires steps[i].Placed? && steps[i].task in rank && steps[j].Placed? && steps[j].task in rank
    requires rank[steps[i].task] <= rank[steps[j].task]
    ensures Ahead(Placements(s, rank, steps).waiters, steps[i].task, steps[j].task)
    decreases |steps|
  {
    hide Ahead, Place, Waiting, InOrder, Fresh;
    FreshRest(s, rank, steps);
    var next := if steps[0].Placed? && steps[0].task in rank then Place(s, rank, steps[0].task) else s;
    if i == 0 {
      WaitingStaysAhead(next, rank, steps[1..], steps[0].task, j - 1);
    } else {
      PlacedInTurn(next, rank, steps[1..], i - 1, j - 1);
    }
  }

  /** Of two tasks of one priority the one placed first is woken first: when the other is woken by the
      posts of the episode, the first one has been woken before it. */
  lemma FirstPlacedIsWokenFirst(s: Side, rank: map<Task, int>, numberOfTasks: int, steps: seq<LockedStep>,
                                i: nat, j: nat)
    requires s.lock == UNLOCKED && |rank.Keys| <= numberOfTasks
    requires Waiting(s, rank) && InOrder(s, rank) && Fresh(s, steps) && i < j < |steps|
    requires steps[i].Placed? && steps[i].task in rank && steps[j].Placed? && steps[j].task in rank
    requires rank[steps[i].task] == rank[steps[j].task]
    ensures var woken := Unlock(Episode(Lock(s), rank, numberOfTasks, steps)).woken;
            && s.woken <= woken
            && (steps[j].task in woken[|s.woken|..] ==> Ahead(woken[|s.woken|..], steps[i].task, steps[j].task))
  {
    PlacementsWaiting(s, rank, steps);
    NoWakeupIsLost(s, rank, numberOfTasks, steps);
    PlacedInTurn(s, rank, steps, i, j);
    var waiters := Placements(s, rank, steps).waiters;
    var n := if Posts(steps) < |waiters| then Posts(steps) else |waiters|;
    assert Unlock(Episode(Lock(s), rank, numberOfTasks, steps)).woken[|s.woken|..] == waiters[..n];
    if steps[j].task in waiters[..n] { AheadInFront(waiters, n, steps[i].task, steps[j].task); }
  }

  lemma AheadInFront(s: seq<Task>, n: nat, u: Task, v: Task)
    requires NoDup(s) && n <= |s| && Ahead(s, u, v) && v in s[..n]
    ensures Ahead(s[..n], u, v)
  {
    var i, j :| 0 <= i < j < |s| && s[i] == u && s[j] == v;
    var k :| 0 <= k < n && s[k] == v;
    assert j == k && s[..n][i] == u && s[..n][j] == v;
  }

  /** In particular the task that found the queue empty and was placed last is woken if at least as
      many posts came as there are waiters. */
  lemma LastPlacedIsWoken(s: Side, rank: map<Task, int>, numberOfTasks: int, steps: seq<LockedStep>, t: Task)
    requires s.lock == UNLOCKED && |rank.Keys| <= numberOfTasks && Waiting(s, rank) && Fresh(s, steps)
    requires t in Placements(s, rank, steps).waiters && Posts(steps) >= |Placements(s, rank, steps).waiters|
    ensures t in Unlock(Episode(Lock(s), rank, numberOfTasks, steps)).woken
  {
    PlacementsWaiting(s, rank, steps);
    NoWakeupIsLost(s, rank, numberOfTasks, steps);
  }
}
