/** Runs of the mutex protocol in which priority inheritance does less than it is for. */
module InheritanceLimits {
  import opened Options
  import opened Directories
  import opened DelayedLists
  import opened EventLists
  import opened MutexState
  import opened PriorityInheritance

  /** Task t, asleep so far, runs and waits for mutex m. */
  method Waits(k: Kernel, t: Task, m: Mutex) returns (inherited: bool)
    requires Ok(k.s) && t in k.s.priority && t !in k.s.ready.home && t !in k.s.waiters.home
    requires forall u | u in k.s.ready.home :: u in k.s.priority && k.s.priority[u] <= k.s.priority[t]
    requires m in k.s.holder && k.s.holder[m].Some? && k.s.holder[m].value in k.s.priority
    modifies k
    ensures Ok(k.s) && k.s.ready.home.Keys == old(k.s).ready.home.Keys && k.s.current == t
    ensures k.s.holder == old(k.s).holder && k.s.held == old(k.s).held && k.s.base == old(k.s).base
    ensures k.s.priority == Raised(old(k.s).priority, k.s.holder[m].value, old(k.s).priority[t])
    ensures m in old(k.s).waiters.lists && t in k.s.priority && 0 <= k.s.priority[t] < MAX_PRIORITIES
    ensures old(k.s).waiters.Valid() && k.s.priority[t] == old(k.s).priority[t]
    ensures k.s.waiters == old(k.s).waiters.InsertAt(m, PriorityPlace(old(k.s).waiters, k.s.priority, m, t), t)
  {
    hide JoinedByPriority, LeftReady, OnlyRequeued, Requeued;
    hide Known, Lawful, Queued, Waiting, Dominates, StaysOrdered, FitsWith, ListOrdered, WaitsFor, Ordered;
    k.Wake(t);
    k.SwitchTo(t);
    inherited := k.BlockOn(m);
  }

  lemma PlaceBeside(events: Directory<int>, priority: map<Task, int>, e: int, t: Task, u: Task)
    requires e in events.lists && events.lists[e].items == [u] && u in priority
    requires t in priority && 0 <= priority[t] < MAX_PRIORITIES
    ensures PriorityPlace(events, priority, e, t) == if priority[t] > priority[u] then 0 else 1
  {
    var ranks := RanksOn(events.lists[e].items, priority);
    assert ranks == [MAX_PRIORITIES - priority[u]] && ranks[1..] == [];
  }

  /** Task a, the only one ready, holds mutex m and no other, and these tasks wait for it in this
      order. */
  ghost predicate Gathered(s: Mutexes, m: Mutex, a: Task, waiting: seq<Task>) {
    && m in s.holder && s.holder[m] == Some(a) && s.ready.home.Keys == {a}
    && a in s.held && s.held[a] == 1 && a in s.priority
    && (forall t | t in waiting :: t in s.waiters.home && s.waiters.home[t] == m)
    && m in s.waiters.lists && s.waiters.lists[m].items == waiting
  }

  /** Task a takes mutex m, and c waits for it. */
  method TakeAndWait(base: map<Task, int>, m: Mutex, a: Task, c: Task) returns (k: Kernel)
    requires m != PENDING && {a, c} <= base.Keys && base[a] < base[c]
    requires forall t | t in base :: 0 <= base[t] < MAX_PRIORITIES
    ensures fresh(k) && Ok(k.s) && Gathered(k.s, m, a, [c])
    ensures k.s.base == base && k.s.priority == base[a := base[c]] && k.s.waiters.home.Keys == {c}
  {
    hide JoinedByPriority, LeftReady, OnlyRequeued, Requeued;
    hide Known, Lawful, Queued, Waiting, Dominates, StaysOrdered, FitsWith, ListOrdered, WaitsFor;
    hide Ordered, PriorityPlace;
    k := new Kernel(base, {m}, a);
    k.Wake(a);
    var taken := k.Take(m);
    var raised := Waits(k, c, m);
  }

  /** Another task, of higher priority, waits too. */
  method WaitInFront(k: Kernel, m: Mutex, a: Task, b: Task, c: Task)
    requires Ok(k.s) && Gathered(k.s, m, a, [c]) && a != b && a != c && b !in k.s.waiters.home
    requires a in k.s.priority && b in k.s.priority && c in k.s.priority
    requires k.s.priority[a] <= k.s.priority[c] < k.s.priority[b]
    modifies k
    ensures Ok(k.s) && Gathered(k.s, m, a, [b, c]) && k.s.current == a && k.s.base == old(k.s).base
    ensures k.s.priority == old(k.s).priority[a := old(k.s).priority[b]] && k.s.holder == old(k.s).holder
    ensures k.s.waiters.home.Keys == old(k.s).waiters.home.Keys + {b}
  {
    hide JoinedByPriority, LeftReady, OnlyRequeued, Requeued;
    hide Known, Lawful, Queued, Waiting, Dominates, StaysOrdered, FitsWith, ListOrdered, WaitsFor;
    hide Ordered, PriorityPlace;
    ghost var was := k.s.waiters;
    assert was.lists[m].items == [c];
    var raised := Waits(k, b, m);
    PlaceBeside(was, k.s.priority, m, b, c);
    assert PriorityPlace(was, k.s.priority, m, b) == 0;
    assert k.s.waiters.lists[m].items == [c][..0] + [b] + [c][0..] == [b, c];
    assert [b, c][0] == b && [b, c][1] == c;
    k.SwitchTo(a);
  }

  /** With the scheduler suspended task a gives mutex m, which wakes b, and takes it again; c still
      waits and a has not inherited its priority. */
  method TakenBelowAWaiter(base: map<Task, int>, m: Mutex, a: Task, b: Task, c: Task) returns (k: Kernel)
    requires m != PENDING && {a, b, c} <= base.Keys && base[a] < base[c] < base[b]
    requires forall t | t in base :: 0 <= base[t] < MAX_PRIORITIES
    ensures fresh(k) && Ok(k.s) && !Dominates(k.s)
  {
    hide JoinedByPriority, LeftReady, OnlyRequeued, Requeued, Readied;
    hide Known, Lawful, Queued, Waiting, StaysOrdered, FitsWith, ListOrdered, Ordered, PriorityPlace;
    k := TakeAndWait(base, m, a, c);
    WaitInFront(k, m, a, b, c);
    var given := k.Give(m);
    var taken := k.Take(m);
    assert WaitsFor(k.s, c, a);
  }

  // ---------- A holder that waits ----------

  /** Task l holds mutex m and sleeps, and task x holds mutex n and runs. */
  ghost predicate TwoHolders(s: Mutexes, m: Mutex, n: Mutex, x: Task, l: Task) {
    && m in s.holder && s.holder[m] == Some(l) && n in s.holder && s.holder[n] == Some(x)
    && s.ready.home.Keys == {x} && x in s.held && s.held[x] == 1 && s.waiters.home == map[]
    && n in s.waiters.lists && s.waiters.lists[n].items == []
  }

  method HoldFirst(base: map<Task, int>, m: Mutex, n: Mutex, l: Task) returns (k: Kernel)
    requires PENDING !in {m, n} && m != n && l in base
    requires forall t | t in base :: 0 <= base[t] < MAX_PRIORITIES
    ensures fresh(k) && Ok(k.s) && Dominates(k.s) && k.s.priority == base && k.s.ready.home == map[]
    ensures m in k.s.holder && k.s.holder[m] == Some(l) && n in k.s.holder && k.s.holder[n] == None
    ensures k.s.waiters.home == map[] && n in k.s.waiters.lists && k.s.waiters.lists[n].items == []
    ensures forall t | t in base && t != l :: t in k.s.held && k.s.held[t] == 0
  {
    hide JoinedByPriority, LeftReady, OnlyRequeued, Requeued;
    hide Known, Lawful, Queued, Waiting, Dominates, StaysOrdered, FitsWith, ListOrdered, WaitsFor;
    hide Ordered, PriorityPlace;
    k := new Kernel(base, {m, n}, l);
    k.Wake(l);
    var taken := k.Take(m);
    k.Sleep();
  }

  method HoldBoth(base: map<Task, int>, m: Mutex, n: Mutex, x: Task, l: Task) returns (k: Kernel)
    requires PENDING !in {m, n} && m != n && x != l && {x, l} <= base.Keys
    requires forall t | t in base :: 0 <= base[t] < MAX_PRIORITIES
    ensures fresh(k) && Ok(k.s) && TwoHolders(k.s, m, n, x, l) && k.s.priority == base && Dominates(k.s)
  {
    hide JoinedByPriority, LeftReady, OnlyRequeued, Requeued;
    hide Known, Lawful, Queued, Waiting, Dominates, StaysOrdered, FitsWith, ListOrdered, WaitsFor;
    hide Ordered, PriorityPlace;
    k := HoldFirst(base, m, n, l);
    k.Wake(x);
    k.SwitchTo(x);
    var taken := k.Take(n);
  }

  lemma NotAbove(s: Mutexes, n: Mutex, x: Task, u: Task, l: Task)
    requires Gathered(s, n, x, [u, l]) && u in s.priority && l in s.priority
    requires s.priority[u] < s.priority[l] && s.priority[x] < s.priority[l]
    ensures !Dominates(s) && !ListOrdered(s.waiters, s.priority, n)
  {
    assert [u, l][1] == l;
    assert WaitsFor(s, l, x);
    var ranks := RanksOn([u, l], s.priority);
    assert ranks[0] > ranks[1];
  }

  /** Task h, the highest, waits for m.  Task l inherits its priority where it stands, so that the
      list of n is out of order, and x, for which l waits, does not inherit it. */
  method RaisedWhileWaiting(base: map<Task, int>, m: Mutex, n: Mutex, x: Task, l: Task, u: Task, h: Task)
    returns (k: Kernel)
    requires PENDING !in {m, n} && m != n && x != l && {x, l, u, h} <= base.Keys
    requires base[x] <= base[l] < base[u] < base[h]
    requires forall t | t in base :: 0 <= base[t] < MAX_PRIORITIES
    ensures fresh(k) && Ok(k.s) && !Dominates(k.s)
    ensures Gathered(k.s, n, x, [u, l]) && u in k.s.priority && k.s.priority == base[x := base[u]][l := base[h]]
    ensures n in k.s.waiters.lists && !ListOrdered(k.s.waiters, k.s.priority, n)
  {
    hide JoinedByPriority, LeftReady, OnlyRequeued, Requeued;
    hide Known, Lawful, Queued, Waiting, Dominates, StaysOrdered, FitsWith, Ordered, PriorityPlace, ListOrdered, WaitsFor;
    k := HoldBoth(base, m, n, x, l);
    var raised := Waits(k, l, n);
    WaitInFront(k, n, x, u, l);
    raised := Waits(k, h, m);
    NotAbove(k.s, n, x, u, l);
  }

  /** When x then gives n, u is woken although l waits for it at a higher priority. */
  method LowerWaiterWoken(base: map<Task, int>, m: Mutex, n: Mutex, x: Task, l: Task, u: Task, h: Task)
    returns (k: Kernel)
    requires PENDING !in {m, n} && m != n && x != l && {x, l, u, h} <= base.Keys
    requires base[x] <= base[l] < base[u] < base[h]
    requires forall t | t in base :: 0 <= base[t] < MAX_PRIORITIES
    ensures fresh(k) && Ok(k.s) && u in k.s.ready.home && l in k.s.waiters.home && k.s.waiters.home[l] == n
    ensures u in k.s.priority && l in k.s.priority && k.s.priority[u] < k.s.priority[l]
  {
    hide JoinedByPriority, LeftReady, OnlyRequeued, Requeued;
    hide Known, Lawful, Queued, Waiting, Dominates, StaysOrdered, FitsWith, Ordered, PriorityPlace, ListOrdered, WaitsFor;
    k := RaisedWhileWaiting(base, m, n, x, l, u, h);
    k.SwitchTo(x);
    var given := k.Give(n);
  }

  // ---------- A mutex asked for by its holder ----------

  lemma NeededBy(s: Mutexes, m: Mutex, h: Task)
    requires Ok(s) && m in s.holder && h in s.priority
    ensures h in s.base && m in s.waiters.lists
    ensures s.waiters.lists[m].items == [] ==> Needed(s, m, h) == s.base[h]
    ensures s.waiters.lists[m].items == [h] ==> Needed(s, m, h) == s.priority[h]
  {
    hide Queued, Directory.Valid;
    WaitersOf(s, m);
    var items := s.waiters.lists[m].items;
    if items == [h] { assert h in items; }
  }

  /** Task a holds m, has inherited the priority of b, which waits for it, and asks for m itself. */
  method AskAgain(base: map<Task, int>, m: Mutex, a: Task, b: Task) returns (k: Kernel, inherited: bool)
    requires m != PENDING && {a, b} <= base.Keys && base[a] < base[b]
    requires forall t | t in base :: 0 <= base[t] < MAX_PRIORITIES
    ensures fresh(k) && Ok(k.s) && k.s.priority == base[a := base[b]] && k.s.base == base && inherited
    ensures k.s.ready.home.Keys == {} && k.s.waiters.home.Keys == {a, b} && a in k.s.held && k.s.held[a] == 1
    ensures m in k.s.holder && k.s.holder[m] == Some(a)
    ensures m in k.s.waiters.lists && k.s.waiters.lists[m].items == [b, a]
    ensures k.s.waiters.home[a] == m && k.s.waiters.home[b] == m
  {
    hide JoinedByPriority, LeftReady, OnlyRequeued, Requeued;
    hide Known, Lawful, Queued, Waiting, Dominates, StaysOrdered, FitsWith, Ordered, PriorityPlace, ListOrdered, WaitsFor;
    k := TakeAndWait(base, m, a, b);
    k.SwitchTo(a);
    ghost var was := k.s.waiters;
    inherited := k.BlockOn(m);
    PlaceBeside(was, k.s.priority, m, a, b);
    assert k.s.waiters.lists[m].items == [b][..1] + [a] + [b][1..] == [b, a];
  }

  /** First b gives up, then a.  The kernel's assertion that a task that has timed out is not the
      holder that lowers its priority then fails. */
  method AskedForByItsHolder(base: map<Task, int>, m: Mutex, a: Task, b: Task) returns (k: Kernel, asserted: bool)
    requires m != PENDING && {a, b} <= base.Keys && base[a] < base[b]
    requires forall t | t in base :: 0 <= base[t] < MAX_PRIORITIES
    ensures fresh(k) && Ok(k.s) && !asserted
  {
    hide JoinedByPriority, LeftReady, OnlyRequeued, Requeued;
    hide Known, Lawful, Queued, Waiting, Dominates, StaysOrdered, FitsWith, Ordered, PriorityPlace, ListOrdered, WaitsFor;
    hide Needed, LoweredTo;
    var inherited;
    k, inherited := AskAgain(base, m, a, b);
    k.TimeOut(b);
    k.SwitchTo(b);
    assert k.s.waiters.lists[m].items == [a];
    NeededBy(k.s, m, a);
    asserted := k.AfterTimeOut(m, true);
    k.Sleep();
    k.TimeOut(a);
    k.SwitchTo(a);
    assert k.s.waiters.lists[m].items == [];
    NeededBy(k.s, m, a);
    asserted := k.AfterTimeOut(m, inherited);
  }
}
