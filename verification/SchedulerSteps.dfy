/** The steps of the scheduler, by what was called. */
module SchedulerSteps {
  import opened Ticks
  import opened Directories
  import opened DelayedLists
  import opened EventLists
  import opened KernelState
  import opened TickCounting
  import opened TaskMoves
  import opened WakingOrder

  /** What a method of the scheduler was called for. */
  datatype Label =
    | CountedTick
    | PendedTick
    | Block(ticks: Tick, forever: bool)
    | WakeByEvent(t: Task)          // by an event, while the scheduler runs
    | PendByEvent(t: Task)          // by an event, while it is suspended
    | SuspendAll
    | ResumeNested                  // an inner xTaskResumeAll
    | ResumeAll
    | CatchUp(ticks: Tick)
    | SwitchContext
    | SwitchPended                  // asked for while the scheduler is suspended
    | Create(t: Task, priority: int)
    | Delete(t: Task)
    | CleanUp
    | Reprioritise(t: Task, priority: int)

  /** What the methods of the scheduler promise. */
  ghost predicate Step(before: K, l: Label, after: K) { Effect(before, l, after) && StaysCalm(before, l, after) }

  /** A block for no time at all in the last tick of an epoch. */
  predicate Hasty(before: K, l: Label) { l.Block? && l.ticks == 0 && before.tickCount == MAX_DELAY }

  /** Nothing is left due, except by a hasty block. */
  ghost predicate StaysCalm(before: K, l: Label, after: K) {
    Calm(before) ==> (Calm(after) <==> !Hasty(before, l))
  }

  /** The effect on time, on every list of tasks and on the order of the event lists. */
  ghost predicate Effect(before: K, l: Label, after: K) {
    match l
    case CountedTick => OneTickLater(before, after) && SameControl(before, after)
    case PendedTick =>
      0 <= before.pendedTicks <= MAX_DELAY && after == before.(pendedTicks := Add(before.pendedTicks, 1))
    case Block(ticks, forever) => CurrentBlocked(before, after, ticks, forever) && OrderKept(before, after)
    case WakeByEvent(t) =>
      && SameClock(before, after) && after.wake == before.wake - {t} && t in after.priority
      && after.tasks.home == before.tasks.home[t := Ready(after.priority[t])] && OrderKept(before, after)
      && after.priority == before.priority
      && BecameReady(LineupOf(before), LineupOf(after), before.priority, [t], [])
    case PendByEvent(t) =>
      && SameClock(before, after) && after.tasks == before.tasks && after.wake == before.wake
      && OrderKept(before, after) && Pended(before.events, after.events, t)
    case SuspendAll => after == before.(suspended := before.suspended + 1)
    case ResumeNested => after == before.(suspended := before.suspended - 1)
    case ResumeAll => Resumed(before, after)
    case CatchUp(ticks) => TicksLater(before, after, ticks) && before.pendedTicks == after.pendedTicks == 0
    case SwitchContext => Selected(before, after)
    case SwitchPended => after == before.(yieldPending := true)
    case Create(t, p) =>
      && SameClock(before, after) && after.wake == before.wake && OrderKept(before, after)
      && after.tasks.home == before.tasks.home[t := Ready(p)] && Joins(before.tasks, after.tasks, t, Ready(p))
    case Delete(t) =>
      && SameClock(before, after) && after.wake == before.wake - {t} && OrderKept(before, after)
      && if t == before.current
         then AtEnd(before.tasks, after.tasks, t, Termination) && after.tasks.home == before.tasks.home[t := Termination]
         else Leaves(before.tasks, after.tasks, t) && after.tasks.home == before.tasks.home - {t}
    case CleanUp =>
      && SameClock(before, after) && after.wake == before.wake && OrderKept(before, after)
      && SameBut(before.tasks, after.tasks, Termination)
    case Reprioritise(t, p) =>
      && SameClock(before, after) && after.wake == before.wake && after.events == before.events
      && after.priority == before.priority[t := p] && t in before.tasks.home
      && (if before.tasks.home[t].Ready?
          then AtEnd(before.tasks, after.tasks, t, Ready(p)) && after.tasks.home == before.tasks.home[t := Ready(p)]
          else after.tasks == before.tasks)
  }

  lemma BlockIsStep(before: K, after: K, ticks: Tick, forever: bool)
    requires CurrentBlocked(before, after, ticks, forever) && OrderKept(before, after)
    requires Calm(after) <==> !(ticks == 0 && before.tickCount == MAX_DELAY)
    ensures Step(before, Label.Block(ticks, forever), after)
  {
    hide OrderKept, Calm;
  }

  lemma SameEvents(before: K, after: K)
    requires after.events == before.events && after.priority == before.priority
    ensures OrderKept(before, after)
  {
    hide ListOrdered;
  }

  lemma EventIsStep(before: K, after: K, t: Task)
    requires SameClock(before, after) && OrderKept(before, after) && Calm(after)
    ensures (&& after.wake == before.wake - {t} && t in after.priority && after.priority == before.priority
             && after.tasks.home == before.tasks.home[t := Ready(after.priority[t])]
             && BecameReady(LineupOf(before), LineupOf(after), before.priority, [t], []))
            ==> Step(before, WakeByEvent(t), after)
    ensures after.tasks == before.tasks && after.wake == before.wake && Pended(before.events, after.events, t)
            ==> Step(before, PendByEvent(t), after)
  {
    hide BecameReady, Calm, StaysOrdered, Pended;
  }

  lemma DeleteIsStep(before: K, after: K, t: Task)
    requires SameClock(before, after) && after.wake == before.wake - {t} && OrderKept(before, after) && Calm(after)
    requires if t == before.current
             then AtEnd(before.tasks, after.tasks, t, Termination)
                  && after.tasks.home == before.tasks.home[t := Termination]
             else Leaves(before.tasks, after.tasks, t) && after.tasks.home == before.tasks.home - {t}
    ensures Step(before, Delete(t), after)
  {
    hide Calm, StaysOrdered, AtEnd, Leaves;
  }

  lemma CreateIsStep(before: K, after: K, t: Task, p: int)
    requires SameClock(before, after) && after.wake == before.wake && OrderKept(before, after) && Calm(after)
    requires after.tasks.home == before.tasks.home[t := Ready(p)] && Joins(before.tasks, after.tasks, t, Ready(p))
    ensures Step(before, Label.Create(t, p), after)
  {
    hide Calm, StaysOrdered, Joins;
  }
}
