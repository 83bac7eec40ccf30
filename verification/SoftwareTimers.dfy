/** The timer daemon of FreeRTOS/Source/timers.c.  A callback is recorded as a call and changes
    nothing else here: what it asks of the timer service goes through the command queue. */
module SoftwareTimers {
  import opened Options
  import opened Ticks
  import opened Rings
  import opened Directories
  import opened SortedInsertion
  import opened SortedDirectories
  import opened TimerArithmetic
  import opened TimerState

  /** DaemonTaskMessage_t.  `issued` is the real time at which a start command was sent; its C
      counterpart, the command's tick count, is the residue. */
  datatype Message =
    | Start(timer: Option<Timer>, issued: int)
    | Stop(timer: Option<Timer>)
    | ChangePeriod(timer: Option<Timer>, newPeriod: int)
    | Delete(timer: Option<Timer>)
    | PendedCall

  /** What a message asks of the timer it is about. */
  ghost predicate Obeyed(before: Timers, after: Timers, m: Message, now: int) {
    match m
    case Start(Some(t), issued) =>
      && t in before.period && t in before.reload && before.period[t] > 0
      && after.period == before.period && after.reload == before.reload && OthersOnSchedule(before, after, now, t)
      && var period, due := before.period[t], issued + before.period[t];
      && (if due > now
          then && t in after.active && t in after.expiry && after.expiry[t] == due
               && Fired(after, t) == Fired(before, t)
          else if before.reload[t]
          then && t in after.active && t in after.expiry && after.expiry[t] == NextDue(due, period, now)
               && Fired(after, t) == Fired(before, t) + Missed(due, period, now) + 1
          else t !in after.active && Fired(after, t) == Fired(before, t) + 1)
    case Stop(Some(t)) =>
      && after.period == before.period && after.reload == before.reload && OthersOnSchedule(before, after, now, t)
      && t !in after.active && Fired(after, t) == Fired(before, t)
    case ChangePeriod(Some(t), newPeriod) =>
      && after.period == before.period[t := newPeriod] && after.reload == before.reload
      && OthersOnSchedule(before, after, now, t)
      && t in after.active && t in after.expiry && after.expiry[t] == now + newPeriod
      && Fired(after, t) == Fired(before, t)
    case Delete(Some(t)) =>
      && after.period == before.period - {t} && OthersOnSchedule(before, after, now, t)
      && t !in after.active && Fired(after, t) == Fired(before, t)
    case _ => after == before
  }

  function Subject(m: Message): Option<Timer> { if m.PendedCall? then None else m.timer }

  /** The real time of the last sample before the i-th message: the daemon samples the time for every
      message about a timer. */
  function LastSample(sampled: int, messages: seq<Message>, times: seq<int>, i: nat): int
    requires i <= |messages| == |times|
    decreases i
  {
    if i == 0 then sampled
    else if Subject(messages[i - 1]).Some? then times[i - 1]
    else LastSample(sampled, messages, times, i - 1)
  }

  /** What the senders of commands owe: the timer exists, a start command is less than a wrap old,
      and a period is not zero. */
  predicate Acceptable(period: map<Timer, int>, m: Message, now: int) {
    && (Subject(m).Some? ==> Subject(m).value in period)
    && (m.Start? ==> m.issued <= now < m.issued + 0x1_0000_0000_0000_0000)
    && (m.ChangePeriod? ==> 0 < m.newPeriod <= MAX_DELAY)
  }

  class Daemon {
    var s: Timers

    constructor ()
      ensures Valid(s) && s.sampled == 0 && s.period == map[] && s.calls == []
    {
      s := Timers(Directory(map[List1 := Ring([], 0), List2 := Ring([], 0)], map[]), List1, List2,
                  map[], map[], map[], map[], {}, 0, 0, []);
    }

    /** prvInitialiseNewTimer */
    method Create(t: Timer, period: Tick, autoReload: bool)
      requires Valid(s) && t !in s.period && period > 0
      modifies this
      ensures Valid(s) && s == old(s).(period := old(s).period[t := period], reload := old(s).reload[t := autoReload])
    {
      hide Sorted, ValuesOf, Directory.Valid;
      s := s.(period := s.period[t := period], reload := s.reload[t := autoReload]);
    }

    /** prvInsertTimerInActiveList.  `due` is the real expiry time, `now` the real time. */
    method InsertTimerInActiveList(t: Timer, nextExpiry: Tick, timeNow: Tick, commandTime: Tick,
                                   due: int, ghost now: int)
      returns (processTimerNow: bool)
      requires ListsOk(s, Epoch(now)) && t in s.period && t !in s.lists.home && s.period[t] > 0
      requires due - s.period[t] <= now < due - s.period[t] + 0x1_0000_0000_0000_0000
      requires nextExpiry == Residue(due) && timeNow == Residue(now) && commandTime == Residue(due - s.period[t])
      modifies this
      ensures ListsOk(s, Epoch(now))
      ensures processTimerNow <==> due <= now
      ensures processTimerNow ==> s == old(s).(value := old(s).value[t := nextExpiry])
      ensures !processTimerNow ==>
                var k := if Epoch(due) == Epoch(now) then old(s).current else old(s).overflow;
                && old(s).lists.Valid() && k in old(s).lists.lists && s == Attach(old(s), k, t, due)
                && JoinedSorted(old(s).lists, s.lists, k, old(s).value, t, nextExpiry)
                && s.lists.home == old(s).lists.home[t := k]
                && s == old(s).(lists := s.lists, value := s.value, expiry := old(s).expiry[t := due])
                && s.value == old(s).value[t := nextExpiry]
    {
      hide Sorted, ValuesOf, InEpoch, Known, Directory.Valid, SortIn, JoinedSorted, Residue, Epoch, Sub, Add;
      ghost var epoch := Epoch(now);
      assert 0 < s.period[t] <= MAX_DELAY by { PeriodOk(s, epoch, t); }
      InsertDecision(due - s.period[t], s.period[t], now);
      assert Add(commandTime, s.period[t]) == nextExpiry by { AddIsReal(due - s.period[t], s.period[t]); }
      SetValueOk(s, epoch, t, nextExpiry);
      processTimerNow := false;
      if nextExpiry <= timeNow {
        if Sub(timeNow, commandTime) >= s.period[t] {
          s := s.(value := s.value[t := nextExpiry]);
          processTimerNow := true;
        } else {
          AttachOk(s, epoch, s.overflow, t, due);
          s := Attach(s, s.overflow, t, due);
        }
      } else {
        if timeNow < commandTime && nextExpiry >= commandTime {
          s := s.(value := s.value[t := nextExpiry]);
          processTimerNow := true;
        } else {
          AttachOk(s, epoch, s.current, t, due);
          s := Attach(s, s.current, t, due);
        }
      }
    }

    /** prvReloadTimer: a callback for every further expiry that has already come, then back on a
        list at the first one that has not. */
    method ReloadTimer(t: Timer, expiredTime: Tick, timeNow: Tick, expired: int, ghost now: int)
      requires ListsOk(s, Epoch(now)) && t in s.period && t !in s.lists.home && s.period[t] > 0
      requires expired <= now < expired + 0x1_0000_0000_0000_0000
      requires expiredTime == Residue(expired) && timeNow == Residue(now)
      modifies this
      ensures ListsOk(s, Epoch(now))
      ensures old(s).period[t] > 0 && s.expiry == old(s).expiry[t := NextDue(expired, old(s).period[t], now)]
      ensures s.calls == old(s).calls + Repeat(t, Missed(expired, old(s).period[t], now))
      ensures SameSettings(old(s), s) && s.active == old(s).active
      ensures s.lists.home == old(s).lists.home[t := if Epoch(s.expiry[t]) == Epoch(now) then s.current else s.overflow]
      ensures JoinedSorted(old(s).lists, s.lists, s.lists.home[t], old(s).value, t, Residue(s.expiry[t]))
    {
      hide ListsOk, Residue, Epoch, Add, Sub, SortIn, JoinedSorted, Missed, NextDue, Repeat;
      hide Directory.Valid, Attach;
      ghost var before := s;
      var time, due := expiredTime, expired + s.period[t];
      PeriodOk(s, Epoch(now), t);
      AddIsReal(expired, s.period[t]);
      var processTimerNow := InsertTimerInActiveList(t, Add(time, s.period[t]), timeNow, time, due, now);
      ghost var n: nat := 0;
      RepeatStep(t, 0);
      while processTimerNow
        invariant ListsOk(s, Epoch(now)) && SameSettings(before, s) && s.active == before.active
        invariant t in s.period && s.period[t] > 0 && processTimerNow == (due <= now)
        invariant time == Residue(due - s.period[t])
        invariant due - s.period[t] <= now < due - s.period[t] + 0x1_0000_0000_0000_0000
        invariant s.calls == before.calls + Repeat(t, n)
        invariant n + Missed(due - s.period[t], s.period[t], now) == Missed(expired, s.period[t], now)
        invariant NextDue(due - s.period[t], s.period[t], now) == NextDue(expired, s.period[t], now)
        invariant s.value == before.value || (t in s.value && s.value == before.value[t := s.value[t]])
        invariant if processTimerNow
                  then s.lists == before.lists && s.expiry == before.expiry && t !in s.lists.home
                  else && s.expiry == before.expiry[t := due]
                       && s.lists.home == before.lists.home[t := if Epoch(due) == Epoch(now) then s.current else s.overflow]
                       && JoinedSorted(before.lists, s.lists, s.lists.home[t], before.value, t, Residue(due))
        decreases now - due
      {
        time := Add(time, s.period[t]);
        AddIsReal(due - s.period[t], s.period[t]);
        MissedStep(due - s.period[t], s.period[t], now);
        RepeatStep(t, n);
        CallsApart(s, Epoch(now), s.calls + [t]);
        s := s.(calls := s.calls + [t]);
        due := due + s.period[t];
        n := n + 1;
        PeriodOk(s, Epoch(now), t);
        AddIsReal(due - s.period[t], s.period[t]);
        ghost var mid := s;
        processTimerNow := InsertTimerInActiveList(t, Add(time, s.period[t]), timeNow, time, due, now);
        if !processTimerNow {
          JoinedSortedApart(before.lists, s.lists, s.lists.home[t], before.value, mid.value, t, Residue(due));
        }
      }
      MissedStep(due - s.period[t], s.period[t], now);
    }

    /** prvProcessExpiredTimer: the timer at the head of the current list has expired. */
    method ProcessExpiredTimer(nextExpireTime: Tick, timeNow: Tick, ghost now: int, ghost except: set<Timer>)
      returns (t: Timer)
      requires ListsOk(s, Epoch(now)) && ActiveIffListed(s, except) && except !! s.lists.home.Keys
      requires s.current in s.lists.lists && s.lists.lists[s.current].items != []
      requires var h := s.lists.lists[s.current].items[0]; h in s.value && s.value[h] == nextExpireTime
      requires nextExpireTime <= timeNow && timeNow == Residue(now)
      modifies this
      ensures ListsOk(s, Epoch(now)) && ActiveIffListed(s, except) && except !! s.lists.home.Keys
      ensures t == old(s).lists.lists[old(s).current].items[0] && t in old(s).expiry && old(s).expiry[t] <= now
      ensures Processed(old(s), s, t, now) && SameSettings(old(s), s)
      ensures t in old(s).lists.home && old(s).lists.home[t] == s.current
      ensures s.lists.home - {t} == old(s).lists.home - {t}
      ensures t in s.lists.home ==>
                t in s.expiry && s.lists.home[t] == if Epoch(s.expiry[t]) == Epoch(now) then s.current else s.overflow
    {
      hide ListsOk, Residue, Epoch, SortIn, Missed, NextDue, Repeat, JoinedSorted, Directory.Valid;
      ghost var before := s;
      t := s.lists.lists[s.current].items[0];
      HeadOk(s, Epoch(now));
      var expired := s.expiry[t];
      SameEpochOrder(expired, now);
      SameEpochNear(expired, now);
      DetachOk(s, Epoch(now), t);
      assert s.lists.Valid() by { ListsValid(s, Epoch(now)); }
      s := Detach(s, t);
      if s.reload[t] {
        ReloadTimer(t, nextExpireTime, timeNow, expired, now);
      } else {
        ActiveApart(s, Epoch(now), s.active - {t});
        s := s.(active := s.active - {t});
        RepeatStep(t, 0);
      }
      CallsApart(s, Epoch(now), s.calls + [t]);
      RepeatStep(t, Missed(expired, s.period[t], now));
      s := s.(calls := s.calls + [t]);
      OnlyListedExpire(s, Epoch(now), t);
    }

    /** prvSwitchTimerLists: everything left of the old epoch has expired; nothing goes back on the
        list that is being emptied. */
    method SwitchTimerLists(ghost end: int, ghost except: set<Timer>)
      requires ListsOk(s, Epoch(end)) && ActiveIffListed(s, except) && except !! s.lists.home.Keys
      requires Residue(end) == MAX_DELAY
      modifies this
      ensures ListsOk(s, Epoch(end) + 1) && ActiveIffListed(s, except) && except !! s.lists.home.Keys
      ensures OnSchedule(old(s), s, end)
      ensures s.lastTime == old(s).lastTime && s.sampled == old(s).sampled
    {
      hide ListsOk, Residue, Epoch, Processed, OnSchedule, ActiveIffListed;
      ghost var before := s;
      ListsValid(s, Epoch(end));
      ScheduleSame(s, Epoch(end), end);
      while s.lists.lists[s.current].items != []
        invariant ListsOk(s, Epoch(end)) && ActiveIffListed(s, except) && except !! s.lists.home.Keys
        invariant s.current in s.lists.lists && SameSettings(before, s) && OnSchedule(before, s, end)
        decreases OnCurrent(s)
      {
        ghost var mid := s;
        HeadOk(s, Epoch(end));
        var nextExpireTime := s.value[s.lists.lists[s.current].items[0]];
        var t := ProcessExpiredTimer(nextExpireTime, MAX_DELAY, end, except);
        ProcessedOnSchedule(mid, s, t, end, Epoch(end));
        ScheduleTrans(before, mid, s, end, end);
        ListsValid(s, Epoch(end));
        ListsValid(mid, Epoch(end));
        OnlyListedExpire(s, Epoch(end), t);
        ProcessedLeaves(mid, s, t, end);
      }
      SwapOk(s, Epoch(end));
      SwapApart(before, s, end, except);
      s := s.(current := s.overflow, overflow := s.current);
    }

    /** prvSampleTimeNow, at real time `now`. */
    method SampleTimeNow(now: int, ghost except: set<Timer>) returns (timeNow: Tick, switched: bool)
      requires Steady(s, except) && except !! s.lists.home.Keys
      requires s.sampled <= now < s.sampled + 0x1_0000_0000_0000_0000
      modifies this
      ensures Steady(s, except) && except !! s.lists.home.Keys && s.sampled == now && timeNow == Residue(now)
      ensures OnSchedule(old(s), s, now)
      ensures switched <==> Epoch(now) != Epoch(old(s).sampled)
      ensures !switched ==> s == old(s).(lastTime := timeNow, sampled := now)
    {
      hide ListsOk, Residue, Epoch, OnSchedule;
      ghost var before := s;
      SubIsReal(now, s.sampled);
      ScheduleSame(s, Epoch(s.sampled), now);
      timeNow := Residue(now);
      if timeNow < s.lastTime {
        ghost var end := EpochEnd(s.sampled);
        SwitchTimerLists(end, except);
        ScheduleSame(s, Epoch(now), now);
        ScheduleTrans(before, s, s, end, now);
        switched := true;
      } else {
        switched := false;
      }
      SampledApart(s, Epoch(now), now);
      ScheduleSampled(before, s, now);
      s := s.(lastTime := timeNow, sampled := now);
    }

    // ---------- The daemon's loop ----------

    /** prvGetNextExpireTime */
    method GetNextExpireTime() returns (nextExpireTime: Tick, listWasEmpty: bool)
      requires Valid(s)
      ensures s.current in s.lists.lists
      ensures listWasEmpty <==> s.lists.lists[s.current].items == []
      ensures if listWasEmpty then nextExpireTime == 0
              else var t := s.lists.lists[s.current].items[0];
                   t in s.value && t in s.expiry && nextExpireTime == s.value[t] == Residue(s.expiry[t])
    {
      ListsValid(s, Epoch(s.sampled));
      listWasEmpty := s.lists.lists[s.current].items == [];
      if !listWasEmpty {
        HeadOk(s, Epoch(s.sampled));
        nextExpireTime := s.value[s.lists.lists[s.current].items[0]];
      } else {
        nextExpireTime := 0;
      }
    }

    /** prvProcessTimerOrBlockTask, at real time `now`.  When the daemon blocks, it does so for
        `ticks`, or with `forever` without limit. */
    method ProcessTimerOrBlockTask(nextExpireTime: Tick, listWasEmpty: bool, now: int)
      returns (blocks: bool, ticks: Tick, forever: bool)
      requires Valid(s) && s.sampled <= now < s.sampled + 0x1_0000_0000_0000_0000
      requires s.current in s.lists.lists && (listWasEmpty <==> s.lists.lists[s.current].items == [])
      requires if listWasEmpty then nextExpireTime == 0
               else var t := s.lists.lists[s.current].items[0];
                    t in s.value && t in s.expiry && nextExpireTime == s.value[t] == Residue(s.expiry[t])
      modifies this
      ensures Valid(s) && s.sampled == now && OnSchedule(old(s), s, now)
      ensures blocks ==> (forever <==> s.lists.home == map[])
      ensures blocks ==> forall t | t in s.expiry :: now + ticks <= s.expiry[t] && now < s.expiry[t]
      ensures blocks && ticks == 0 ==> Residue(now) == 0
      ensures blocks && !listWasEmpty ==> exists t | t in s.expiry :: s.expiry[t] == now + ticks
      ensures !blocks && Epoch(now) == Epoch(old(s).sampled) ==>
                !listWasEmpty && Processed(old(s), s, old(s).lists.lists[old(s).current].items[0], now)
    {
      hide ListsOk, Residue, Epoch, OnSchedule, ActiveIffListed, Processed;
      ghost var before := s;
      blocks, ticks, forever := false, 0, false;
      var timeNow, switched := SampleTimeNow(now, {});
      if !switched {
        if !listWasEmpty && nextExpireTime <= timeNow {
          ghost var sampled := s;
          var t := ProcessExpiredTimer(nextExpireTime, timeNow, now, {});
          ProcessedOnSchedule(sampled, s, t, now, Epoch(now));
          ScheduleTrans(before, sampled, s, now, now);
          ProcessedSampled(before, s, t, now);
        } else {
          ListsValid(s, Epoch(now));
          var wasEmpty := listWasEmpty;
          if wasEmpty {
            wasEmpty := s.lists.lists[s.overflow].items == [];
          }
          blocks, ticks, forever := true, Sub(nextExpireTime, timeNow), wasEmpty;
          BlocksUntilNextExpiry(s, now, nextExpireTime);
        }
      }
    }

    /** A start or reset command that the daemon carries out at real time `now`. */
    method StartTimer(t: Timer, issued: int, timeNow: Tick, ghost now: int)
      requires Steady(s, {t}) && s.sampled == now && timeNow == Residue(now)
      requires t in s.period && t !in s.lists.home && issued <= now < issued + 0x1_0000_0000_0000_0000
      modifies this
      ensures Valid(s) && s.sampled == now && Obeyed(old(s), s, Start(Some(t), issued), now)
    {
      hide ListsOk, Residue, Epoch, Add, Missed, NextDue, Repeat, Fired, OthersOnSchedule, SortIn;
      hide Directory.Valid, JoinedSorted, Attach;
      ghost var before := s;
      s := s.(active := s.active + {t});
      ActiveApart(before, Epoch(now), s.active);
      PeriodOk(s, Epoch(now), t);
      AddIsReal(issued, s.period[t]);
      OnlyListedExpire(s, Epoch(now), t);
      var due := issued + s.period[t];
      var processTimerNow :=
        InsertTimerInActiveList(t, Add(Residue(issued), s.period[t]), timeNow, Residue(issued), due, now);
      if processTimerNow {
        if s.reload[t] {
          ReloadTimer(t, Add(Residue(issued), s.period[t]), timeNow, due, now);
        } else {
          ActiveApart(s, Epoch(now), s.active - {t});
          s := s.(active := s.active - {t});
        }
        RepeatStep(t, if s.reload[t] then Missed(due, s.period[t], now) else 0);
        CallsApart(s, Epoch(now), s.calls + [t]);
        s := s.(calls := s.calls + [t]);
        TouchOnly(before, s, Epoch(now), now, t, if s.reload[t] then Missed(due, s.period[t], now) + 1 else 1);
      } else {
        RepeatStep(t, 0);
        TouchOnly(before, s, Epoch(now), now, t, 0);
      }
    }

    /** One message of prvProcessReceivedCommands, received at real time `now`. */
    method ProcessCommand(m: Message, now: int)
      requires Valid(s) && Acceptable(s.period, m, now)
      requires Subject(m).Some? ==> s.sampled <= now < s.sampled + 0x1_0000_0000_0000_0000
      modifies this
      ensures Valid(s) && Obeyed(old(s), s, m, now)
      ensures s.sampled == if Subject(m).Some? then now else old(s).sampled
    {
      hide ListsOk, Residue, Epoch, Fired, OthersOnSchedule, OnSchedule, Repeat, Missed, NextDue, SortIn;
      hide Directory.Valid, Directory.Remove, JoinedSorted;
      ghost var before := s;
      if !m.PendedCall? && m.timer.Some? {
        var t := m.timer.value;
        ListsValid(s, Epoch(s.sampled));
        OnlyListedExpire(s, Epoch(s.sampled), t);
        if t in s.lists.home {
          DetachOk(s, Epoch(s.sampled), t);
          s := Detach(s, t);
        }
        ghost var off := s;
        var timeNow, switched := SampleTimeNow(now, {t});
        CommandBegins(before, off, s, t, now, Epoch(before.sampled));
        SettingsKept(off, s, now);
        ghost var begun := s;
        PeriodOk(s, Epoch(now), t);
        RepeatStep(t, 0);
        match m {
          case Start(_, issued) =>
            StartTimer(t, issued, timeNow, now);
            StartedFrom(before, begun, s, t, issued, now);
          case Stop(_) =>
            ActiveApart(s, Epoch(now), s.active - {t});
            s := s.(active := s.active - {t});
            TouchOnly(begun, s, Epoch(now), now, t, 0);
            OthersTrans(before, begun, s, now, now, t);
          case ChangePeriod(_, newPeriod) =>
            s := s.(active := s.active + {t}, period := s.period[t := newPeriod]);
            ActiveApart(begun, Epoch(now), s.active);
            SettingsApart(begun.(active := s.active), Epoch(now), t, newPeriod);
            AddIsReal(now, newPeriod);
            OnlyListedExpire(s, Epoch(now), t);
            var processNow := InsertTimerInActiveList(t, Add(timeNow, newPeriod), timeNow, timeNow, now + newPeriod, now);
            assert !processNow;
            TouchOnly(begun, s, Epoch(now), now, t, 0);
            OthersTrans(before, begun, s, now, now, t);
          case Delete(_) =>
            s := s.(active := s.active - {t}, period := s.period - {t});
            ActiveApart(begun, Epoch(now), s.active);
            SettingsApart(begun.(active := s.active), Epoch(now), t, begun.period[t]);
            TouchOnly(begun, s, Epoch(now), now, t, 0);
            OthersTrans(before, begun, s, now, now, t);
        }
      }
    }

    /** prvProcessReceivedCommands: the i-th message is received at real time times[i], and those
        about a timer are less than a wrap apart.  The states in between are returned. */
    method ProcessReceivedCommands(messages: seq<Message>, times: seq<int>) returns (ghost trace: seq<Timers>)
      requires Valid(s) && |times| == |messages|
      requires forall i, j | 0 <= i < j < |times| :: times[i] <= times[j]
      requires times != [] ==> s.sampled <= times[0]
      requires forall i | 0 <= i < |times| && Subject(messages[i]).Some? ::
                 times[i] < LastSample(s.sampled, messages, times, i) + 0x1_0000_0000_0000_0000
      requires forall i | 0 <= i < |times| :: Acceptable(s.period, messages[i], times[i])
      requires forall i, j | 0 <= i < j < |messages| ::
                 messages[i].Delete? && messages[i].timer.Some? ==> Subject(messages[j]) != messages[i].timer
      modifies this
      ensures |trace| == |messages| + 1 && trace[0] == old(s) && trace[|messages|] == s
      ensures forall i | 0 <= i <= |messages| :: Valid(trace[i])
      ensures s.sampled == LastSample(old(s).sampled, messages, times, |messages|)
      ensures forall i | 0 <= i < |messages| :: Obeyed(trace[i], trace[i + 1], messages[i], times[i])
    {
      hide Valid, Obeyed, Acceptable;
      trace := [s];
      var i := 0;
      while i < |messages|
        invariant 0 <= i <= |messages| && |trace| == i + 1 && trace[0] == old(s) && trace[i] == s
        invariant forall j | 0 <= j <= i :: Valid(trace[j])
        invariant s.sampled == LastSample(old(s).sampled, messages, times, i)
        invariant i < |messages| ==> s.sampled <= times[i]
        invariant forall j | i <= j < |messages| :: Acceptable(s.period, messages[j], times[j])
        invariant forall j | 0 <= j < i :: Obeyed(trace[j], trace[j + 1], messages[j], times[j])
      {
        ghost var before := s;
        ProcessCommand(messages[i], times[i]);
        trace := trace + [s];
        forall j | i < j < |messages| ensures Acceptable(s.period, messages[j], times[j]) {
          StillAcceptable(before, s, messages[i], times[i], messages[j], times[j]);
        }
        i := i + 1;
      }
    }
  }

  lemma StillAcceptable(before: Timers, after: Timers, m: Message, now: int, next: Message, later: int)
    requires Obeyed(before, after, m, now) && Acceptable(before.period, next, later)
    requires m.Delete? && m.timer.Some? ==> Subject(next) != m.timer
    ensures Acceptable(after.period, next, later)
  {}

  lemma SettingsKept(before: Timers, after: Timers, now: int)
    requires OnSchedule(before, after, now)
    ensures after.period == before.period && after.reload == before.reload
  {}

  lemma StartedFrom(before: Timers, begun: Timers, s: Timers, t: Timer, issued: int, now: int)
    requires OthersOnSchedule(before, begun, now, t) && Fired(begun, t) == Fired(before, t)
    requires begun.period == before.period && begun.reload == before.reload
    requires Obeyed(begun, s, Start(Some(t), issued), now)
    ensures Obeyed(before, s, Start(Some(t), issued), now)
  {
    hide OthersOnSchedule, Fired, Missed, NextDue;
    OthersTrans(before, begun, s, now, now, t);
  }
}
