/** The state machine task (src/state_machine.c) driving the flight recorder. */
module StateMachine {
  import opened SystemState
  import opened FlightRecorder

  const IMAGE_INTEGRITY_REASON: int := 0x05

  datatype Request = Request(requested: State, reason: int)

  /** state_machine_allows_request */
  predicate Allows(current: State, r: Request) {
    || Rank(r.requested) >= Rank(current)
    || (r.requested == Nominal && (current == Degraded || current == Safe) && (r.reason == 0x03 || r.reason == 0x10))
  }

  /** state_machine_apply_request: the new state, and whether it changed. */
  function Applied(current: State, r: Request): (State, bool) {
    if Allows(current, r) && r.requested != current then (r.requested, true) else (current, false)
  }

  function Code(s: State): int { Rank(s) }

  /** The numbers that stand for the states in entries, in their order. */
  lemma Codes()
    ensures Code(Boot) == 0 && Code(Nominal) == 1 && Code(Degraded) == 2 && Code(Safe) == 3
  {}

  /** A request for NOMINAL after recovery or by command. */
  predicate IsRecovery(r: Request) { r.requested == Nominal && (r.reason == 0x03 || r.reason == 0x10) }

  // ---------- The path in the history ----------

  /** The state changes recorded, as pairs of codes, in order. */
  function Changes(history: seq<Entry>): seq<(int, int)> {
    if history == [] then []
    else ChangeIn(history[0]) + Changes(history[1..])
  }

  /** The changes join up: each starts where the last one ended, from `start` to `end`. */
  predicate Path(changes: seq<(int, int)>, start: int, end: int) {
    if changes == [] then start == end
    else changes[0].0 == start && Path(changes[1..], changes[0].1, end)
  }

  function ChangeIn(e: Entry): seq<(int, int)> { if e.kind == StateChange then [(e.argA, e.argB)] else [] }

  lemma {:induction false} ChangesConcat(history: seq<Entry>, more: seq<Entry>)
    ensures Changes(history + more) == Changes(history) + Changes(more)
  {
    if history == [] {
      assert history + more == more;
    } else {
      assert (history + more)[1..] == history[1..] + more;
      ChangesConcat(history[1..], more);
    }
  }

  lemma ChangesAppend(history: seq<Entry>, e: Entry)
    ensures Changes(history + [e]) == Changes(history) + ChangeIn(e)
    ensures e.kind != StateChange ==> Changes(history + [e]) == Changes(history)
  {
    ChangesConcat(history, [e]);
    assert Changes([e]) == ChangeIn(e) + Changes([]);
  }

  /** What is recorded after a path goes on with it exactly if it is a path from where it ended. */
  lemma {:induction false} PathConcat(changes: seq<(int, int)>, more: seq<(int, int)>, start: int, end: int, last: int)
    requires Path(changes, start, end)
    ensures Path(changes + more, start, last) <==> Path(more, end, last)
  {
    if changes == [] {
      assert changes + more == more;
    } else {
      assert (changes + more)[1..] == changes[1..] + more;
      PathConcat(changes[1..], more, changes[0].1, end, last);
    }
  }

  lemma OneChange(start: int, end: int)
    ensures Path([(start, end)], start, end)
  {
    assert [(start, end)][1..] == [];
  }

  lemma EitherStep(change: Entry, start: int, end: int)
    requires start != end && ChangeIn(change) == [(start, end)]
    ensures Path(ChangeIn(change) + [], start, end) && !Path([] + [], start, end)
  {
    OneChange(start, end);
    assert ChangeIn(change) + [] == ChangeIn(change);
  }

  /** Any stretch of a path is a path, so what the recorder still holds is one too. */
  lemma {:induction false} PathDrop(history: seq<Entry>, n: nat, start: int, end: int)
    requires n <= |history| && Path(Changes(history), start, end)
    ensures exists from :: Path(Changes(history[n..]), from, end)
    decreases n
  {
    if n == 0 {
      assert history[0..] == history;
      assert Path(Changes(history[n..]), start, end);
    } else {
      var c := Changes(history);
      assert history[n..] == history[1..][n - 1..];
      if history[0].kind == StateChange {
        assert c[1..] == Changes(history[1..]);
        PathDrop(history[1..], n - 1, c[0].1, end);
      } else {
        assert c == Changes(history[1..]);
        PathDrop(history[1..], n - 1, start, end);
      }
    }
  }

  class Machine {
    const recorder: Recorder
    var systemState: State           // gSystemState

    ghost var since: int             // where the recorded path starts

    ghost predicate Valid()
      reads this, recorder, recorder.entries
    {
      recorder.Valid() && Path(Changes(recorder.history), since, Code(systemState))
    }

    /** The start of vTaskStateMachine: the recorder has been initialised and has no state change
        yet; the boot verdict decides the first state. */
    constructor (recorder: Recorder, bootOk: bool, tick: int)
      requires recorder.Valid() && Changes(recorder.history) == []
      modifies recorder, recorder.entries
      ensures Valid() && this.recorder == recorder && since == Code(Boot)
      ensures systemState == if bootOk then Nominal else Degraded
      ensures recorder.history == old(recorder.history)
                                  + [Entry(StateChange, 0, if bootOk then 1 else 2, tick % 0x1_0000_0000,
                                           if bootOk then 0 else 5)]
    {
      this.recorder := recorder;
      systemState := if bootOk then Nominal else Degraded;
      since := Code(Boot);
      new;
      ghost var was := recorder.history;
      if bootOk {
        recorder.Store(StateChange, Code(Boot), Code(Nominal), 0, tick);
      } else {
        recorder.Store(StateChange, Code(Boot), Code(Degraded), IMAGE_INTEGRITY_REASON, tick);
      }
      ChangesAppend(was, recorder.history[|was|]);
      OneChange(Code(Boot), Code(systemState));
    }

    /** One request received by vTaskStateMachine. */
    method Handle(r: Request, tick: int) returns (changed: bool)
      requires Valid()
      modifies this`systemState, recorder, recorder.entries
      ensures Valid()
      ensures (systemState, changed) == Applied(old(systemState), r)
      ensures changed <==> r.requested != old(systemState)
                           && (Code(r.requested) > Code(old(systemState))
                               || (r.requested == Nominal && (r.reason == 0x03 || r.reason == 0x10)))
      ensures systemState == if changed then r.requested else old(systemState)
      ensures !changed ==> recorder.history == old(recorder.history)
      ensures changed ==>
                && |recorder.history| > |old(recorder.history)|
                && recorder.history[..|old(recorder.history)|] == old(recorder.history)
                && recorder.history[|old(recorder.history)|]
                   == Entry(StateChange, Code(old(systemState)), Code(systemState), tick % 0x1_0000_0000, r.reason)
                && recorder.history[|old(recorder.history)| + 1..]
                   == (if systemState == Safe then [Entry(SafePolicy, 1, 0, tick % 0x1_0000_0000, 0)]
                       else if old(systemState) == Safe then [Entry(SafePolicy, 0, 0, tick % 0x1_0000_0000, 0)] else [])
    {
      var current := systemState;
      changed := false;
      if Allows(current, r) {
        if current != r.requested {
          current := r.requested;
          changed := true;
        }
      }
      if changed {
        var previous := systemState;
        ghost var was := recorder.history;
        systemState := current;
        recorder.Store(StateChange, Code(previous), Code(current), r.reason, tick);
        ChangesAppend(was, recorder.history[|was|]);
        OneChange(Code(previous), Code(current));
        PathConcat(Changes(was), [(Code(previous), Code(current))], since, Code(previous), Code(current));
        ghost var mid := recorder.history;
        if current == Safe && previous != Safe {
          recorder.Store(SafePolicy, 1, 0, 0, tick);
          ChangesAppend(mid, recorder.history[|mid|]);
        } else if previous == Safe && current != Safe {
          recorder.Store(SafePolicy, 0, 0, 0, tick);
          ChangesAppend(mid, recorder.history[|mid|]);
        }
      }
    }

    /** The state changes, and the record of that overlaps another task's, one of the two stores being
        inside the other.  The path goes on exactly if what is left of them and the stale entry that
        follows lead from the old state to the new one: normally, if what is left is the change. */
    method ChangeOverlapped(next: State, reason: int, tick: int, other: Entry, otherInside: bool, filled: bool)
      requires Valid() && next != systemState && other.kind != StateChange
      modifies this`systemState, recorder, recorder.entries
      ensures recorder.Valid() && systemState == next
      ensures var change := Entry(StateChange, Code(old(systemState)), Code(next), tick % 0x1_0000_0000, reason);
              var stale := old(recorder.entries[SlotOf(|recorder.history| + 1)]);
              var kept := if filled == otherInside then other else change;
              && recorder.history == old(recorder.history) + [kept, stale]
              && (Valid() <==> Path(ChangeIn(kept) + ChangeIn(stale), Code(old(systemState)), Code(next)))
              && (stale.kind != StateChange ==> (Valid() <==> filled != otherInside))
    {
      hide SlotOf, Path, Changes;
      var previous := systemState;
      ghost var was, stale := recorder.history, recorder.entries[SlotOf(|recorder.history| + 1)];
      var change := Entry(StateChange, Code(previous), Code(next), tick % 0x1_0000_0000, reason);
      systemState := next;
      if otherInside {
        recorder.Overlap(change, other, filled);
      } else {
        recorder.Overlap(other, change, filled);
      }
      ghost var kept := if filled == otherInside then other else change;
      assert recorder.history == was + [kept] + [stale];
      ChangesAppend(was, kept);
      ChangesAppend(was + [kept], stale);
      assert Changes(recorder.history) == Changes(was) + (ChangeIn(kept) + ChangeIn(stale));
      PathConcat(Changes(was), ChangeIn(kept) + ChangeIn(stale), since, Code(previous), Code(next));
      EitherStep(change, Code(previous), Code(next));
    }

    /** Any other part of the firmware records an entry that is not a state change. */
    method Other(e: Entry)
      requires Valid() && e.kind != StateChange
      modifies recorder, recorder.entries
      ensures Valid() && recorder.history == old(recorder.history) + [e]
    {
      ChangesAppend(recorder.history, e);
      recorder.Append(e);
    }
  }

  // ---------- What requests can do over a run ----------

  function Run(s: State, requests: seq<Request>): State
    decreases |requests|
  {
    if requests == [] then s else Run(Applied(s, requests[0]).0, requests[1..])
  }

  ghost predicate NoRecovery(requests: seq<Request>) {
    forall i | 0 <= i < |requests| :: !IsRecovery(requests[i])
  }

  /** Without a request for NOMINAL with reason 0x03 or 0x10 the last state is the highest of the
      first and all that were requested; so the state never falls. */
  lemma {:induction false} HighestRequested(s: State, requests: seq<Request>)
    requires NoRecovery(requests)
    ensures var last := Run(s, requests);
            && Code(last) >= Code(s)
            && (forall i | 0 <= i < |requests| :: Code(last) >= Code(requests[i].requested))
            && (last == s || exists i :: 0 <= i < |requests| && requests[i].requested == last)
    decreases |requests|
  {
    if requests != [] {
      var rest := requests[1..];
      assert forall i | 0 <= i < |rest| :: rest[i] == requests[i + 1];
      assert !IsRecovery(requests[0]);
      HighestRequested(Applied(s, requests[0]).0, rest);
      var last := Run(s, requests);
      forall i | 0 <= i < |requests| ensures Code(last) >= Code(requests[i].requested) {
        if i > 0 { assert rest[i - 1] == requests[i]; }
      }
    }
  }

  lemma {:induction false} RunConcat(s: State, a: seq<Request>, b: seq<Request>)
    ensures Run(s, a + b) == Run(Run(s, a), b)
    decreases |a|
  {
    if a == [] {
      assert a + b == b;
    } else {
      assert (a + b)[1..] == a[1..] + b;
      RunConcat(Applied(s, a[0]).0, a[1..], b);
    }
  }

  /** A request for NOMINAL with one of the two reasons leads there from any state, so that the last
      one and the highest of the requests after it decide where a run ends. */
  lemma LastRecoveryDecides(s: State, requests: seq<Request>, k: nat)
    requires k < |requests| && IsRecovery(requests[k]) && NoRecovery(requests[k + 1..])
    ensures Run(s, requests[..k + 1]) == Nominal
    ensures var last := Run(s, requests);
            && Code(last) >= Code(Nominal)
            && (forall i | k < i < |requests| :: Code(last) >= Code(requests[i].requested))
            && (last == Nominal || exists i :: k < i < |requests| && requests[i].requested == last)
  {
    var rest := requests[k + 1..];
    assert requests[..k + 1] == requests[..k] + [requests[k]] && requests == requests[..k + 1] + rest;
    RunConcat(s, requests[..k], [requests[k]]);
    RunConcat(s, requests[..k + 1], rest);
    OneRequest(Run(s, requests[..k]), requests[k]);
    HighestRequested(Nominal, rest);
    var last := Run(s, requests);
    forall i | k < i < |requests| ensures Code(last) >= Code(requests[i].requested) {
      assert rest[i - k - 1] == requests[i];
    }
    if last != Nominal {
      var i :| 0 <= i < |rest| && rest[i].requested == last;
      assert requests[i + k + 1].requested == last;
    }
  }

  lemma OneRequest(s: State, r: Request)
    requires IsRecovery(r)
    ensures Run(s, [r]) == Nominal
  {
    assert [r][1..] == [];
  }

  lemma {:induction false} NeverBootAgain(s: State, requests: seq<Request>)
    requires s != Boot
    ensures Run(s, requests) != Boot
    decreases |requests|
  {
    if requests != [] { NeverBootAgain(Applied(s, requests[0]).0, requests[1..]); }
  }

  /** What a reader of the recorder sees: the entries still held form a path that ends in the
      present state. */
  lemma HeldEntriesArePath(history: seq<Entry>, start: int, end: int)
    requires Path(Changes(history), start, end)
    ensures exists from :: Path(Changes(LastOf(history, CAPACITY)), from, end)
  {
    if |history| > CAPACITY {
      PathDrop(history, |history| - CAPACITY, start, end);
      var from :| Path(Changes(history[|history| - CAPACITY..]), from, end);
      assert Path(Changes(LastOf(history, CAPACITY)), from, end);
    } else {
      assert Path(Changes(LastOf(history, CAPACITY)), start, end);
    }
  }
}
