/** The flight recorder (src/event_log.c): a ring of fixed-size entries in place, and the history it
    shows.  Its writers are tasks of different priorities and there is no critical section, so that a
    store can be held up between taking its slot, filling it and moving the head on. */
module FlightRecorder {
  import opened Options

  const CAPACITY: nat := 48

  datatype EntryType = BootEvent | StateChange | WatchdogTimeout | SeuCorrected | MemProtThreshold
                     | SafePolicy | Operator | ImageCrcFail

  /** EventLogEntry_t; argA and argB are 8 bits wide, tick and data 32. */
  datatype Entry = Entry(kind: EntryType, argA: int, argB: int, tick: int, data: int)

  const BLANK: Entry := Entry(BootEvent, 0, 0, 0, 0)

  /** The last n entries, or all of them if there are fewer. */
  function LastOf(history: seq<Entry>, n: nat): (s: seq<Entry>)
    ensures |s| == if |history| < n then |history| else n
  {
    if |history| <= n then history else history[|history| - n..]
  }

  /** The slot of the k-th entry of the history. */
  function SlotOf(k: nat): (slot: nat)
    ensures slot < CAPACITY
  {
    k % CAPACITY
  }

  /** Which entry of a history of n, other than the oldest still in the ring, is in a slot. */
  function HeldIn(n: nat, slot: nat): (k: Option<nat>)
    requires slot < CAPACITY
    ensures k.Some? ==> k.value < n < k.value + CAPACITY && SlotOf(k.value) == slot
    ensures forall j: nat | j < n < j + CAPACITY && SlotOf(j) == slot :: k == Some(j)
    ensures slot == SlotOf(n) ==> k == None
  {
    var back := if slot < SlotOf(n) then SlotOf(n) - slot else SlotOf(n) + CAPACITY - slot;
    if back < CAPACITY && back <= n then Some(n - back) else None
  }

  /** A step of the task w: it takes the slot at the head, fills the slot it took, or moves the head on. */
  datatype Step = Takes(w: int) | Fills(w: int, e: Entry) | Moves(w: int)

  /** The task whose store is under way, and whether it has filled its slot. */
  datatype Busy = Busy(w: int, filled: bool)

  /** Every store is complete and none begins inside another. */
  predicate NoneInside(steps: seq<Step>, busy: Option<Busy>) {
    if steps == [] then busy == None else
    match steps[0]
    case Takes(w) => busy == None && NoneInside(steps[1..], Some(Busy(w, false)))
    case Fills(w, _) => busy == Some(Busy(w, false)) && NoneInside(steps[1..], Some(Busy(w, true)))
    case Moves(w) => busy == Some(Busy(w, true)) && NoneInside(steps[1..], None)
  }

  /** What is stored, in order. */
  function Stored(steps: seq<Step>): seq<Entry> {
    if steps == [] then []
    else Stored(steps[..|steps| - 1]) + match steps[|steps| - 1] case Fills(_, e) => [e] case _ => []
  }

  function MovesIn(steps: seq<Step>): nat {
    if steps == [] then 0 else MovesIn(steps[..|steps| - 1]) + if steps[|steps| - 1].Moves? then 1 else 0
  }

  class Recorder {
    const entries: array<Entry>
    var head: int
    var count: int

    ghost var history: seq<Entry>    // since the last reset

    ghost predicate Valid()
      reads this, entries
    {
      Settled() && (|history| >= CAPACITY ==> entries[head] == history[|history| - CAPACITY])
    }

    /** The ring shows the history, but a store may have filled the slot at the head. */
    ghost predicate Settled()
      reads this, entries
    {
      && entries.Length == CAPACITY
      && head == SlotOf(|history|) && count == (if |history| < CAPACITY then |history| else CAPACITY)
      && forall k | 0 <= k < |history| && |history| - CAPACITY < k :: entries[SlotOf(k)] == history[k]
    }

    /** event_log_init: a boot entry at the given tick. */
    constructor (tick: int)
      ensures Valid() && fresh(entries) && history == [Entry(BootEvent, 0, 0, tick % 0x1_0000_0000, 0)]
    {
      entries := new Entry[CAPACITY](_ => BLANK);
      head, count, history := 0, 0, [];
      new;
      Store(BootEvent, 0, 0, 0, tick);
    }

    /** event_log_reset */
    method Reset()
      requires Settled()
      modifies this
      ensures Valid() && history == []
    {
      head, count, history := 0, 0, [];
    }

    // ---------- The steps of a store ----------

    method TakeSlot() returns (slot: nat)
      requires Settled()
      ensures slot == head < CAPACITY
    {
      slot := head;
    }

    /** If the head has moved on since the slot was taken, an entry of the history is overwritten. */
    method Fill(slot: nat, e: Entry)
      requires Settled() && slot < CAPACITY
      modifies `history, entries
      ensures Settled() && entries[..] == old(entries[..])[slot := e]
      ensures history == match HeldIn(|old(history)|, slot) case None => old(history) case Some(k) => old(history)[k := e]
    {
      ghost var was := entries[..];
      entries[slot] := e;
      assert entries[..] == was[slot := e];
      ghost var k := HeldIn(|history|, slot);
      if k.Some? {
        history := history[k.value := e];
      }
    }

    /** The history goes on with what is in the slot at the head. */
    method MoveOn()
      requires Settled()
      modifies `head, `count, `history
      ensures Valid() && 0 <= old(head) < CAPACITY && history == old(history) + [entries[old(head)]]
    {
      ghost var n := |history|;
      history := history + [entries[head]];
      head := (head + 1) % CAPACITY;
      if count < CAPACITY {
        count := count + 1;
      }
      if n + 1 >= CAPACITY { SameSlot(n + 1 - CAPACITY); }
      forall k | 0 <= k < |history| && |history| - CAPACITY < k ensures entries[SlotOf(k)] == history[k] {
      }
    }

    /** A store that nothing comes into. */
    method Append(e: Entry)
      requires Settled()
      modifies this, entries
      ensures Valid() && history == old(history) + [e]
      ensures 0 <= old(head) < CAPACITY && entries[..] == old(entries[..])[old(head) := e]
    {
      var slot := TakeSlot();
      Fill(slot, e);
      MoveOn();
    }

    /** A store of `inner` inside one of `outer`: after that has taken its slot and, if `filled`, has
        filled it.  Both use one slot, so one of them is gone, and the entry shown as the newest is
        the stale one of the next slot. */
    method Overlap(outer: Entry, inner: Entry, filled: bool)
      requires Valid()
      modifies this, entries
      ensures Valid()
      ensures var stale := old(entries[SlotOf(|history| + 1)]);
              && history == old(history) + [if filled then inner else outer, stale]
              && (history == old(history) + [outer, inner] || history == old(history) + [inner, outer]
                  <==> stale == if filled then outer else inner)
    {
      hide SlotOf, HeldIn;
      ghost var n, was := |history|, entries[..];
      NextSlot(n);
      var slot := TakeSlot();
      if filled {
        Fill(slot, outer);
      }
      Append(inner);
      assert entries[SlotOf(n + 1)] == was[SlotOf(n + 1)];
      if !filled {
        Fill(slot, outer);
      }
      MoveOn();
      assert history == old(history) + [history[n], history[n + 1]];
    }

    /** Any interleaving of the steps of any number of tasks.  Every move shows one entry more; and if
        no store begins inside another, what is shown is what is stored. */
    method Interleave(steps: seq<Step>)
      requires Valid()
      modifies this, entries
      ensures Settled() && |history| == |old(history)| + MovesIn(steps)
      ensures NoneInside(steps, None) ==> Valid() && history == old(history) + Stored(steps)
    {
      hide SlotOf, HeldIn;
      var taken: map<int, nat> := map[];
      ghost var busy: Option<Busy> := None;
      ghost var serial := NoneInside(steps, None);
      assert steps[0..] == steps && old(history) + Stored([]) == old(history);
      for i := 0 to |steps|
        invariant Settled() && |history| == |old(history)| + MovesIn(steps[..i])
        invariant forall w | w in taken :: taken[w] < CAPACITY
        invariant serial ==> NoneInside(steps[i..], busy)
        invariant serial && busy == None ==> Valid() && history == old(history) + Stored(steps[..i])
        invariant serial && busy.Some? ==>
                    && busy.value.w in taken && taken[busy.value.w] == head
                    && if busy.value.filled then history + [entries[head]] == old(history) + Stored(steps[..i])
                       else history == old(history) + Stored(steps[..i])
      {
        assert steps[..i + 1][..i] == steps[..i] && steps[i..][1..] == steps[i + 1..];
        NextSlot(|history|);
        match steps[i] {
          case Takes(w) =>
            var slot := TakeSlot();
            taken := taken[w := slot];
            busy := Some(Busy(w, false));
          case Fills(w, e) =>
            if w in taken {
              Fill(taken[w], e);
            }
            busy := Some(Busy(w, true));
          case Moves(w) =>
            MoveOn();
            busy := None;
        }
      }
      assert steps[..|steps|] == steps;
    }

    // ---------- The writers ----------

    /** event_log_store */
    method Store(kind: EntryType, argA: int, argB: int, data: int, tick: int)
      requires Settled()
      modifies this, entries
      ensures Valid() && history == old(history) + [Entry(kind, argA, argB, tick % 0x1_0000_0000, data)]
    {
      Append(Entry(kind, argA, argB, tick % 0x1_0000_0000, data));
    }

    /** event_log_record_image_crc_fail, the second writer: its tick field holds the computed CRC. */
    method RecordImageCrcFail(expected: int, computed: int)
      requires Settled()
      modifies this, entries
      ensures Valid() && history == old(history) + [Entry(ImageCrcFail, 0, 0, computed, expected)]
    {
      Append(Entry(ImageCrcFail, 0, 0, computed, expected));
    }

    /** event_log_record_seu_corrected: the byte index is cut to 8 bits. */
    method RecordSeuCorrected(byteIndex: int, bit: int, tick: int)
      requires Settled()
      modifies this, entries
      ensures Valid() && history == old(history) + [SeuEntry(byteIndex, bit, tick)]
    {
      Store(SeuCorrected, byteIndex % 0x100, bit, 0, tick);
    }

    /** event_log_count and event_log_get_entry_chronological: exactly the last 48 entries of the
        history, or all of them, oldest first.  While a store is under way the oldest of 48 may be
        the entry it has filled in. */
    method GetEntryChronological(index: nat) returns (entry: Option<Entry>)
      requires Settled()
      ensures count == |LastOf(history, CAPACITY)| == if |history| < 48 then |history| else 48
      ensures index >= |LastOf(history, CAPACITY)| ==> entry == None
      ensures index < |LastOf(history, CAPACITY)| && (index > 0 || |history| < CAPACITY || Valid()) ==>
                entry == Some(LastOf(history, CAPACITY)[index])
                      == Some(history[(if |history| < 48 then 0 else |history| - 48) + index])
      ensures index == 0 && |history| >= CAPACITY ==> 0 <= head < CAPACITY && entry == Some(entries[head])
    {
      if index >= count {
        return None;
      }
      var start := if count < CAPACITY then 0 else head;
      var slot := (start + index) % CAPACITY;
      Chronological(|history|, index);
      entry := Some(entries[slot]);
    }
  }

  function SeuEntry(byteIndex: int, bit: int, tick: int): Entry {
    Entry(SeuCorrected, byteIndex % 0x100, bit, tick % 0x1_0000_0000, 0)
  }

  /** The recorder cannot tell two scrubbed bytes 256 apart: within the 512 of the scrub area, the
      entry names the byte up to its half. */
  lemma SeuEntryNamesByteUpToHalf(i: nat, j: nat, bit: int, tick: int)
    requires i < 512 && j < 512
    ensures SeuEntry(i, bit, tick) == SeuEntry(j, bit, tick) <==> i == j || i == j + 256 || j == i + 256
  {}

  lemma SameSlot(k: nat)
    ensures SlotOf(k + CAPACITY) == SlotOf(k)
  {}

  lemma NextSlot(n: nat)
    ensures HeldIn(n, SlotOf(n)) == None && SlotOf(n + 1) != SlotOf(n) && HeldIn(n + 1, SlotOf(n)) == Some(n)
    ensures SlotOf(n + 1) == (SlotOf(n) + 1) % CAPACITY
  {}

  /** The slot read for an index is that of the entry so many places after the oldest kept. */
  lemma Chronological(n: nat, index: nat)
    requires index < if n < CAPACITY then n else CAPACITY
    ensures var start := if n < CAPACITY then 0 else SlotOf(n);
            (start + index) % CAPACITY == SlotOf(if n < CAPACITY then index else n - CAPACITY + index)
  {}
}
