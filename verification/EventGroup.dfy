/** Event groups (FreeRTOS/Source/event_groups.c).  A word of event bits is the set of the numbers
    of its set bits.  EventBits_t is the 64-bit tick type of this port, but the control bits and
    their masks are 32-bit constants, so that `~eventEVENT_BITS_CONTROL_BYTES` keeps bits 0 to 23. */
module EventGroup {
  import opened Options

  type Bits = set<int>
  type Task = int

  const CONTROL: Bits := {24, 25, 26, 27, 28, 29, 30, 31}
  const CLEAR_ON_EXIT: int := 24
  const UNBLOCKED_DUE_TO_BIT_SET: int := 25
  const WAIT_FOR_ALL: int := 26
  const IN_USE: int := 31

  /** `bits & ~eventEVENT_BITS_CONTROL_BYTES` */
  function Masked(bits: Bits): Bits { set b | b in bits && 0 <= b < 24 }

  /** What a task waits for. */
  datatype Wait = Wait(wanted: Bits, all: bool, clear: bool)

  /** prvTestWaitCondition */
  predicate TestWaitCondition(current: Bits, wanted: Bits, all: bool) {
    if all then current * wanted == wanted else current * wanted != {}
  }

  /** A waiting task: its wait, and the value of its event list item. */
  datatype Waiter = Waiter(task: Task, wait: Wait, value: Bits)

  /** The item value that vTaskPlaceOnUnorderedEventList stores for a wait. */
  function ItemValue(w: Wait): Bits {
    w.wanted + (if w.clear then {CLEAR_ON_EXIT} else {}) + (if w.all then {WAIT_FOR_ALL} else {}) + {IN_USE}
  }

  /** The test that xEventGroupSetBits makes on an item value. */
  predicate Matches(value: Bits, bits: Bits) {
    if WAIT_FOR_ALL !in value * CONTROL then Masked(value) * bits != {} else Masked(value) * bits == Masked(value)
  }

  predicate Admissible(w: Wait) { w.wanted * CONTROL == {} && w.wanted != {} }

  ghost predicate WellFormed(w: Waiter) { Admissible(w.wait) && w.value == ItemValue(w.wait) }

  /** A wait the 32-bit masks can represent. */
  predicate Narrow(w: Wait) { forall b | b in w.wanted :: 0 <= b < 24 }

  predicate Satisfied(w: Wait, bits: Bits) { TestWaitCondition(bits, w.wanted, w.all) }

  // ---------- The masks ----------

  lemma MaskedValue(w: Wait)
    requires Admissible(w)
    ensures Masked(ItemValue(w)) == Masked(w.wanted)
    ensures WAIT_FOR_ALL in ItemValue(w) * CONTROL <==> w.all
    ensures CLEAR_ON_EXIT in ItemValue(w) * CONTROL <==> w.clear
    ensures UNBLOCKED_DUE_TO_BIT_SET !in ItemValue(w)
  {}

  /** The bits of event_groups.c: 0x01000000 to clear on exit, 0x04000000 to wait for all bits; and
      0x80000000 of tasks.c, that the item value is in use. */
  lemma ControlBits(w: Wait)
    ensures ItemValue(w) == w.wanted + (if w.clear then {24} else {}) + (if w.all then {26} else {}) + {31}
    ensures forall b :: b in CONTROL <==> 24 <= b < 32
  {}

  lemma MaskedNarrow(w: Wait)
    ensures Narrow(w) <==> Masked(w.wanted) == w.wanted
  {}

  /** The kernel's test of a waiting task agrees with its condition, whatever bits are set, exactly
      when it waits only for bits 0 to 23; the assertions of the API let bits above 31 through. */
  lemma TestIsRightIffNarrow(w: Wait)
    requires Admissible(w)
    ensures (forall bits: Bits :: Matches(ItemValue(w), bits) <==> Satisfied(w, bits)) <==> Narrow(w)
  {
    MaskedValue(w);
    MaskedNarrow(w);
    if Narrow(w) {
      forall bits: Bits ensures Matches(ItemValue(w), bits) <==> Satisfied(w, bits) {
        assert bits * w.wanted == Masked(w.wanted) * bits;
      }
    } else if w.all {
      var low := Masked(w.wanted);
      assert low * low == low;
      assert Matches(ItemValue(w), low);
      assert low * w.wanted == low;
      assert !Satisfied(w, low);
    } else {
      var b :| b in w.wanted && !(0 <= b < 24);
      assert b in {b} * w.wanted;
      assert Satisfied(w, {b});
      assert Masked(w.wanted) * {b} == {};
      assert !Matches(ItemValue(w), {b});
    }
  }

  lemma NarrowTest(w: Waiter, bits: Bits)
    requires WellFormed(w) && Narrow(w.wait)
    ensures Matches(w.value, bits) <==> Satisfied(w.wait, bits)
  {
    TestIsRightIffNarrow(w.wait);
  }

  /** A task that waits for bit 40 alone: with all bits wanted it is woken although nothing it waits
      for is set, and with any bit wanted it is not woken when its bit is set. */
  lemma WideWaitGoesWrong()
    ensures var all, any := Wait({40}, true, false), Wait({40}, false, false);
            && Admissible(all) && Matches(ItemValue(all), {}) && !Satisfied(all, {})
            && Admissible(any) && !Matches(ItemValue(any), {40}) && Satisfied(any, {40})
  {
    var all, any := Wait({40}, true, false), Wait({40}, false, false);
    MaskedValue(all);
    MaskedValue(any);
    assert Masked({40}) == {};
    assert 40 in {40} * {40};
    assert {} * {40} == {};
  }

  lemma Monotone(w: Wait, fewer: Bits, more: Bits)
    requires fewer <= more && Satisfied(w, fewer)
    ensures Satisfied(w, more)
  {}

  // ---------- What setting bits does ----------

  function Woken(waiters: seq<Waiter>, bits: Bits): seq<Waiter> {
    if waiters == [] then []
    else IfWoken(waiters[0], bits) + Woken(waiters[1..], bits)
  }

  function Left(waiters: seq<Waiter>, bits: Bits): seq<Waiter> {
    if waiters == [] then []
    else IfLeft(waiters[0], bits) + Left(waiters[1..], bits)
  }

  /** The bits that the woken tasks asked to be cleared. */
  function ToClear(woken: seq<Waiter>): Bits {
    if woken == [] then {}
    else (if CLEAR_ON_EXIT in woken[0].value * CONTROL then Masked(woken[0].value) else {}) + ToClear(woken[1..])
  }

  function IfWoken(w: Waiter, bits: Bits): seq<Waiter> { if Matches(w.value, bits) then [w] else [] }

  function IfLeft(w: Waiter, bits: Bits): seq<Waiter> { if Matches(w.value, bits) then [] else [w] }

  lemma {:induction false} WokenAppend(waiters: seq<Waiter>, w: Waiter, bits: Bits)
    ensures Woken(waiters + [w], bits) == Woken(waiters, bits) + IfWoken(w, bits)
    ensures Left(waiters + [w], bits) == Left(waiters, bits) + IfLeft(w, bits)
  {
    hide Matches;
    if waiters == [] {
      assert [w][1..] == [];
    } else {
      assert (waiters + [w])[1..] == waiters[1..] + [w];
      WokenAppend(waiters[1..], w, bits);
    }
  }

  lemma {:induction false} ToClearAppend(woken: seq<Waiter>, w: Waiter)
    ensures ToClear(woken + [w])
            == ToClear(woken) + (if CLEAR_ON_EXIT in w.value * CONTROL then Masked(w.value) else {})
  {
    if woken == [] {
      assert [w][1..] == [];
    } else {
      assert (woken + [w])[1..] == woken[1..] + [w];
      ToClearAppend(woken[1..], w);
    }
  }

  lemma {:induction false} SplitMembers(waiters: seq<Waiter>, bits: Bits)
    ensures forall w :: w in Woken(waiters, bits) <==> w in waiters && Matches(w.value, bits)
    ensures forall w :: w in Left(waiters, bits) <==> w in waiters && !Matches(w.value, bits)
  {
    if waiters != [] {
      assert waiters == [waiters[0]] + waiters[1..];
      SplitMembers(waiters[1..], bits);
    }
  }

  lemma {:induction false} ClearedByWhom(woken: seq<Waiter>, b: int)
    ensures b in ToClear(woken) <==>
              exists w :: w in woken && CLEAR_ON_EXIT in w.value * CONTROL && b in Masked(w.value)
  {
    if woken != [] {
      assert woken == [woken[0]] + woken[1..];
      ClearedByWhom(woken[1..], b);
    }
  }

  lemma {:induction false} WokenCount(waiters: seq<Waiter>, bits: Bits, w: Waiter)
    ensures multiset(Woken(waiters, bits))[w] == if Matches(w.value, bits) then multiset(waiters)[w] else 0
  {
    if waiters != [] {
      assert waiters == [waiters[0]] + waiters[1..];
      WokenCount(waiters[1..], bits, w);
    }
  }

  /** Whatever the order of the list, the same tasks are woken and the same bits cleared. */
  lemma OrderDoesNotMatter(a: seq<Waiter>, b: seq<Waiter>, bits: Bits)
    requires multiset(a) == multiset(b)
    ensures multiset(Woken(a, bits)) == multiset(Woken(b, bits))
    ensures ToClear(Woken(a, bits)) == ToClear(Woken(b, bits))
  {
    forall w ensures multiset(Woken(a, bits))[w] == multiset(Woken(b, bits))[w] {
      WokenCount(a, bits, w);
      WokenCount(b, bits, w);
    }
    assert forall w :: w in Woken(a, bits) <==> w in Woken(b, bits) by {
      forall w ensures w in Woken(a, bits) <==> w in Woken(b, bits) {
        assert w in multiset(Woken(a, bits)) <==> w in multiset(Woken(b, bits));
      }
    }
    forall c ensures c in ToClear(Woken(a, bits)) <==> c in ToClear(Woken(b, bits)) {
      ClearedByWhom(Woken(a, bits), c);
      ClearedByWhom(Woken(b, bits), c);
    }
  }

  /** No task that can be represented waits for a condition that holds. */
  ghost predicate NoneSatisfied(waiters: seq<Waiter>, bits: Bits) {
    forall w | w in waiters :: WellFormed(w) && (Narrow(w.wait) ==> !Satisfied(w.wait, bits))
  }

  lemma StillNone(waiters: seq<Waiter>, more: Bits, fewer: Bits)
    requires NoneSatisfied(waiters, more) && fewer <= more
    ensures NoneSatisfied(waiters, fewer)
  {}

  lemma NoneLeftSatisfied(waiters: seq<Waiter>, bits: Bits)
    requires forall w | w in waiters :: WellFormed(w)
    ensures NoneSatisfied(Left(waiters, bits), bits)
  {}

  /** A value handed to a woken task meets what it waited for. */
  lemma WokenIsSatisfied(waiters: seq<Waiter>, bits: Bits, w: Waiter)
    requires WellFormed(w) && Narrow(w.wait) && w in waiters
    ensures w in Woken(waiters, bits) <==> Satisfied(w.wait, bits)
    ensures Satisfied(w.wait, bits) ==> Satisfied(w.wait, Masked(bits))
  {
    SplitMembers(waiters, bits);
    NarrowTest(w, bits);
    assert bits * w.wait.wanted == Masked(bits) * w.wait.wanted;
  }

  class Group {
    var bits: Bits
    var waiters: seq<Waiter>

    ghost predicate Valid()
      reads this
    {
      NoneSatisfied(waiters, bits)
    }

    constructor ()
      ensures Valid() && bits == {} && waiters == []
    {
      bits, waiters := {}, [];
    }

    /** xEventGroupSetBits: returns the resulting bits and the tasks woken, each with the value that
        it will read. */
    method SetBits(toSet: Bits) returns (result: Bits, woken: seq<Waiter>, value: Bits)
      requires Valid() && toSet * CONTROL == {}
      modifies this
      ensures Valid() && result == bits
      ensures woken == Woken(old(waiters), old(bits) + toSet) && waiters == Left(old(waiters), old(bits) + toSet)
      ensures bits == (old(bits) + toSet) - ToClear(woken)
      ensures value == old(bits) + toSet + {25, 31}
    {
      bits := bits + toSet;
      var bitsToClear: Bits := {};
      var all := waiters;
      var kept := [];
      woken := [];
      value := bits + {UNBLOCKED_DUE_TO_BIT_SET} + {IN_USE};
      var i := 0;
      while i < |all|
        invariant 0 <= i <= |all| && bits == old(bits) + toSet
        invariant woken == Woken(all[..i], bits) && kept == Left(all[..i], bits) && bitsToClear == ToClear(woken)
      {
        var controlBits := all[i].value * CONTROL;
        var bitsWaitedFor := Masked(all[i].value);
        var matchFound := false;
        if WAIT_FOR_ALL !in controlBits {
          if bitsWaitedFor * bits != {} {
            matchFound := true;
          }
        } else if bitsWaitedFor * bits == bitsWaitedFor {
          matchFound := true;
        }
        assert all[..i + 1] == all[..i] + [all[i]];
        WokenAppend(all[..i], all[i], bits);
        if matchFound {
          ToClearAppend(woken, all[i]);
          if CLEAR_ON_EXIT in controlBits {
            bitsToClear := bitsToClear + bitsWaitedFor;
          }
          woken := woken + [all[i]];
        } else {
          kept := kept + [all[i]];
        }
        i := i + 1;
      }
      assert all[..|all|] == all;
      NoneLeftSatisfied(all, bits);
      StillNone(kept, bits, bits - bitsToClear);
      waiters := kept;
      bits := bits - bitsToClear;
      result := bits;
    }

    /** xEventGroupClearBits */
    method ClearBits(toClear: Bits) returns (before: Bits)
      requires Valid() && toClear * CONTROL == {}
      modifies `bits
      ensures Valid() && before == old(bits) && bits == old(bits) - toClear
    {
      before := bits;
      StillNone(waiters, bits, bits - toClear);
      bits := bits - toClear;
    }

    /** The first half of xEventGroupWaitBits: returns the bits if the task need not or may not
        block, and otherwise puts it on the list. */
    method WaitBits(task: Task, wait: Wait, mayBlock: bool) returns (result: Option<Bits>)
      requires Valid() && Admissible(wait)
      modifies this
      ensures Valid()
      ensures Satisfied(wait, old(bits)) ==>
                && result == Some(old(bits)) && waiters == old(waiters)
                && bits == if wait.clear then old(bits) - wait.wanted else old(bits)
      ensures !Satisfied(wait, old(bits)) && !mayBlock ==>
                result == Some(old(bits)) && bits == old(bits) && waiters == old(waiters)
      ensures !Satisfied(wait, old(bits)) && mayBlock ==>
                && result == None && bits == old(bits)
                && waiters == old(waiters) + [Waiter(task, wait, ItemValue(wait))]
    {
      if TestWaitCondition(bits, wait.wanted, wait.all) {
        result := Some(bits);
        if wait.clear {
          StillNone(waiters, bits, bits - wait.wanted);
          bits := bits - wait.wanted;
        }
      } else if !mayBlock {
        result := Some(bits);
      } else {
        waiters := waiters + [Waiter(task, wait, ItemValue(wait))];
        result := None;
      }
    }

    /** The first half of xEventGroupSync. */
    method Sync(task: Task, toSet: Bits, wanted: Bits, mayBlock: bool)
      returns (result: Option<Bits>, woken: seq<Waiter>)
      requires Valid() && Admissible(Wait(wanted, true, true)) && toSet * CONTROL == {}
      modifies this
      ensures Valid() && woken == Woken(old(waiters), old(bits) + toSet)
      ensures var set', left := (old(bits) + toSet) - ToClear(woken), Left(old(waiters), old(bits) + toSet);
              if wanted <= old(bits) + toSet
              then result == Some(old(bits) + toSet) && bits == set' - wanted && waiters == left
              else && bits == set'
                   && (if mayBlock
                       then result == None
                            && var wait := Wait(wanted, true, true); waiters == left + [Waiter(task, wait, ItemValue(wait))]
                       else result == Some(set') && waiters == left)
    {
      var original := bits;
      var resulting, value;
      resulting, woken, value := SetBits(toSet);
      if (original + toSet) * wanted == wanted {
        assert wanted <= original + toSet;
        result := Some(original + toSet);
        StillNone(waiters, bits, bits - wanted);
        bits := bits - wanted;
      } else if mayBlock {
        var wait := Wait(wanted, true, true);
        if Satisfied(wait, bits) { Monotone(wait, bits, original + toSet); }
        waiters := waiters + [Waiter(task, wait, ItemValue(wait))];
        result := None;
      } else {
        result := Some(bits);
      }
    }

    /** A tick takes a task whose block time is over off the list. */
    method TimeOut(i: nat)
      requires Valid() && i < |waiters|
      modifies `waiters
      ensures Valid() && waiters == old(waiters)[..i] + old(waiters)[i + 1..]
    {
      assert forall w | w in waiters[..i] + waiters[i + 1..] :: w in waiters;
      waiters := waiters[..i] + waiters[i + 1..];
    }

    /** The second half of xEventGroupWaitBits and xEventGroupSync: the task runs again and reads
        the value left in its event list item. */
    method FinishWait(wait: Wait, value: Bits) returns (result: Bits)
      requires Valid() && Admissible(wait)
      modifies `bits
      ensures Valid()
      ensures 25 in value ==> result == Masked(value) && bits == old(bits)
      ensures 25 !in value ==>
                && result == Masked(old(bits))
                && bits == if Satisfied(wait, old(bits)) && wait.clear then old(bits) - wait.wanted else old(bits)
    {
      result := value;
      if UNBLOCKED_DUE_TO_BIT_SET !in result {
        result := bits;
        if TestWaitCondition(result, wait.wanted, wait.all) {
          if wait.clear {
            StillNone(waiters, bits, bits - wait.wanted);
            bits := bits - wait.wanted;
          }
        }
      }
      result := Masked(result);
    }
  }

  /** A narrow waiter that a set wakes reads, when it runs, bits that satisfy its condition. */
  lemma WokenReadsItsBits(bits: Bits, wait: Wait)
    requires Admissible(wait) && Narrow(wait) && Satisfied(wait, bits)
    ensures Satisfied(wait, Masked(bits + {25, 31}))
  {}
}
