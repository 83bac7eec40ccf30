/** The memory scrubber and the fault injector (src/memory_scrub.c, src/fault_inject.c).  A byte is
    the set of the numbers of its set bits. */
module MemoryScrub {
  import opened SystemState

  type Byte = set<int>

  const BYTE: Byte := {0, 1, 2, 3, 4, 5, 6, 7}

  ghost predicate AreBytes(s: seq<Byte>) { forall i | 0 <= i < |s| :: s[i] <= BYTE }

  const SCRUB_SIZE: nat := 512
  const SEU_THRESHOLD: int := 5
  const FAULT_QUEUE_LENGTH: nat := 5

  datatype FaultEvent = FaultEvent(index: int, bit: int)

  /** `b ^ (1 << bit)` */
  function Flip(b: Byte, bit: int): Byte { if bit in b then b - {bit} else b + {bit} }

  /** `(actual & ~mask) | (expected & mask)` */
  function Corrected(actual: Byte, expected: Byte, bit: int): Byte { (actual - {bit}) + (expected * {bit}) }

  /** What memory_scrub_fix_event leaves of a stored byte, if memory protection lets the byte be read
      (it otherwise reads 0) and written. */
  function Fixed(stored: Byte, expected: Byte, bit: int, readable: bool, writable: bool): Byte {
    var actual: Byte := if readable then stored else {};
    if (bit in actual) == (bit in expected) || !writable then stored else Corrected(actual, expected, bit)
  }

  /** The fault that inject_random_fault makes of a tick count. */
  function FaultAt(tick: int): FaultEvent {
    FaultEvent(tick % 0x1_0000_0000 % SCRUB_SIZE, tick % 0x1_0000_0000 / 0x100 % 8)
  }

  lemma ByBytes(n: nat, q: nat, r: nat)
    requires n == 0x100 * q + r && r < 0x100
    ensures n / 0x100 == q
  {}

  lemma ByHalves(n: nat, q: nat, r: nat)
    requires n == 512 * q + r && r < 512
    ensures n % 512 == r
  {}

  lemma ByEights(n: nat, q: nat, r: nat)
    requires n == 8 * q + r && r < 8
    ensures n % 8 == r
  {}

  lemma LowBits(n: nat, high: nat, low: nat)
    requires n == 0x800 * high + low && low < 0x800
    ensures n % 512 == low % 512 && n / 0x100 % 8 == low / 0x100
  {
    ByHalves(n, 4 * high + low / 512, low % 512);
    ByBytes(n, 8 * high + low / 0x100, low % 0x100);
    ByEights(n / 0x100, high, low / 0x100);
  }

  /** The lowest nine bits of the tick count number the byte, the three from bit 8 on its bit. */
  lemma FaultNumbers(tick: int)
    requires 0 <= tick < 0x1_0000_0000_0000_0000
    ensures FaultAt(tick).index == tick % 512 && FaultAt(tick).bit == tick / 256 % 8
  {
    var word := tick % 0x1_0000_0000;
    LowBits(word, word / 0x800, word % 0x800);
    LowBits(tick, 0x20_0000 * (tick / 0x1_0000_0000) + word / 0x800, word % 0x800);
  }

  /** Bit 8 of the tick count is both the high bit of the byte index and the low bit of the bit number,
      so that only the even bits of the lower half of the area and the odd bits of the upper half are
      ever flipped. */
  lemma FaultsReached(index: int, bit: int)
    requires 0 <= index < 512 && 0 <= bit < 8
    ensures (exists tick :: 0 <= tick < 0x1_0000_0000_0000_0000 && FaultAt(tick) == FaultEvent(index, bit))
            <==> bit % 2 == index / 256
  {
    hide FaultAt;
    forall tick | 0 <= tick < 0x1_0000_0000_0000_0000 && FaultAt(tick) == FaultEvent(index, bit)
      ensures bit % 2 == index / 256
    {
      FaultNumbers(tick);
      SharedBit(tick / 256, tick % 256);
    }
    if bit % 2 == index / 256 {
      var tick := 256 * bit + index % 256;
      FaultNumbers(tick);
      SharedBit(bit, index % 256);
      assert FaultAt(tick) == FaultEvent(FaultAt(tick).index, FaultAt(tick).bit);
    }
  }

  lemma SharedBit(high: nat, low: nat)
    requires low < 256
    ensures (256 * high + low) % 512 == 256 * (high % 2) + low && (256 * high + low) / 256 == high
    ensures (high % 8) % 2 == high % 2
  {
    assert 256 * high + low == 512 * (high / 2) + (256 * (high % 2) + low);
  }

  /** What tasks that inject faults do while the scrubber is at work: one flips the bit that its tick
      count names, and, perhaps much later, posts the event. */
  datatype Injection = Begun(tick: int) | Ended(event: FaultEvent)

  /** The injections that come between the iterations of a loop of the scrubber. */
  type Interruptions = seq<seq<Injection>>

  ghost predicate AreTicks(steps: seq<Injection>) {
    forall j | 0 <= j < |steps| && steps[j].Begun? :: 0 <= steps[j].tick < 0x1_0000_0000_0000_0000
  }

  ghost predicate AllTicks(injected: Interruptions) { forall i | 0 <= i < |injected| :: AreTicks(injected[i]) }

  /** The fault was begun in the meantime. */
  ghost predicate Injected(e: FaultEvent, injected: Interruptions) {
    exists i, j :: 0 <= i < |injected| && 0 <= j < |injected[i]| && injected[i][j].Begun?
                   && FaultAt(injected[i][j].tick) == e
  }

  predicate Begins(step: Injection, e: FaultEvent) { step.Begun? && FaultAt(step.tick) == e }

  lemma BegunHere(steps: seq<Injection>, j: nat)
    requires j < |steps|
    ensures forall e | Begins(steps[j], e) :: Injected(e, [steps])
  {
    assert [steps][0][j] == steps[j];
  }

  ghost predicate Quiet(injected: Interruptions) { forall i | 0 <= i < |injected| :: injected[i] == [] }

  /** Where an area differs from the golden copy, bit by bit. */
  ghost function Differences(area: seq<Byte>, golden: seq<Byte>): iset<FaultEvent>
    requires |area| == |golden|
  {
    iset i, b | 0 <= i < |area| && (b in area[i]) != (b in golden[i]) :: FaultEvent(i, b)
  }

  /** A difference is named by a queued event, by one that the full queue refused, or by one that its
      injector has still to post. */
  ghost predicate Named(e: FaultEvent, queue: seq<FaultEvent>, lost: iset<FaultEvent>, flying: multiset<FaultEvent>) {
    e in queue || e in lost || e in flying
  }

  /** The queued events that a drain corrects: the first to name each difference, in order. */
  ghost function Corrections(queue: seq<FaultEvent>, differences: iset<FaultEvent>): seq<FaultEvent> {
    if queue == [] then [] else
      var n := |queue| - 1;
      Corrections(queue[..n], differences)
      + if queue[n] in differences && queue[n] !in queue[..n] then [queue[n]] else []
  }

  /** The faults that queued events name. */
  ghost function NamedBy(queue: seq<FaultEvent>): iset<FaultEvent> { iset e | e in queue }

  lemma NoCorrections(queue: seq<FaultEvent>, differences: iset<FaultEvent>)
    ensures Corrections(queue[..0], differences) == [] && NamedBy(queue[..0]) == iset{}
    ensures queue[..|queue|] == queue
  {}

  lemma CorrectionsSnoc(queue: seq<FaultEvent>, i: nat, differences: iset<FaultEvent>)
    requires i < |queue|
    ensures Corrections(queue[..i + 1], differences)
            == Corrections(queue[..i], differences)
               + if queue[i] in differences - NamedBy(queue[..i]) then [queue[i]] else []
    ensures NamedBy(queue[..i + 1]) == NamedBy(queue[..i]) + iset{queue[i]}
  {
    assert queue[..i + 1][..i] == queue[..i] && queue[..i + 1] == queue[..i] + [queue[i]];
  }

  /** How many bytes of the first n differ. */
  function DifferingBytes(area: seq<Byte>, golden: seq<Byte>, n: nat): nat
    requires n <= |area| == |golden|
  {
    if n == 0 then 0 else DifferingBytes(area, golden, n - 1) + (if area[n - 1] != golden[n - 1] then 1 else 0)
  }

  lemma {:induction false} DifferingIsCount(area: seq<Byte>, golden: seq<Byte>, n: nat)
    requires n <= |area| == |golden|
    ensures DifferingBytes(area, golden, n) == |set i | 0 <= i < n && area[i] != golden[i]|
  {
    if n > 0 {
      DifferingIsCount(area, golden, n - 1);
      var was, now := set i | 0 <= i < n - 1 && area[i] != golden[i], set i | 0 <= i < n && area[i] != golden[i];
      assert now == was + if area[n - 1] != golden[n - 1] then {n - 1} else {};
    }
  }

  lemma {:induction false} CountedUpTo(a: seq<Byte>, b: seq<Byte>, golden: seq<Byte>, n: nat)
    requires n <= |a| == |b| == |golden| && forall i | 0 <= i < n :: a[i] == b[i]
    ensures DifferingBytes(a, golden, n) == DifferingBytes(b, golden, n)
  {
    if n > 0 { CountedUpTo(a, b, golden, n - 1); }
  }

  /** An area without differences is the golden copy. */
  lemma NoDifference(area: seq<Byte>, golden: seq<Byte>)
    requires |area| == |golden|
    ensures Differences(area, golden) == iset{} <==> area == golden
  {
    if Differences(area, golden) == iset{} {
      forall i | 0 <= i < |area| ensures area[i] == golden[i] {
        forall b ensures b in area[i] <==> b in golden[i] {
          assert FaultEvent(i, b) !in Differences(area, golden);
        }
      }
    }
  }

  lemma FlipDifferences(was: seq<Byte>, golden: seq<Byte>, i: nat, bit: int)
    requires |was| == |golden| && i < |was|
    ensures Differences(was[i := Flip(was[i], bit)], golden) <= Differences(was, golden) + iset{FaultEvent(i, bit)}
  {}

  /** A correction takes away the difference it is about and no other. */
  lemma CorrectedDifferences(was: seq<Byte>, golden: seq<Byte>, i: nat, bit: int)
    requires |was| == |golden| && i < |was|
    ensures Differences(was[i := Corrected(was[i], golden[i], bit)], golden)
            == Differences(was, golden) - iset{FaultEvent(i, bit)}
  {}

  /** An injector reads the byte and writes it back flipped.  If it was held up in between, and saw the
      byte as it no longer is, every difference is still named exactly if those it brings back are. */
  lemma StaleFlip(area: seq<Byte>, golden: seq<Byte>, i: nat, bit: int, seen: Byte,
                  queue: seq<FaultEvent>, lost: iset<FaultEvent>, flying: multiset<FaultEvent>)
    requires |area| == |golden| && i < |area|
    requires forall e | e in Differences(area, golden) :: Named(e, queue, lost, flying)
    ensures var after, aloft := area[i := Flip(seen, bit)], flying + multiset{FaultEvent(i, bit)};
            (forall e | e in Differences(after, golden) :: Named(e, queue, lost, aloft))
            <==> forall b | b != bit && (b in seen) != (b in golden[i]) :: Named(FaultEvent(i, b), queue, lost, flying)
  {
    var after, aloft := area[i := Flip(seen, bit)], flying + multiset{FaultEvent(i, bit)};
    if forall e | e in Differences(after, golden) :: Named(e, queue, lost, aloft) {
      forall b | b != bit && (b in seen) != (b in golden[i]) ensures Named(FaultEvent(i, b), queue, lost, flying) {
        assert b in after[i] <==> b in seen;
        assert FaultEvent(i, b) in Differences(after, golden);
        assert Named(FaultEvent(i, b), queue, lost, aloft);
      }
    }
    forall e | e in Differences(after, golden) && e.index != i ensures Named(e, queue, lost, flying) {
      assert e in Differences(area, golden);
    }
  }

  lemma ScrubbedDifferences(was: seq<Byte>, golden: seq<Byte>, i: nat)
    requires |was| == |golden| && i < |was|
    ensures forall e | e in Differences(was[i := golden[i]], golden) :: e in Differences(was, golden) && e.index != i
  {}

  lemma IndexedDifferences(area: seq<Byte>, golden: seq<Byte>)
    requires |area| == |golden|
    ensures forall e | e in Differences(area, golden) :: 0 <= e.index < |area|
  {}

  /** The other bits of a byte that the scrubber may read, or may not write, are kept, and those of
      no other. */
  lemma OtherBitsKept(bit: int, readable: bool, writable: bool)
    requires 0 <= bit < 8
    ensures (forall stored, expected | stored <= BYTE && expected <= BYTE ::
               Fixed(stored, expected, bit, readable, writable) - {bit} == stored - {bit})
            <==> readable || !writable
  {
    if !readable && writable {
      var other := if bit == 0 then 1 else 0;
      assert Fixed(BYTE, {bit}, bit, false, true) == {bit};
      assert other in BYTE - {bit} && other !in {bit};
    }
  }

  class Scrubber {
    const area: array<Byte>              // scrub_area
    const golden: seq<Byte>              // golden_copy
    const readable: iset<int>            // indices all overlapping protected regions let be read,
    const writable: iset<int>            // and written
    var queue: seq<FaultEvent>           // xFaultQueue
    var seuCounter: int
    var seuTotal: int                    // seu_total_count, 32 bits wide
    var requests: nat                    // DEGRADED requests made
    var logged: seq<FaultEvent>          // passed to event_log_record_seu_corrected
    var state: State                     // gSystemState
    var flying: multiset<FaultEvent>     // bits flipped by injectors that have not yet posted them

    ghost var lost: iset<FaultEvent>     // injected faults that the full queue refused since the last full scrub began
    ghost var corrections: nat           // since memory_scrub_init
    ghost var escalating: nat            // those of them made below SAFE
    ghost var requestsBefore: nat

    ghost predicate Valid()
      reads this, area
    {
      && area.Length == SCRUB_SIZE == |golden| && AreBytes(golden) && AreBytes(area[..])
      && |queue| <= FAULT_QUEUE_LENGTH
      && requests == requestsBefore + escalating / SEU_THRESHOLD && seuCounter == escalating % SEU_THRESHOLD
      && seuTotal == corrections % 0x1_0000_0000
    }

    /** Every difference from the golden copy is named. */
    ghost predicate Accounted()
      requires Valid()
      reads this, area
    {
      forall e | e in Differences(area[..], golden) :: Named(e, queue, lost, flying)
    }

    ghost predicate Open() {
      forall i | 0 <= i < SCRUB_SIZE :: i in readable && i in writable
    }

    /** memory_scrub_record_seu */
    method RecordSeu()
      requires Valid()
      modifies `seuCounter, `seuTotal, `requests, `corrections, `escalating
      ensures Valid() && corrections == old(corrections) + 1
      ensures escalating == old(escalating) + (if AllowsSeuEscalation(state) then 1 else 0)
      ensures AllowsSeuEscalation(state) <==> state != Safe
      ensures requests == requestsBefore + escalating / 5 && requestsBefore == old(requestsBefore)
    {
      seuTotal := if seuTotal + 1 == 0x1_0000_0000 then 0 else seuTotal + 1;
      corrections := corrections + 1;
      if AllowsSeuEscalation(state) {
        seuCounter := seuCounter + 1;
        escalating := escalating + 1;
        if seuCounter >= SEU_THRESHOLD {
          requests := requests + 1;
          seuCounter := 0;
        }
      }
    }

    /** memory_scrub_init, apart from the protection of the region */
    method Init()
      requires area.Length == SCRUB_SIZE == |golden| && AreBytes(golden) && |queue| <= FAULT_QUEUE_LENGTH
      modifies this, area
      ensures Valid() && Accounted() && area[..] == golden
      ensures corrections == 0 && lost == iset{} && flying == old(flying) && queue == old(queue)
      ensures state == old(state) && requests == old(requests) && logged == old(logged)
    {
      seuCounter, seuTotal := 0, 0;
      corrections, escalating, requestsBefore, lost := 0, 0, requests, iset{};
      for i := 0 to SCRUB_SIZE
        invariant area[..i] == golden[..i]
        invariant |queue| <= FAULT_QUEUE_LENGTH && seuCounter == seuTotal == 0 && corrections == escalating == 0
        invariant requestsBefore == requests == old(requests) && queue == old(queue) && state == old(state)
        invariant logged == old(logged) && flying == old(flying) && lost == iset{}
      {
        area[i] := golden[i];
      }
      assert area[..] == golden;
    }

    /** inject_random_fault up to its output: the bit named by the tick count is flipped. */
    method StartInjection(tick: int) returns (event: FaultEvent)
      requires Valid() && 0 <= tick < 0x1_0000_0000_0000_0000
      modifies `flying, area
      ensures Valid() && (old(Accounted()) ==> Accounted()) && event == FaultAt(tick)
      ensures event.index == tick % 512 && event.bit == tick / 256 % 8
      ensures forall b :: (b in area[event.index]) != (b in old(area[event.index])) <==> b == event.bit
      ensures area[..] == old(area[..])[event.index := Flip(old(area[event.index]), event.bit)]
      ensures flying == old(flying) + multiset{event}
    {
      var r := tick % 0x1_0000_0000;
      var index := r % SCRUB_SIZE;
      var bit := (r / 0x100) % 8;
      FaultNumbers(tick);
      hide Differences;
      FlipDifferences(area[..], golden, index, bit);
      ghost var was := area[..];
      area[index] := Flip(area[index], bit);
      assert area[..] == was[index := Flip(was[index], bit)];
      event := FaultEvent(index, bit);
      flying := flying + multiset{event};
    }

    /** The rest of inject_random_fault, when its task runs again: the post, which does not wait. */
    method FinishInjection(event: FaultEvent)
      requires Valid() && event in flying
      modifies `queue, `lost, `flying
      ensures Valid() && (old(Accounted()) ==> Accounted()) && flying == old(flying) - multiset{event}
      ensures queue == (if |old(queue)| < 5 then old(queue) + [event] else old(queue))
      ensures lost == (if |old(queue)| < 5 then old(lost) else old(lost) + iset{event})
    {
      flying := flying - multiset{event};
      if |queue| < FAULT_QUEUE_LENGTH {
        queue := queue + [event];
      } else {
        lost := lost + iset{event};
      }
    }

    /** inject_random_fault when nothing comes between. */
    method InjectRandomFault(tick: int)
      requires Valid() && 0 <= tick < 0x1_0000_0000_0000_0000
      modifies `queue, `lost, `flying, area
      ensures Valid() && (old(Accounted()) ==> Accounted()) && flying == old(flying)
      ensures var e := FaultAt(tick);
              && area[..] == old(area[..])[e.index := Flip(old(area[e.index]), e.bit)]
              && queue == (if |old(queue)| < 5 then old(queue) + [e] else old(queue))
              && lost == (if |old(queue)| < 5 then old(lost) else old(lost) + iset{e})
    {
      var event := StartInjection(tick);
      FinishInjection(event);
    }

    /** memory_scrub_fix_event */
    method FixEvent(event: FaultEvent) returns (fixed: bool)
      requires Valid()
      modifies `seuCounter, `seuTotal, `requests, `corrections, `escalating, `logged, area
      ensures Valid() && logged == old(logged) + (if fixed then [event] else [])
      ensures corrections == old(corrections) + (if fixed then 1 else 0)
      ensures escalating == old(escalating) + (if fixed && AllowsSeuEscalation(state) then 1 else 0)
      ensures !fixed ==> area[..] == old(area[..])
      ensures fixed ==> 0 <= event.index < SCRUB_SIZE && 0 <= event.bit < 8 && event.index in writable
      ensures fixed && event.index in readable ==>
                && area[..] == old(area[..])[event.index := Flip(old(area[event.index]), event.bit)]
                && Differences(area[..], golden) == Differences(old(area[..]), golden) - iset{event}
                && event in Differences(old(area[..]), golden)
      ensures 0 <= event.index < SCRUB_SIZE && 0 <= event.bit < 8 ==>
                area[..] == old(area[..])[event.index := Fixed(old(area[event.index]), golden[event.index], event.bit,
                                                               event.index in readable, event.index in writable)]
      ensures 0 <= event.index < SCRUB_SIZE && 0 <= event.bit < 8 && event.index in readable && event.index in writable ==>
                event !in Differences(area[..], golden)
      ensures Open() ==> Differences(area[..], golden) == Differences(old(area[..]), golden) - iset{event}
    {
      if event.index < 0 || event.index >= SCRUB_SIZE || event.bit < 0 || event.bit >= 8 {
        return false;
      }
      var i, bit := event.index, event.bit;
      var actual: Byte := if i in readable then area[i] else {};
      var expected := golden[i];
      if (bit in actual) == (bit in expected) {
        return false;
      }
      var corrected := Corrected(actual, expected, bit);
      if i !in writable {
        return false;
      }
      ghost var was := area[..];
      CorrectedDifferences(was, golden, i, bit);
      area[i] := corrected;
      assert area[..] == was[i := corrected];
      if i in readable {
        assert corrected == Flip(was[i], bit);
        assert event in Differences(was, golden);
      }
      logged := logged + [event];
      RecordSeu();
      fixed := true;
    }

    /** One thing that an injector does. */
    method InterruptOnce(step: Injection)
      requires Valid() && AreTicks([step])
      modifies `queue, `lost, `flying, area
      ensures Valid() && (old(Accounted()) ==> Accounted()) && old(queue) <= queue
      ensures forall e | Named(e, old(queue), old(lost), old(flying)) :: Named(e, queue, lost, flying)
      ensures forall e | e in Differences(area[..], golden) :: e in Differences(old(area[..]), golden) || Begins(step, e)
      ensures forall e | Begins(step, e) :: Named(e, queue, lost, flying)
      ensures forall e | e in lost || e in flying :: e in old(lost) || e in old(flying) || Begins(step, e)
    {
      match step {
        case Begun(tick) =>
          assert [step][0] == step;
          ghost var was := area[..];
          var event := StartInjection(tick);
          FlipDifferences(was, golden, event.index, event.bit);
        case Ended(event) =>
          if event in flying {
            FinishInjection(event);
          }
      }
    }

    /** What the injectors do in one iteration of a loop of the scrubber. */
    method Interrupt(steps: seq<Injection>)
      requires Valid() && AreTicks(steps)
      modifies `queue, `lost, `flying, area
      ensures Valid() && (old(Accounted()) ==> Accounted())
      ensures steps == [] ==>
                area[..] == old(area[..]) && queue == old(queue) && lost == old(lost) && flying == old(flying)
      ensures forall e | e in Differences(area[..], golden) ::
                e in Differences(old(area[..]), golden) || Injected(e, [steps])
      ensures forall e | e in Differences(area[..], golden) ::
                || (e in Differences(old(area[..]), golden) && !Named(e, old(queue), old(lost), old(flying)))
                || Named(e, queue, lost, flying)
      ensures forall e | e in lost || e in flying :: e in old(lost) || e in old(flying) || Injected(e, [steps])
      ensures old(queue) <= queue
    {
      hide Differences, Injected, Named, Begins;
      for j := 0 to |steps|
        invariant Valid() && (old(Accounted()) ==> Accounted()) && old(queue) <= queue
        invariant j == 0 ==>
                    area[..] == old(area[..]) && queue == old(queue) && lost == old(lost) && flying == old(flying)
        invariant forall e | Named(e, old(queue), old(lost), old(flying)) :: Named(e, queue, lost, flying)
        invariant forall e | e in Differences(area[..], golden) ::
                    e in Differences(old(area[..]), golden) || Injected(e, [steps])
        invariant forall e | e in Differences(area[..], golden) ::
                    || (e in Differences(old(area[..]), golden) && !Named(e, old(queue), old(lost), old(flying)))
                    || Named(e, queue, lost, flying)
        invariant forall e | e in lost || e in flying :: e in old(lost) || e in old(flying) || Injected(e, [steps])
      {
        InterruptOnce(steps[j]);
        BegunHere(steps, j);
      }
    }

    /** The drain loop of vTaskMemoryScrub: every queued event is dealt with, oldest first, and
        those that arrive in the meantime.  Undisturbed, it corrects exactly the differences that
        queued events name. */
    method Drain(injected: Interruptions) returns (hadEvent: bool)
      requires Valid() && Accounted() && Open() && AllTicks(injected)
      modifies `queue, `lost, `flying, `seuCounter, `seuTotal, `requests, `corrections, `escalating, `logged, area
      ensures Valid() && Accounted() && queue == [] && hadEvent == (old(queue) != [])
      ensures forall e | e in Differences(area[..], golden) :: e in lost || e in flying
      ensures lost == iset{} && flying == multiset{} ==> area[..] == golden
      ensures injected == [] ==>
                && lost == old(lost) && flying == old(flying)
                && Differences(area[..], golden) == Differences(old(area[..]), golden) - NamedBy(old(queue))
                && logged == old(logged) + Corrections(old(queue), Differences(old(area[..]), golden))
      ensures old(logged) <= logged && |logged| - |old(logged)| == corrections - old(corrections)
    {
      hide Differences, Corrections, Fixed;
      NoCorrections(old(queue), Differences(old(area[..]), golden));
      hadEvent := false;
      var i := 0;
      while queue != []
        invariant Valid() && Accounted() && 0 <= i && (hadEvent <==> i > 0)
        invariant (i == 0 ==> queue == old(queue)) && (i > 0 ==> old(queue) != [])
        invariant injected == [] ==>
                    && lost == old(lost) && flying == old(flying) && i <= |old(queue)| && queue == old(queue)[i..]
                    && Differences(area[..], golden) == Differences(old(area[..]), golden) - NamedBy(old(queue)[..i])
                    && logged == old(logged) + Corrections(old(queue)[..i], Differences(old(area[..]), golden))
        invariant old(logged) <= logged && |logged| - |old(logged)| == corrections - old(corrections)
        decreases if i < |injected| then |injected| - i else 0, |queue|
      {
        var event := queue[0];
        ghost var was, before := area[..], queue;
        if injected == [] { CorrectionsSnoc(old(queue), i, Differences(old(area[..]), golden)); }
        var fixed := FixEvent(event);
        queue := queue[1..];
        hadEvent := true;
        Remaining(was, area[..], golden, event, before, lost, flying);
        if i < |injected| {
          Interrupt(injected[i]);
        }
        i := i + 1;
      }
      NoDifference(area[..], golden);
    }

    /** One iteration of memory_scrub. */
    method ScrubByte(i: nat)
      requires Valid() && Open() && i < SCRUB_SIZE
      modifies `seuCounter, `seuTotal, `requests, `corrections, `escalating, area
      ensures Valid() && area[..] == old(area[..])[i := golden[i]]
      ensures corrections == old(corrections) + (if old(area[i]) != golden[i] then 1 else 0)
      ensures escalating - old(escalating) == (if AllowsSeuEscalation(state) then corrections - old(corrections) else 0)
    {
      ghost var was := area[..];
      var current: Byte := if i in readable then area[i] else {};
      if current != golden[i] {
        if i in writable {
          area[i] := golden[i];
          RecordSeu();
        }
      }
      assert area[..] == was[i := golden[i]];
    }

    /** memory_scrub; before it looks at byte i, the injectors do injected[i].  What differs
        afterwards has been flipped while it ran. */
    method FullScrub(injected: Interruptions)
      requires Valid() && Open() && AllTicks(injected) && |injected| == SCRUB_SIZE
      modifies `queue, `lost, `flying, `seuCounter, `seuTotal, `requests, `corrections, `escalating, area
      ensures Valid() && Accounted() && old(queue) <= queue
      ensures forall e | e in Differences(area[..], golden) :: Injected(e, injected)
      ensures forall e | e in lost || e in flying :: e in old(flying) || Injected(e, injected)
      ensures Quiet(injected) ==>
                && area[..] == golden && lost == iset{} && flying == old(flying) && queue == old(queue)
                && corrections == old(corrections) + DifferingBytes(old(area[..]), golden, SCRUB_SIZE)
      ensures escalating - old(escalating) == (if AllowsSeuEscalation(state) then corrections - old(corrections) else 0)
    {
      hide Injected, AllowsSeuEscalation, Differences;
      ghost var was := area[..];
      IndexedDifferences(was, golden);
      lost := iset{};
      for i := 0 to SCRUB_SIZE
        invariant Valid() && old(queue) <= queue
        invariant forall e | e in Differences(area[..], golden) ::
                    e.index >= i || (Named(e, queue, lost, flying) && Injected(e, injected))
        invariant forall e | e in lost || e in flying :: e in old(flying) || Injected(e, injected)
        invariant Quiet(injected) ==>
                    && lost == iset{} && flying == old(flying) && queue == old(queue)
                    && (forall j | 0 <= j < SCRUB_SIZE :: area[j] == if j < i then golden[j] else was[j])
                    && corrections == old(corrections) + DifferingBytes(was, golden, i)
        invariant escalating - old(escalating) == (if AllowsSeuEscalation(state) then corrections - old(corrections) else 0)
      {
        Interrupt(injected[i]);
        InjectedOnce(injected, i);
        ScrubbedDifferences(area[..], golden, i);
        ScrubByte(i);
      }
      IndexedDifferences(area[..], golden);
    }

    /** One round of vTaskMemoryScrub. */
    method Round(arriving: Interruptions, injected: Interruptions)
      requires Valid() && Accounted() && Open()
      requires AllTicks(arriving) && AllTicks(injected) && |injected| == SCRUB_SIZE
      modifies `queue, `lost, `flying, `seuCounter, `seuTotal, `requests, `corrections, `escalating, `logged, area
      ensures Valid() && Accounted()
      ensures old(queue) == [] && AllowsBackgroundScrub(state) ==>
                && (forall e | e in Differences(area[..], golden) :: Injected(e, injected))
                && (Quiet(injected) ==> area[..] == golden)
      ensures old(queue) != [] || !AllowsBackgroundScrub(state) ==>
                queue == [] && forall e | e in Differences(area[..], golden) :: e in lost || e in flying
    {
      var hadEvent := Drain(arriving);
      if !hadEvent && AllowsBackgroundScrub(state) {
        FullScrub(injected);
      }
    }
  }

  /** The scrubber wakes between the flip of a fault and its post: it deals with an older event and
      finds the queue empty and nothing refused, and the area is not the golden copy. */
  method DrainedBeforeThePost(s: Scrubber, older: int, newer: int)
    requires s.Valid() && s.Open() && s.area[..] == s.golden && s.queue == [] && s.lost == iset{} && s.flying == multiset{}
    requires 0 <= older < 0x1_0000_0000_0000_0000 && 0 <= newer < 0x1_0000_0000_0000_0000
    requires FaultAt(older) != FaultAt(newer)
    modifies s, s.area
    ensures s.Valid() && s.Accounted() && s.queue == [] && s.lost == iset{} && s.area[..] != s.golden
    ensures s.flying == multiset{FaultAt(newer)} && FaultAt(newer) in Differences(s.area[..], s.golden)
  {
    NoDifference(s.area[..], s.golden);
    s.InjectRandomFault(older);
    ghost var was := s.area[..];
    var event := s.StartInjection(newer);
    FlipAdds(was, s.golden, event);
    var hadEvent := s.Drain([]);
    NoDifference(s.area[..], s.golden);
    assert event in Differences(s.area[..], s.golden);
  }

  lemma FlipAdds(was: seq<Byte>, golden: seq<Byte>, e: FaultEvent)
    requires |was| == |golden| && 0 <= e.index < |was| && e !in Differences(was, golden)
    ensures e in Differences(was[e.index := Flip(was[e.index], e.bit)], golden)
  {}

  lemma InjectedOnce(injected: Interruptions, i: nat)
    requires i < |injected|
    ensures forall e | Injected(e, [injected[i]]) :: Injected(e, injected)
  {
    forall e | Injected(e, [injected[i]]) ensures Injected(e, injected) {
      var k, j :| 0 <= k < |[injected[i]]| && 0 <= j < |[injected[i]][k]| && [injected[i]][k][j].Begun?
                   && FaultAt([injected[i]][k][j].tick) == e;
      assert FaultAt(injected[i][j].tick) == e;
    }
  }

  /** After a queued event has been dealt with, what is left is named by the rest of the queue. */
  lemma Remaining(was: seq<Byte>, now: seq<Byte>, golden: seq<Byte>, event: FaultEvent, queue: seq<FaultEvent>,
                  lost: iset<FaultEvent>, flying: multiset<FaultEvent>)
    requires |was| == |now| == |golden| == SCRUB_SIZE && queue != [] && queue[0] == event
    requires forall e | e in Differences(was, golden) :: Named(e, queue, lost, flying)
    requires Differences(now, golden) == Differences(was, golden) - iset{event}
             || (now == was && event !in Differences(now, golden))
             || (now == was && !(0 <= event.index < SCRUB_SIZE && 0 <= event.bit < 8))
    requires AreBytes(was) && AreBytes(golden)
    ensures forall e | e in Differences(now, golden) :: Named(e, queue[1..], lost, flying)
  {}
}
