/** What a message buffer is to its users: a first-in-first-out queue of non-empty messages, each
    of which costs eight bytes more than its own. */
module MessageQueue {
  import opened Bits
  import opened Sequences

  type Message = seq<Byte>

  const LENGTH_BYTES: nat := 8

  function Frame(m: Message): (f: seq<Byte>)
    ensures |f| == LENGTH_BYTES + |m|
  {
    ToLittleEndian(|m|, LENGTH_BYTES) + m
  }

  function Frames(ms: seq<Message>): seq<Byte> {
    if ms == [] then [] else Frame(ms[0]) + Frames(ms[1..])
  }

  lemma {:induction false} FramesAppend(ms: seq<Message>, m: Message)
    ensures Frames(ms + [m]) == Frames(ms) + Frame(m)
  {
    if ms == [] {
      assert [m] == [] + [m] && [m][1..] == [];
    } else {
      assert (ms + [m])[1..] == ms[1..] + [m];
      FramesAppend(ms[1..], m);
    }
  }

  lemma SomeFrame(ms: seq<Message>)
    ensures ms == [] <==> Frames(ms) == []
  {}

  /** Where the first message lies among the stored bytes. */
  lemma FirstFrame(ms: seq<Message>)
    requires ms != []
    ensures LENGTH_BYTES + |ms[0]| <= |Frames(ms)|
    ensures Frames(ms)[..LENGTH_BYTES] == ToLittleEndian(|ms[0]|, LENGTH_BYTES)
    ensures Frames(ms)[LENGTH_BYTES..][..|ms[0]|] == ms[0]
    ensures Frames(ms)[LENGTH_BYTES..][|ms[0]|..] == Frames(ms[1..])
  {}

  /** Framed messages can be told apart again: the stored bytes determine the messages. */
  lemma {:induction false} FramesInjective(a: seq<Message>, b: seq<Message>)
    requires Frames(a) == Frames(b)
    requires (forall m | m in a :: |m| < Pow256(LENGTH_BYTES)) && forall m | m in b :: |m| < Pow256(LENGTH_BYTES)
    ensures a == b
    decreases |a|
  {
    hide Frames, Frame, ToLittleEndian, LittleEndian;
    SomeFrame(a);
    SomeFrame(b);
    if a != [] {
      FirstFrame(a);
      FirstFrame(b);
      assert a[0] in a && b[0] in b;
      LittleEndianRoundTrip(|a[0]|, LENGTH_BYTES);
      LittleEndianRoundTrip(|b[0]|, LENGTH_BYTES);
      FramesInjective(a[1..], b[1..]);
      assert a == [a[0]] + a[1..] && b == [b[0]] + b[1..];
    }
  }

  // ---------- The queue and its runs ----------

  datatype Op = Send(message: Message) | Receive(room: nat)

  predicate Fits(ms: seq<Message>, capacity: nat, m: Message) {
    m != [] && |Frames(ms)| + LENGTH_BYTES + |m| <= capacity
  }

  /** What messages take up: eight bytes each, and their own. */
  function Space(ms: seq<Message>): nat { if ms == [] then 0 else 8 + |ms[0]| + Space(ms[1..]) }

  /** A message fits exactly if it is not empty and, with eight bytes for its length, does not take the
      space of all beyond the capacity. */
  lemma {:induction false} FitsIffSpace(ms: seq<Message>, capacity: nat, m: Message)
    ensures |Frames(ms)| == Space(ms)
    ensures Fits(ms, capacity, m) <==> m != [] && Space(ms) + 8 + |m| <= capacity
  {
    if ms != [] { FitsIffSpace(ms[1..], capacity, m); }
  }

  predicate Deliverable(ms: seq<Message>, room: nat) { ms != [] && |ms[0]| <= room }

  function Apply(ms: seq<Message>, capacity: nat, op: Op): seq<Message> {
    match op
    case Send(m) => if Fits(ms, capacity, m) then ms + [m] else ms
    case Receive(room) => if Deliverable(ms, room) then ms[1..] else ms
  }

  function Run(ms: seq<Message>, capacity: nat, ops: seq<Op>): seq<Message>
    decreases |ops|
  {
    if ops == [] then ms else Run(Apply(ms, capacity, ops[0]), capacity, ops[1..])
  }

  function Accepted(ms: seq<Message>, capacity: nat, ops: seq<Op>): seq<Message>
    decreases |ops|
  {
    if ops == [] then [] else
    (if ops[0].Send? && Fits(ms, capacity, ops[0].message) then [ops[0].message] else [])
    + Accepted(Apply(ms, capacity, ops[0]), capacity, ops[1..])
  }

  function Delivered(ms: seq<Message>, capacity: nat, ops: seq<Op>): seq<Message>
    decreases |ops|
  {
    if ops == [] then [] else
    (if ops[0].Receive? && Deliverable(ms, ops[0].room) then [ms[0]] else [])
    + Delivered(Apply(ms, capacity, ops[0]), capacity, ops[1..])
  }

  lemma {:induction false} RunConcat(ms: seq<Message>, capacity: nat, first: seq<Op>, rest: seq<Op>)
    ensures Run(ms, capacity, first + rest) == Run(Run(ms, capacity, first), capacity, rest)
    decreases |first|
  {
    if first == [] {
      assert first + rest == rest;
    } else {
      assert (first + rest)[1..] == first[1..] + rest;
      RunConcat(Apply(ms, capacity, first[0]), capacity, first[1..], rest);
    }
  }

  /** Over any interleaving of sends and receives, the messages delivered followed by those still
      stored are those stored at the start followed by those accepted: whole and in order. */
  lemma {:induction false} WholeAndInOrder(ms: seq<Message>, capacity: nat, ops: seq<Op>)
    ensures Delivered(ms, capacity, ops) + Run(ms, capacity, ops) == ms + Accepted(ms, capacity, ops)
    decreases |ops|
  {
    if ops != [] {
      var next, rest := Apply(ms, capacity, ops[0]), ops[1..];
      WholeAndInOrder(next, capacity, rest);
      var got := if ops[0].Receive? && Deliverable(ms, ops[0].room) then [ms[0]] else [];
      var sent := if ops[0].Send? && Fits(ms, capacity, ops[0].message) then [ops[0].message] else [];
      assert got + next == ms + sent by { hide Frames, Frame; }
      StepInOrder(ms, next, got, sent, Delivered(next, capacity, rest), Run(next, capacity, rest),
        Accepted(next, capacity, rest));
    }
  }
}
