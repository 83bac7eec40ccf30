/** What a queue is to its users: a double-ended queue of items with a capacity. */
module BoundedDeque {
  import opened Options
  import opened Sequences

  datatype Position = ToBack | ToFront | Overwrite

  datatype Op<T> = Send(item: T, at: Position) | Receive | Peek | Reset

  /** The items after an operation, and whether a send was taken or the item received. */
  datatype Outcome<T> = Outcome(items: seq<T>, accepted: bool, received: Option<T>)

  function Apply<T>(items: seq<T>, capacity: nat, op: Op<T>): Outcome<T> {
    match op
    case Send(x, Overwrite) => Outcome(if items == [] then [x] else [x] + items[1..], true, None)
    case Send(x, at) =>
      if |items| >= capacity then Outcome(items, false, None)
      else Outcome(if at == ToBack then items + [x] else [x] + items, true, None)
    case Receive => if items == [] then Outcome(items, false, None) else Outcome(items[1..], true, Some(items[0]))
    case Peek => if items == [] then Outcome(items, false, None) else Outcome(items, true, Some(items[0]))
    case Reset => Outcome([], true, None)
  }

  function Run<T>(items: seq<T>, capacity: nat, ops: seq<Op<T>>): seq<T>
    decreases |ops|
  {
    if ops == [] then items else Run(Apply(items, capacity, ops[0]).items, capacity, ops[1..])
  }

  /** The items taken by the queue, in the order they were sent. */
  function Accepted<T>(items: seq<T>, capacity: nat, ops: seq<Op<T>>): seq<T>
    decreases |ops|
  {
    if ops == [] then [] else
    (if ops[0].Send? && Apply(items, capacity, ops[0]).accepted then [ops[0].item] else [])
    + Accepted(Apply(items, capacity, ops[0]).items, capacity, ops[1..])
  }

  /** The items received, in order. */
  function Received<T>(items: seq<T>, capacity: nat, ops: seq<Op<T>>): seq<T>
    decreases |ops|
  {
    if ops == [] then [] else
    (if ops[0].Receive? && Apply(items, capacity, ops[0]).accepted
     then [Apply(items, capacity, ops[0]).received.value] else [])
    + Received(Apply(items, capacity, ops[0]).items, capacity, ops[1..])
  }

  ghost predicate FifoOnly<T>(ops: seq<Op<T>>) {
    forall i | 0 <= i < |ops| :: ops[i].Receive? || ops[i].Peek? || (ops[i].Send? && ops[i].at == ToBack)
  }

  /** Over any run of sends to the back, receives and peeks, what has been received followed by what
      is still queued is what was there at the start followed by what was accepted. */
  lemma {:induction false} FirstInFirstOut<T>(items: seq<T>, capacity: nat, ops: seq<Op<T>>)
    requires FifoOnly(ops)
    ensures Received(items, capacity, ops) + Run(items, capacity, ops) == items + Accepted(items, capacity, ops)
    decreases |ops|
  {
    if ops != [] {
      assert ops[0].Receive? || ops[0].Peek? || (ops[0].Send? && ops[0].at == ToBack);
      var next, rest := Apply(items, capacity, ops[0]).items, ops[1..];
      FirstInFirstOut(next, capacity, rest);
      var got := if ops[0].Receive? && items != [] then [items[0]] else [];
      var sent := if ops[0].Send? && |items| < capacity then [ops[0].item] else [];
      assert got + next == items + sent;
      StepInOrder(items, next, got, sent, Received(next, capacity, rest), Run(next, capacity, rest),
        Accepted(next, capacity, rest));
    }
  }

  /** A send that is not an overwrite is taken exactly if there is room.  What was sent to the front,
      or overwrote, is received next; what overwrote the one item of a queue of length one is all there
      is; a peek shows what is received next and takes nothing; after a reset nothing is received. */
  lemma FrontAndPeek<T>(items: seq<T>, capacity: nat, x: T)
    ensures var back, front := Apply(items, capacity, Send(x, ToBack)), Apply(items, capacity, Send(x, ToFront));
            && (back.accepted <==> |items| < capacity) && (front.accepted <==> |items| < capacity)
            && (|items| >= capacity ==> back.items == items && front.items == items)
            && (|items| < capacity ==> Apply(front.items, capacity, Receive) == Outcome(items, true, Some(x)))
    ensures var over := Apply(items, capacity, Send(x, Overwrite));
            && over.accepted && Apply(over.items, capacity, Receive).received == Some(x)
            && (|items| <= 1 ==> over.items == [x])
    ensures var shown, next := Apply(items, capacity, Peek), Apply(items, capacity, Receive);
            shown.items == items && shown.received == next.received && (shown.received == None <==> items == [])
    ensures Apply(Apply(items, capacity, Reset).items, capacity, Receive).received == None
  {
    assert ([x] + items)[1..] == items;
  }

  /** The capacity is never exceeded. */
  lemma {:induction false} NeverOverfull<T>(items: seq<T>, capacity: nat, ops: seq<Op<T>>)
    requires |items| <= capacity && capacity >= 1
    ensures |Run(items, capacity, ops)| <= capacity
    decreases |ops|
  {
    if ops != [] {
      NeverOverfull(Apply(items, capacity, ops[0]).items, capacity, ops[1..]);
    }
  }
}
