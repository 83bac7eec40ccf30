/** The storage area of a queue (FreeRTOS/Source/queue.c): items are copied by value into a ring of
    slots.  Positions are byte offsets from pcHead. */
module ByteQueue {
  import opened Options
  import opened BoundedDeque

  type Bytes = seq<bv8>

  // ---------- Slots and offsets ----------

  /** The offset of slot k. */
  function Offset(size: nat, k: nat): nat
    decreases k
  {
    if k == 0 then 0 else Offset(size, k - 1) + size
  }

  lemma {:induction false} SlotsApart(size: nat, j: nat, k: nat)
    requires j < k
    ensures Offset(size, j) + size <= Offset(size, k)
    decreases k
  {
    if j < k - 1 { SlotsApart(size, j, k - 1); }
  }

  /** Slot numbers go round. */
  function Round(length: nat, k: nat): (slot: nat)
    requires length > 0 && k <= 2 * length
    ensures slot < length
  {
    if k < length then k else if k < 2 * length then k - length else 0
  }

  /** The slot of the i-th item when the last one read was in slot r. */
  function SlotOf(length: nat, r: nat, i: nat): (slot: nat)
    requires length > 0 && r < length && i <= length
    ensures slot < length
  {
    Round(length, r + 1 + i)
  }

  function At(store: Bytes, size: nat, slot: nat): Bytes
    requires Offset(size, slot) + size <= |store|
  {
    store[Offset(size, slot)..Offset(size, slot) + size]
  }

  ghost predicate Stored(store: Bytes, size: nat, length: nat, r: nat, items: seq<Bytes>)
    requires length > 0 && r < length
  {
    && |items| <= length && |store| == Offset(size, length)
    && forall i | 0 <= i < |items| ::
         && |items[i]| == size
         && Offset(size, SlotOf(length, r, i)) + size <= |store|
         && At(store, size, SlotOf(length, r, i)) == items[i]
  }

  /** Writing one slot leaves the others alone. */
  lemma OtherSlots(was: Bytes, now: Bytes, size: nat, length: nat, slot: nat, other: nat)
    requires slot < length && other < length && other != slot
    requires |was| == |now| == Offset(size, length)
    requires forall b | 0 <= b < |was| && !(Offset(size, slot) <= b < Offset(size, slot) + size) :: now[b] == was[b]
    ensures Offset(size, other) + size <= |was|
    ensures At(now, size, other) == At(was, size, other)
  {
    SlotsApart(size, other, length);
    if other < slot { SlotsApart(size, other, slot); } else { SlotsApart(size, slot, other); }
  }

  lemma AddBack(was: Bytes, now: Bytes, size: nat, length: nat, r: nat, items: seq<Bytes>, x: Bytes)
    requires length > 0 && r < length && Stored(was, size, length, r, items) && |items| < length && |x| == size
    requires var slot := SlotOf(length, r, |items|);
             && |now| == |was| && Offset(size, slot) + size <= |was| && At(now, size, slot) == x
             && forall b | 0 <= b < |was| && !(Offset(size, slot) <= b < Offset(size, slot) + size) :: now[b] == was[b]
    ensures Stored(now, size, length, r, items + [x])
  {
    var slot := SlotOf(length, r, |items|);
    forall i | 0 <= i < |items|
      ensures Offset(size, SlotOf(length, r, i)) + size <= |now| && At(now, size, SlotOf(length, r, i)) == items[i]
    {
      OtherSlots(was, now, size, length, slot, SlotOf(length, r, i));
    }
  }

  /** The slot before slot r. */
  function Before(length: nat, r: nat): (slot: nat)
    requires r < length
    ensures slot < length
  {
    if r == 0 then length - 1 else r - 1
  }

  lemma ShiftedSlots(length: nat, r: nat, i: nat)
    requires r < length && i < length
    ensures SlotOf(length, Before(length, r), 0) == r
    ensures SlotOf(length, Before(length, r), i + 1) == SlotOf(length, r, i)
    ensures i < length - 1 ==> SlotOf(length, r, i) != r
    ensures SlotOf(length, SlotOf(length, r, 0), i) == SlotOf(length, r, i + 1)
  {}

  /** After a write to slot r, which becomes the first, each item is in its slot. */
  lemma AddFrontAt(was: Bytes, now: Bytes, size: nat, length: nat, r: nat, items: seq<Bytes>, x: Bytes, i: nat)
    requires length > 0 && r < length && Stored(was, size, length, r, items) && |items| < length && |x| == size
    requires |now| == |was| && Offset(size, r) + size <= |was| && At(now, size, r) == x && i <= |items|
    requires forall b | 0 <= b < |was| && !(Offset(size, r) <= b < Offset(size, r) + size) :: now[b] == was[b]
    ensures |([x] + items)[i]| == size
    ensures Offset(size, SlotOf(length, Before(length, r), i)) + size <= |now|
    ensures At(now, size, SlotOf(length, Before(length, r), i)) == ([x] + items)[i]
  {
    hide SlotOf, Before, At, Offset;
    if i == 0 {
      ShiftedSlots(length, r, 0);
    } else {
      ShiftedSlots(length, r, i - 1);
      assert ([x] + items)[i] == items[i - 1];
      OtherSlots(was, now, size, length, r, SlotOf(length, r, i - 1));
    }
  }

  lemma AddFront(was: Bytes, now: Bytes, size: nat, length: nat, r: nat, items: seq<Bytes>, x: Bytes)
    requires length > 0 && r < length && Stored(was, size, length, r, items) && |items| < length && |x| == size
    requires |now| == |was| && Offset(size, r) + size <= |was| && At(now, size, r) == x
    requires forall b | 0 <= b < |was| && !(Offset(size, r) <= b < Offset(size, r) + size) :: now[b] == was[b]
    ensures Stored(now, size, length, Before(length, r), [x] + items)
  {
    hide SlotOf, Before, At, Offset;
    forall i | 0 <= i < |[x] + items|
      ensures |([x] + items)[i]| == size
      ensures Offset(size, SlotOf(length, Before(length, r), i)) + size <= |now|
      ensures At(now, size, SlotOf(length, Before(length, r), i)) == ([x] + items)[i]
    {
      AddFrontAt(was, now, size, length, r, items, x, i);
    }
  }

  lemma TakeFront(store: Bytes, size: nat, length: nat, r: nat, items: seq<Bytes>)
    requires length > 0 && r < length && Stored(store, size, length, r, items) && items != []
    ensures Stored(store, size, length, SlotOf(length, r, 0), items[1..])
  {}

  // ---------- The queue ----------

  /** The items after prvCopyDataToQueue: without storage there is nothing to overwrite. */
  function Copied(items: seq<Bytes>, length: nat, size: nat, item: Bytes, at: Position): seq<Bytes> {
    if size == 0 && at == Overwrite then items + [item]
    else if at == ToFront then [item] + items
    else if at == ToBack then items + [item]
    else if items == [] then [item] else [item] + items[1..]
  }

  class Queue {
    const length: nat
    const itemSize: nat
    const storage: array<bv8>
    var writeTo: int
    var readFrom: int
    var messagesWaiting: nat

    ghost var items: seq<Bytes>
    ghost var r: nat             // the slot last read
    ghost var w: nat             // the slot to write

    ghost predicate Valid()
      reads this, storage
    {
      && length >= 1 && r < length && w < length
      && storage.Length == Offset(itemSize, length)
      && readFrom == Offset(itemSize, r) && writeTo == Offset(itemSize, w)
      && messagesWaiting == |items|
      && (itemSize > 0 ==> |items| <= length && w == SlotOf(length, r, |items|)
                           && Stored(storage[..], itemSize, length, r, items))
      && (itemSize == 0 ==> forall i | 0 <= i < |items| :: items[i] == [])
    }

    /** xQueueGenericReset of a new queue. */
    constructor (length: nat, itemSize: nat)
      requires length >= 1
      ensures Valid() && fresh(storage) && items == [] && this.length == length && this.itemSize == itemSize
    {
      this.length, this.itemSize := length, itemSize;
      storage := new bv8[Offset(itemSize, length)];
      messagesWaiting, writeTo := 0, 0;
      readFrom := Offset(itemSize, length - 1);
      items, r, w := [], length - 1, 0;
    }

    method Reset()
      requires Valid()
      modifies this
      ensures Valid() && items == Apply(old(items), length, BoundedDeque.Reset).items
    {
      messagesWaiting := 0;
      writeTo := 0;
      readFrom := Offset(itemSize, length - 1);
      items, r, w := [], length - 1, 0;
    }

    /** memcpy into the storage area. */
    method CopyIn(ghost slot: nat, offset: int, item: Bytes)
      requires slot < length && storage.Length == Offset(itemSize, length)
      requires offset == Offset(itemSize, slot) && |item| == itemSize
      modifies storage
      ensures offset + itemSize <= storage.Length && At(storage[..], itemSize, slot) == item
      ensures forall b | 0 <= b < storage.Length && !(offset <= b < offset + itemSize) :: storage[b] == old(storage[b])
    {
      SlotsApart(itemSize, slot, length);
      forall i | 0 <= i < itemSize {
        storage[offset + i] := item[i];
      }
    }

    /** The branch of prvCopyDataToQueue that sends to the back. */
    method CopyToBack(item: Bytes)
      requires Valid() && |item| == itemSize && itemSize > 0 && messagesWaiting < length
      modifies `writeTo, `items, `w, `messagesWaiting, storage
      ensures Valid() && items == old(items) + [item]
    {
      hide Stored, At, Offset;
      ghost var was := storage[..];
      CopyIn(w, writeTo, item);
      AddBack(was, storage[..], itemSize, length, r, items, item);
      NextOffset(itemSize, w, length);
      FirstOffset(itemSize);
      writeTo := writeTo + itemSize;
      if writeTo >= storage.Length {
        writeTo := 0;
      }
      w := if w + 1 == length then 0 else w + 1;
      items := items + [item];
      messagesWaiting := messagesWaiting + 1;
    }

    /** The branch that sends to the front, or overwrites the one item of a queue of length 1. */
    method CopyToFront(item: Bytes, overwrite: bool)
      requires Valid() && |item| == itemSize && itemSize > 0
      requires if overwrite then length == 1 else messagesWaiting < length
      modifies `readFrom, `items, `r, `messagesWaiting, storage
      ensures Valid()
      ensures items == [item] + if overwrite && old(items) != [] then old(items)[1..] else old(items)
    {
      hide Stored, At, Offset, SlotOf;
      var waiting: int := messagesWaiting;
      ghost var was := storage[..];
      ghost var others := if overwrite && items != [] then items[1..] else items;
      if overwrite { TakeFrontIfAny(was, itemSize, length, r, items); }
      WithinCapacity(was, itemSize, length, r, items);
      CopyIn(r, readFrom, item);
      AddFront(was, storage[..], itemSize, length, r, others, item);
      NextOffset(itemSize, Before(length, r), length);
      FirstOffset(itemSize);
      ShiftedSlots(length, r, |others|);
      readFrom := readFrom - itemSize;
      if readFrom < 0 {
        readFrom := storage.Length - itemSize;
      }
      r := Before(length, r);
      items := [item] + others;
      if overwrite {
        if waiting > 0 {
          waiting := waiting - 1;
        }
      }
      messagesWaiting := waiting + 1;
    }

    /** prvCopyDataToQueue, for a queue that is not a mutex. */
    method CopyDataToQueue(item: Bytes, at: Position)
      requires Valid() && |item| == itemSize
      requires at == Overwrite ==> length == 1
      requires at != Overwrite ==> messagesWaiting < length
      modifies this, storage
      ensures Valid() && items == Copied(old(items), length, itemSize, item, at)
    {
      hide Stored, At, Offset, SlotOf;
      if itemSize == 0 {
        items := Copied(items, length, itemSize, item, at);
        messagesWaiting := messagesWaiting + 1;
      } else if at == ToBack {
        CopyToBack(item);
      } else {
        CopyToFront(item, at == Overwrite);
      }
    }

    /** prvCopyDataFromQueue */
    method CopyDataFromQueue() returns (buffer: Bytes)
      requires Valid() && items != []
      modifies `readFrom, `r
      ensures buffer == items[0]
      ensures itemSize > 0 ==> r == SlotOf(length, old(r), 0) && readFrom == Offset(itemSize, r)
      ensures itemSize == 0 ==> r == old(r) && readFrom == old(readFrom)
    {
      buffer := [];
      if itemSize != 0 {
        NextOffset(itemSize, r, length);
        readFrom := readFrom + itemSize;
        if readFrom >= storage.Length {
          readFrom := 0;
        }
        r := SlotOf(length, r, 0);
        SlotsApart(itemSize, r, length);
        buffer := storage[readFrom..readFrom + itemSize];
      }
    }

    /** The critical section of xQueueGenericSend with no block time. */
    method Send(item: Bytes, at: Position) returns (ok: bool)
      requires Valid() && |item| == itemSize
      requires at == Overwrite ==> length == 1
      modifies this, storage
      ensures Valid()
      ensures items == if ok then Copied(old(items), length, itemSize, item, at) else old(items)
      ensures ok == Apply(old(items), length, BoundedDeque.Send(item, at)).accepted
    {
      if messagesWaiting < length || at == Overwrite {
        CopyDataToQueue(item, at);
        ok := true;
      } else {
        ok := false;
      }
    }

    /** The critical section of xQueueReceive with no block time. */
    method Receive() returns (item: Option<Bytes>)
      requires Valid()
      modifies this
      ensures Valid() && items == Apply(old(items), length, BoundedDeque.Receive).items
      ensures item == Apply(old(items), length, BoundedDeque.Receive).received
    {
      var waiting := messagesWaiting;
      if waiting > 0 {
        if itemSize > 0 { TakeFront(storage[..], itemSize, length, r, items); }
        var buffer := CopyDataFromQueue();
        item := Some(buffer);
        items := items[1..];
        messagesWaiting := waiting - 1;
      } else {
        item := None;
      }
    }

    /** The critical section of xQueuePeek with no block time. */
    method Peek() returns (item: Option<Bytes>)
      requires Valid()
      modifies `readFrom, `r
      ensures Valid() && readFrom == old(readFrom)
      ensures items == Apply(old(items), length, BoundedDeque.Peek).items
      ensures item == Apply(old(items), length, BoundedDeque.Peek).received
    {
      if messagesWaiting > 0 {
        var originalReadPosition := readFrom;
        ghost var slot := r;
        var buffer := CopyDataFromQueue();
        item := Some(buffer);
        readFrom := originalReadPosition;
        r := slot;
      } else {
        item := None;
      }
    }
  }

  lemma NextOffset(size: nat, slot: nat, length: nat)
    requires slot < length && size > 0
    ensures Offset(size, slot) + size == Offset(size, slot + 1) <= Offset(size, length)
    ensures Offset(size, slot + 1) == Offset(size, length) <==> slot + 1 == length
  {
    if slot + 1 < length { SlotsApart(size, slot + 1, length); }
  }

  lemma FirstOffset(size: nat)
    ensures Offset(size, 0) == 0 && Offset(size, 1) == size
  {}

  lemma WithinCapacity(store: Bytes, size: nat, length: nat, r: nat, items: seq<Bytes>)
    requires length > 0 && r < length && Stored(store, size, length, r, items)
    ensures |items| <= length && |store| == Offset(size, length)
  {}

  lemma TakeFrontIfAny(store: Bytes, size: nat, length: nat, r: nat, items: seq<Bytes>)
    requires length == 1 && r < length && Stored(store, size, length, r, items)
    ensures Stored(store, size, length, r, if items == [] then [] else items[1..])
  {}

  /** A send does what the deque says, except an overwrite of a full queue that has no storage (a
      semaphore): the kernel counts one item more, past the length. */
  lemma SendRefinesDeque(items: seq<Bytes>, length: nat, size: nat, item: Bytes, at: Position)
    requires |items| <= length && (at == Overwrite ==> length == 1)
    requires Apply(items, length, BoundedDeque.Send(item, at)).accepted
    ensures Copied(items, length, size, item, at) == Apply(items, length, BoundedDeque.Send(item, at)).items
            <==> !(size == 0 && at == Overwrite && items != [])
    ensures |Copied(items, length, size, item, at)| > length <==> size == 0 && at == Overwrite && items != []
  {
    if size == 0 && at == Overwrite && items != [] {
      assert |Copied(items, length, size, item, at)| == 2;
    }
  }
}
