/** The circular doubly linked list of FreeRTOS/Source/list.c, item by item on the heap. */
module IntrusiveList {
  import opened Ticks
  import opened Rings
  import SortedInsertion

  class ListItem {
    var value: Tick
    var next: ListItem?
    var prev: ListItem?
    var container: List?
    const owner: int

    /** vListInitialiseItem: a new item is on no list. */
    constructor (owner: int, value: Tick)
      ensures this.owner == owner && this.value == value && container == null
    {
      this.owner, this.value := owner, value;
      next, prev, container := null, null, null;
    }
  }

  class List {
    const end: ListItem
    var index: ListItem
    var count: nat

    /** The abstract value. */
    ghost var ring: Ring<ListItem>

    ghost function Nodes(): seq<ListItem>
      reads this
    {
      Closed(ring.items, end)
    }

    ghost predicate Valid()
      reads this, end, ring.items
    {
      && ring.Valid() && NoDup(ring.items) && end !in ring.items
      && count == |ring.items|
      && index == Nodes()[ring.at]
      && end.value == MAX_DELAY && end.container == null
      && (forall x | x in ring.items :: x.container == this)
      && Linked(Nodes())
    }

    ghost function Values(): (vs: seq<int>)
      reads this, ring.items
      ensures |vs| == |ring.items|
    {
      seq(|ring.items|, i requires 0 <= i < |ring.items| reads this, ring.items => ring.items[i].value)
    }

    /** vListInitialise */
    constructor ()
      ensures Valid() && ring == Ring([], 0) && fresh(end)
    {
      var marker := new ListItem(0, MAX_DELAY);
      end, index, count := marker, marker, 0;
      ring := Ring([], 0);
      new;
      end.next, end.prev := end, end;
    }

    lemma NodesApart()
      requires Valid()
      ensures Apart(Nodes())
    {}

    /** vListInsertEnd */
    method InsertEnd(x: ListItem)
      requires Valid() && x.container == null && x != end
      modifies this, x, index, index.prev
      ensures Valid() && ring == old(ring).InsertEnd(x)
      ensures x.value == old(x.value) && index == old(index)
    {
      ghost var k := if ring.at == 0 then |ring.items| else ring.at - 1;
      assert LinkAt(Nodes(), k);
      Splice(index.prev, x, index, k);
    }

    /** vListInsert: behind the last item whose value is not greater.  The search ends for every
        value, the maximum included, although the maximum is also the end marker's. */
    method Insert(x: ListItem)
      requires Valid() && x.container == null && x != end
      modifies this, x, end, ring.items
      ensures Valid()
      ensures ring == old(ring).InsertAt(SortedInsertion.InsertPos(old(Values()), old(x.value)), x)
      ensures x.value == old(x.value) && index == old(index)
      ensures forall y | y in old(ring).items :: y.value == old(y.value)
    {
      var v := x.value;
      var cursor: ListItem;
      ghost var k := 0;
      if v == MAX_DELAY {
        assert LinkAt(Nodes(), |ring.items|);
        cursor, k := end.prev, |ring.items|;
      } else {
        cursor := end;
        assert LinkAt(Nodes(), k);
        while cursor.next.value <= v
          invariant k <= |ring.items| && cursor == Nodes()[k] && LinkAt(Nodes(), k)
          invariant forall i | 0 <= i < k :: ring.items[i].value <= v
          decreases |ring.items| - k
        {
          assert LinkAt(Nodes(), k + 1);
          cursor, k := cursor.next, k + 1;
        }
      }
      assert k == SortedInsertion.InsertPos(Values(), v) by {
        SortedInsertion.InsertPosUnique(Values(), v, k);
      }
      assert LinkAt(Nodes(), k);
      Splice(cursor, x, cursor.next, k);
    }

    /** uxListRemove; `k` is where the item is. */
    method Remove(x: ListItem, ghost k: nat) returns (remaining: nat)
      requires Valid() && k < |ring.items| && x == ring.items[k]
      modifies this, x, end, ring.items
      ensures Valid() && ring == old(ring).RemoveAt(k) && remaining == |ring.items|
      ensures x.container == null
      ensures forall y | y in old(ring).items :: y.value == old(y.value)
    {
      hide Linked, Apart, NoDup, LinkAt;
      NoDupRemove(ring.items, k);
      ClosedRemove(ring, k, end);
      NodesApart();
      IndexAt(k + 1);
      Neighbours(k);
      Unlink(x, Nodes(), k + 1);
      if index == x {
        index := x.prev;
      }
      x.container := null;
      count := count - 1;
      ring := ring.RemoveAt(k);
      return count;
    }

    lemma Neighbours(k: nat)
      requires Valid() && k < |ring.items|
      ensures ring.items[k].prev == Nodes()[k] && ring.items[k].next == Nodes()[k + 2]
    {
      assert LinkAt(Nodes(), k) && LinkAt(Nodes(), k + 1);
    }

    /** No two places of the ring hold the same item. */
    lemma IndexAt(k: nat)
      requires Valid() && k <= |ring.items|
      ensures ring.at == k <==> index == Nodes()[k]
    {}

    /** listGET_OWNER_OF_NEXT_ENTRY */
    method Advance() returns (owner: int)
      requires Valid() && ring.items != []
      modifies this
      ensures Valid() && ring == old(ring).Next() && owner == ring.Current().owner
    {
      assert LinkAt(Nodes(), ring.at) && LinkAt(Nodes(), 0);
      if ring.at + 1 <= |ring.items| {
        assert Nodes()[ring.at + 1] in ring.items;
      }
      index := index.next;
      if index == end {
        index := end.next;
      }
      ring := ring.Next();
      return index.owner;
    }

    /** What both insertions end with: `x` goes between its new neighbours, is told its
        container, and is counted. */
    method Splice(before: ListItem, x: ListItem, after: ListItem, ghost k: nat)
      requires Valid() && x.container == null && x != end && k <= |ring.items|
      requires before == Nodes()[k] && after == Nodes()[k + 1]
      modifies this, x, before`next, after`prev
      ensures Valid() && ring == old(ring).InsertAt(k, x)
      ensures x.value == old(x.value) && index == old(index)
    {
      NodesApart();
      NoDupInsert(ring.items, k, x);
      ClosedInsert(ring, k, x, end);
      hide Linked, Apart, NoDup;
      x.container := this;
      count := count + 1;
      LinkBetween(before, x, after, Nodes(), k);
      ring := ring.InsertAt(k, x);
    }
  }

  /** Two lists never share a node: an item knows its one container, and an end marker has none. */
  lemma NodesDisjoint(a: List, b: List)
    requires a.Valid() && b.Valid() && a != b && a.end != b.end
    ensures forall y | y in b.Nodes() :: y !in a.Nodes()
  {}

  /** Removing from one list leaves another list as it was. */
  method RemoveBeside(source: List, other: List, x: ListItem, ghost k: nat)
    requires source.Valid() && other.Valid() && source.end != other.end && source != other
    requires k < |source.ring.items| && x == source.ring.items[k]
    modifies source, source.end, source.ring.items
    ensures source.Valid() && source.ring == old(source.ring).RemoveAt(k)
    ensures other.Valid() && other.ring == old(other.ring) && other.Values() == old(other.Values())
    ensures x.container == null && x.value == old(x.value)
  {
    ghost var nodes := other.Nodes();
    NodesDisjoint(source, other);
    var remaining := source.Remove(x, k);
    forall i | 0 <= i < |nodes| - 1 ensures LinkAt(nodes, i) {
      assert old(LinkAt(nodes, i)) && nodes[i] in nodes && nodes[i + 1] in nodes;
    }
    assert forall y | y in other.ring.items :: y in nodes;
  }

  /** Inserting into one list leaves another list as it was. */
  method InsertBeside(target: List, other: List, x: ListItem)
    requires target.Valid() && other.Valid() && target.end != other.end && target != other
    requires x.container == null && x != target.end && x != other.end
    modifies target, target.end, target.ring.items, x
    ensures target.Valid()
    ensures target.ring ==
              old(target.ring).InsertAt(SortedInsertion.InsertPos(old(target.Values()), old(x.value)), x)
    ensures other.Valid() && other.ring == old(other.ring)
  {
    ghost var nodes := other.Nodes();
    NodesDisjoint(target, other);
    target.Insert(x);
    forall i | 0 <= i < |nodes| - 1 ensures LinkAt(nodes, i) {
      assert old(LinkAt(nodes, i)) && nodes[i] in nodes && nodes[i + 1] in nodes;
    }
    assert forall y | y in other.ring.items :: y in nodes;
  }

  /** The same for an insertion at the end. */
  method InsertEndBeside(target: List, other: List, x: ListItem)
    requires target.Valid() && other.Valid() && target.end != other.end && target != other
    requires x.container == null && x != target.end && x != other.end
    modifies target, target.end, target.ring.items, x
    ensures target.Valid() && target.ring == old(target.ring).InsertEnd(x)
    ensures other.Valid() && other.ring == old(other.ring) && other.Values() == old(other.Values())
  {
    ghost var nodes := other.Nodes();
    NodesDisjoint(target, other);
    IndexInside(target);
    target.InsertEnd(x);
    forall i | 0 <= i < |nodes| - 1 ensures LinkAt(nodes, i) {
      assert old(LinkAt(nodes, i)) && nodes[i] in nodes && nodes[i + 1] in nodes;
    }
    assert forall y | y in other.ring.items :: y in nodes;
  }

  /** The index and what is before it are nodes of the list. */
  lemma IndexInside(a: List)
    requires a.Valid()
    ensures a.index == a.end || a.index in a.ring.items
    ensures a.index.prev == a.end || a.index.prev in a.ring.items
  {
    var nodes, n := a.Nodes(), |a.ring.items|;
    if a.ring.at == 0 {
      assert LinkAt(nodes, n);
    } else {
      assert LinkAt(nodes, a.ring.at - 1);
    }
  }

  /** What the kernel does when a task wakes: its item leaves a list and goes to the end of
      another. */
  method MoveToEnd(source: List, target: List, x: ListItem, ghost k: nat)
    requires source.Valid() && target.Valid() && source.end != target.end && source != target
    requires k < |source.ring.items| && x == source.ring.items[k]
    modifies source, source.end, source.ring.items, target, target.end, target.ring.items
    ensures source.Valid() && target.Valid()
    ensures source.ring == old(source.ring).RemoveAt(k)
    ensures target.ring == old(target.ring).InsertEnd(x)
  {
    NodesDisjoint(source, target);
    RemoveBeside(source, target, x, k);
    InsertEndBeside(target, source, x);
  }

  /** What the kernel does when a task blocks: its item leaves one list and enters another in the
      order of the values. */
  method Move(source: List, target: List, x: ListItem, ghost k: nat)
    requires source.Valid() && target.Valid() && source.end != target.end && source != target
    requires k < |source.ring.items| && x == source.ring.items[k]
    modifies source, source.end, source.ring.items, target, target.end, target.ring.items
    ensures source.Valid() && target.Valid()
    ensures source.ring == old(source.ring).RemoveAt(k)
    ensures target.ring ==
              old(target.ring).InsertAt(SortedInsertion.InsertPos(old(target.Values()), old(x.value)), x)
  {
    NodesDisjoint(source, target);
    RemoveBeside(source, target, x, k);
    InsertBeside(target, source, x);
  }

  /** The four pointer writes of an insertion. */
  method LinkBetween(before: ListItem, x: ListItem, after: ListItem, ghost nodes: seq<ListItem>, ghost k: nat)
    requires k + 1 < |nodes| && before == nodes[k] && after == nodes[k + 1] && x !in nodes
    requires Linked(nodes) && Apart(nodes)
    modifies x`next, x`prev, before`next, after`prev
    ensures Linked(nodes[..k + 1] + [x] + nodes[k + 1..])
  {
    x.next := after;
    x.prev := before;
    before.next := x;
    after.prev := x;
    forall i | 0 <= i < |nodes| - 1 && i != k ensures LinkAt(nodes, i) {
      assert old(LinkAt(nodes, i));
    }
    LinkedInsert(nodes, k, x);
  }

  /** The two pointer writes of a removal. */
  method Unlink(x: ListItem, ghost nodes: seq<ListItem>, ghost k: nat)
    requires 0 < k < |nodes| - 1 && x == nodes[k] && x.prev == nodes[k - 1] && x.next == nodes[k + 1]
    requires Linked(nodes) && Apart(nodes)
    modifies nodes`next, nodes`prev
    ensures Linked(nodes[..k] + nodes[k + 1..]) && x.prev == old(x.prev)
  {
    x.next.prev := x.prev;
    x.prev.next := x.next;
    var now := nodes[..k] + nodes[k + 1..];
    forall i | 0 <= i < |now| - 1 ensures LinkAt(now, i) {
      if i != k - 1 {
        var j := if i < k - 1 then i else i + 1;
        assert old(LinkAt(nodes, j));
      }
    }
  }

  /** Only the two ends of the node sequence may be the same object. */
  ghost predicate Apart(nodes: seq<ListItem>) {
    forall i, j | 0 <= i < j < |nodes| && (i > 0 || j < |nodes| - 1) :: nodes[i] != nodes[j]
  }

  ghost predicate LinkAt(nodes: seq<ListItem>, i: nat)
    requires i + 1 < |nodes|
    reads nodes`next, nodes`prev
  {
    nodes[i].next == nodes[i + 1] && nodes[i + 1].prev == nodes[i]
  }

  ghost predicate Linked(nodes: seq<ListItem>)
    reads nodes`next, nodes`prev
  {
    forall i | 0 <= i < |nodes| - 1 :: LinkAt(nodes, i)
  }

  lemma LinkedInsert(was: seq<ListItem>, k: nat, x: ListItem)
    requires k + 1 < |was|
    requires forall i | 0 <= i < |was| - 1 && i != k :: LinkAt(was, i)
    requires was[k].next == x && x.prev == was[k] && x.next == was[k + 1] && was[k + 1].prev == x
    ensures Linked(was[..k + 1] + [x] + was[k + 1..])
  {
    var now := was[..k + 1] + [x] + was[k + 1..];
    forall i | 0 <= i < |now| - 1 ensures LinkAt(now, i) {
      if i < k {
        assert LinkAt(was, i);
      } else if i > k + 1 {
        assert LinkAt(was, i - 1);
      }
    }
  }
}
