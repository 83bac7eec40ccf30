/** Kernel lists kept in the order of their items' values, as vListInsert keeps them. */
module SortedDirectories {
  import opened Ticks
  import opened Directories
  import opened SortedInsertion

  /** The item values of a list, front first. */
  function ValuesOf(items: seq<Task>, value: map<Task, int>): (vs: seq<int>)
    ensures |vs| == |items|
  {
    seq(|items|, i requires 0 <= i < |items| => if items[i] in value then value[items[i]] else 0)
  }

  lemma ValuesInsert(items: seq<Task>, value: map<Task, int>, t: Task, v: Tick)
    requires t !in items && Sorted(ValuesOf(items, value))
    ensures var k := InsertPos(ValuesOf(items, value), v);
            Sorted(ValuesOf(items[..k] + [t] + items[k..], value[t := v]))
  {
    var vs := ValuesOf(items, value);
    var k := InsertPos(vs, v);
    InsertKeepsOrder(vs, v);
    assert ValuesOf(items[..k] + [t] + items[k..], value[t := v]) == Insert(vs, v);
  }

  lemma ValuesUpdate(items: seq<Task>, value: map<Task, int>, t: Task, v: int)
    requires t !in items
    ensures ValuesOf(items, value[t := v]) == ValuesOf(items, value)
  {}

  lemma ValuesRemove(items: seq<Task>, value: map<Task, int>, k: nat)
    requires k < |items| && Sorted(ValuesOf(items, value))
    ensures Sorted(ValuesOf(items[..k] + items[k + 1..], value))
  {
    var now := ValuesOf(items[..k] + items[k + 1..], value);
    var was := ValuesOf(items, value);
    forall i, j | 0 <= i < j < |now| ensures now[i] <= now[j] {
      var i', j' := if i < k then i else i + 1, if j < k then j else j + 1;
      assert now[i] == was[i'] && now[j] == was[j'];
    }
  }

  /** `t` goes on list k at its place in the order of wake times. */
  function SortIn<K(==)>(lists: Directory<K>, k: K, t: Task, value: map<Task, int>, v: Tick): (after: Directory<K>)
    requires lists.Valid() && k in lists.lists && t !in lists.home
    ensures after.Valid() && after.home == lists.home[t := k] && after.lists.Keys == lists.lists.Keys
    ensures forall j | j in lists.lists && j != k :: after.lists[j] == lists.lists[j]
  {
    lists.InsertAt(k, InsertPos(ValuesOf(lists.lists[k].items, value), v), t)
  }

  lemma SortInKeepsOrder<K>(lists: Directory<K>, k: K, t: Task, value: map<Task, int>, v: Tick, j: K)
    requires lists.Valid() && k in lists.lists && j in lists.lists && t !in lists.home
    requires Sorted(ValuesOf(lists.lists[j].items, value))
    ensures Sorted(ValuesOf(SortIn(lists, k, t, value, v).lists[j].items, value[t := v]))
  {
    assert lists.ListOk(j);
    if j == k {
      ValuesInsert(lists.lists[j].items, value, t, v);
    } else {
      ValuesUpdate(lists.lists[j].items, value, t, v);
    }
  }

  // ---------- Where the newcomer stands ----------

  /** `t` has joined the list at its value v: behind items of no greater value and in front of a
      greater one, in a list in order of all greater ones.  The others keep their order. */
  ghost predicate SortedInto(was: seq<Task>, now: seq<Task>, value: map<Task, int>, t: Task, v: int) {
    && t in now && t !in was
    && var i := Position(now, t);
    && was == now[..i] + now[i + 1..]
    && (forall u | u in now[..i] && u in value :: value[u] <= v)
    && (i + 1 < |now| && now[i + 1] in value ==> v < value[now[i + 1]])
    && (Sorted(ValuesOf(was, value)) ==> forall u | u in now[i + 1..] && u in value :: v < value[u])
  }

  lemma PositionInserted(s: seq<Task>, k: nat, t: Task)
    requires k <= |s| && t !in s
    ensures t in s[..k] + [t] + s[k..] && Position(s[..k] + [t] + s[k..], t) == k
  {
    var now := s[..k] + [t] + s[k..];
    assert now[k] == t;
    assert forall j | 0 <= j < |now| && j != k :: now[j] in s;
  }

  lemma PlacedBehind(was: seq<Task>, value: map<Task, int>, v: int, k: nat)
    requires k == InsertPos(ValuesOf(was, value), v)
    ensures k <= |was|
    ensures forall u | u in was[..k] && u in value :: value[u] <= v
    ensures k < |was| && was[k] in value ==> v < value[was[k]]
    ensures Sorted(ValuesOf(was, value)) ==> forall u | u in was[k..] && u in value :: v < value[u]
  {
    var vs := ValuesOf(was, value);
    forall u | u in was[..k] && u in value ensures value[u] <= v {
      var j :| 0 <= j < k && was[j] == u;
      assert vs[j] <= v;
    }
    if Sorted(vs) {
      forall u | u in was[k..] && u in value ensures v < value[u] {
        var j :| k <= j < |was| && was[j] == u;
        assert vs[k] <= vs[j];
      }
    }
  }

  lemma InsertedInto(was: seq<Task>, value: map<Task, int>, t: Task, v: int, k: nat)
    requires t !in was && k == InsertPos(ValuesOf(was, value), v)
    ensures k <= |was| && SortedInto(was, was[..k] + [t] + was[k..], value, t, v)
  {
    hide InsertPos, Sorted;
    PlacedBehind(was, value, v, k);
    var now := was[..k] + [t] + was[k..];
    PositionInserted(was, k, t);
    assert now[..k] == was[..k] && now[k + 1..] == was[k..];
  }

  lemma SortInPlaces<K>(lists: Directory<K>, k: K, t: Task, value: map<Task, int>, v: Tick)
    requires lists.Valid() && k in lists.lists && t !in lists.home
    ensures SortedInto(lists.lists[k].items, SortIn(lists, k, t, value, v).lists[k].items, value, t, v)
  {
    assert lists.ListOk(k);
    InsertedInto(lists.lists[k].items, value, t, v, InsertPos(ValuesOf(lists.lists[k].items, value), v));
    hide SortedInto, InsertPos;
  }

  /** `t`, on no list before, has joined list k at its value v; the other lists are as they were. */
  ghost predicate JoinedSorted<K>(before: Directory<K>, after: Directory<K>, k: K, value: map<Task, int>,
                                        t: Task, v: int)
  {
    && k in before.lists && after.lists.Keys == before.lists.Keys
    && (forall j | j in before.lists && j != k :: after.lists[j] == before.lists[j])
    && SortedInto(before.lists[k].items, after.lists[k].items, value, t, v)
  }

  lemma SortInJoins<K>(lists: Directory<K>, k: K, t: Task, value: map<Task, int>, v: Tick)
    requires lists.Valid() && k in lists.lists && t !in lists.home
    ensures JoinedSorted(lists, SortIn(lists, k, t, value, v), k, value, t, v)
  {
    hide SortedInto, Directory.Valid;
    SortInPlaces(lists, k, t, value, v);
  }

  /** The newcomer's own value so far does not matter. */
  lemma SortedIntoApart(was: seq<Task>, now: seq<Task>, value: map<Task, int>, t: Task, v: int, x: int)
    requires SortedInto(was, now, value[t := x], t, v)
    ensures SortedInto(was, now, value, t, v)
  {
    ValuesUpdate(was, value, t, x);
    var i := Position(now, t);
    assert forall u | u in now[..i] || u in now[i + 1..] :: u in was && u != t;
    forall u | u in now[i + 1..] && u in value && Sorted(ValuesOf(was, value)) ensures v < value[u] {
      assert u in value[t := x] && value[t := x][u] == value[u];
    }
  }

  lemma JoinedSortedApart<K>(before: Directory<K>, after: Directory<K>, k: K, value: map<Task, int>,
                             later: map<Task, int>, t: Task, v: int)
    requires JoinedSorted(before, after, k, later, t, v)
    requires later == value || (t in later && later == value[t := later[t]])
    ensures JoinedSorted(before, after, k, value, t, v)
  {
    hide SortedInto;
    if later != value { SortedIntoApart(before.lists[k].items, after.lists[k].items, value, t, v, later[t]); }
  }
}
