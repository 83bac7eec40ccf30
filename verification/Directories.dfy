/** A family of kernel lists over the same items, together with each item's container pointer.
    An item is on at most one list of the family: the one its container pointer names. */
module Directories {
  import opened Rings

  type Task = int

  datatype Directory<!K(==)> = Directory(lists: map<K, Ring<Task>>, home: map<Task, K>) {

    ghost predicate ListOk(k: K)
      requires k in lists
    {
      && lists[k].Valid() && NoDup(lists[k].items)
      && forall t | t in lists[k].items :: t in home && home[t] == k
    }

    ghost predicate Valid() {
      && (forall k | k in lists :: ListOk(k))
      && (forall t | t in home :: home[t] in lists && t in lists[home[t]].items)
    }

    function IndexOf(t: Task): (i: nat)
      requires Valid() && t in home
      ensures ListOk(home[t])
      ensures i < |lists[home[t]].items| && lists[home[t]].items[i] == t
    {
      Position(lists[home[t]].items, t)
    }

    function Remove(t: Task): (d: Directory<K>)
      requires Valid() && t in home
      ensures d.Valid() && d.home == home - {t} && d.lists.Keys == lists.Keys
      ensures d.lists == lists[home[t] := lists[home[t]].RemoveAt(IndexOf(t))]
      ensures |d.lists[home[t]].items| == |lists[home[t]].items| - 1
    {
      var k, i := home[t], IndexOf(t);
      var d := Directory(lists[k := lists[k].RemoveAt(i)], home - {t});
      NoDupRemove(lists[k].items, i);
      MembersRemove(lists[k].items, i);
      d
    }

    function InsertAt(k: K, i: nat, t: Task): (d: Directory<K>)
      requires Valid() && k in lists && i <= |lists[k].items| && t !in home
      ensures d.Valid() && d.home == home[t := k] && d.lists.Keys == lists.Keys
      ensures d.lists == lists[k := lists[k].InsertAt(i, t)]
    {
      var d := Directory(lists[k := lists[k].InsertAt(i, t)], home[t := k]);
      assert ListOk(k);
      NoDupInsert(lists[k].items, i, t);
      MembersInsert(lists[k].items, i, t);
      assert forall j | j in d.lists :: d.ListOk(j) by {
        assert forall j | j in lists :: ListOk(j);
      }
      d
    }

    function InsertEnd(k: K, t: Task): (d: Directory<K>)
      requires Valid() && k in lists && t !in home
      ensures d.Valid() && d.home == home[t := k] && d.lists.Keys == lists.Keys
      ensures d.lists == lists[k := lists[k].InsertEnd(t)]
      ensures |d.lists[k].items| == |lists[k].items| + 1
    {
      InsertAt(k, if lists[k].at == 0 then |lists[k].items| else lists[k].at - 1, t)
    }

    function Walk(k: K): (d: Directory<K>)
      requires Valid() && k in lists && lists[k].items != []
      ensures d.Valid() && d.home == home && d.lists == lists[k := lists[k].Next()]
    {
      this.(lists := lists[k := lists[k].Next()])
    }
  }

  lemma ListRing<K>(d: Directory<K>, k: K)
    requires d.Valid() && k in d.lists
    ensures d.lists[k].Valid()
  {}

  function Position(s: seq<Task>, t: Task): (i: nat)
    requires t in s
    ensures i < |s| && s[i] == t
  {
    if s[0] == t then 0 else 1 + Position(s[1..], t)
  }

  lemma MembersRemove(s: seq<Task>, i: nat)
    requires i < |s| && NoDup(s)
    ensures forall x :: x in s[..i] + s[i + 1..] <==> x in s && x != s[i]
  {}

  lemma MembersInsert(s: seq<Task>, i: nat, t: Task)
    requires i <= |s|
    ensures forall x :: x in s[..i] + [t] + s[i..] <==> x in s || x == t
  {}

  // ---------- What is left of a list in order ----------

  /** The items of `s` that are not in `gone`, in their order. */
  function Without(s: seq<Task>, gone: seq<Task>): seq<Task> {
    if s == [] then [] else
      var n := |s| - 1;
      Without(s[..n], gone) + if s[n] in gone then [] else [s[n]]
  }

  lemma {:induction false} WithoutAbsent(s: seq<Task>, gone: seq<Task>)
    requires forall t | t in s :: t !in gone
    ensures Without(s, gone) == s
  {
    if s != [] {
      var n := |s| - 1;
      var x := s[n];
      assert x in s && x !in gone;
      assert forall t | t in s[..n] :: t in s;
      WithoutAbsent(s[..n], gone);
      assert s == s[..n] + [x];
    }
  }

  lemma {:induction false} WithoutOne(s: seq<Task>, i: nat)
    requires NoDup(s) && i < |s|
    ensures Without(s, [s[i]]) == s[..i] + s[i + 1..]
  {
    var n := |s| - 1;
    if i == n {
      WithoutAbsent(s[..n], [s[i]]);
    } else {
      WithoutOne(s[..n], i);
      assert s[..i] + s[i + 1..] == s[..n][..i] + s[..n][i + 1..] + [s[n]];
    }
  }

  lemma {:induction false} WithoutConcat(s: seq<Task>, x: seq<Task>, gone: seq<Task>)
    ensures Without(s + x, gone) == Without(s, gone) + Without(x, gone)
  {
    if x == [] {
      assert s + x == s;
    } else {
      var n := |x| - 1;
      WithoutConcat(s, x[..n], gone);
      assert (s + x)[..|s + x| - 1] == s + x[..n];
    }
  }

  lemma {:induction false} WithoutTwice(s: seq<Task>, a: seq<Task>, b: seq<Task>)
    ensures Without(Without(s, a), b) == Without(s, a + b)
  {
    if s != [] {
      var n := |s| - 1;
      WithoutTwice(s[..n], a, b);
      WithoutConcat(Without(s[..n], a), if s[n] in a then [] else [s[n]], b);
    }
  }

  /** An item that leaves its list leaves the others of every list in order. */
  lemma RemoveIsWithout<K>(d: Directory<K>, t: Task, k: K)
    requires d.Valid() && t in d.home && k in d.lists
    ensures d.Remove(t).lists[k].items == Without(d.lists[k].items, [t])
  {
    assert d.ListOk(k);
    if k == d.home[t] {
      WithoutOne(d.lists[k].items, d.IndexOf(t));
    } else {
      WithoutAbsent(d.lists[k].items, [t]);
    }
  }

  // ---------- Counting ----------

  function TotalLength<K(==)>(d: Directory<K>, ks: seq<K>): nat
    requires forall k | k in ks :: k in d.lists
  {
    if ks == [] then 0 else |d.lists[ks[0]].items| + TotalLength(d, ks[1..])
  }

  ghost function Members(s: seq<Task>): set<Task> { set x | x in s }

  lemma {:induction false} NoDupSize(s: seq<Task>)
    requires NoDup(s)
    ensures |Members(s)| == |s|
  {
    if s != [] {
      assert s == [s[0]] + s[1..];
      assert Members(s) == Members(s[1..]) + {s[0]} && s[0] !in s[1..];
      NoDupSize(s[1..]);
    }
  }

  /** The items whose container is one of `ks`. */
  ghost function HousedIn<K>(d: Directory<K>, ks: seq<K>): set<Task> {
    set t | t in d.home && d.home[t] in ks
  }

  lemma HousedSomewhere<K>(d: Directory<K>, ks: seq<K>)
    requires d.Valid() && forall k | k in d.lists :: k in ks
    ensures HousedIn(d, ks) == d.home.Keys
  {
    forall t | t in d.home ensures t in HousedIn(d, ks) {
      assert d.home[t] in d.lists;
    }
  }

  lemma HousedInSplit<K>(d: Directory<K>, ks: seq<K>)
    requires d.Valid() && NoDup(ks) && ks != [] && ks[0] in d.lists
    ensures HousedIn(d, ks) == Members(d.lists[ks[0]].items) + HousedIn(d, ks[1..])
    ensures Members(d.lists[ks[0]].items) !! HousedIn(d, ks[1..])
  {
    assert d.ListOk(ks[0]);
    var here := Members(d.lists[ks[0]].items);
    forall t | t in HousedIn(d, ks) ensures t in here || t in HousedIn(d, ks[1..]) {
      var i :| 0 <= i < |ks| && ks[i] == d.home[t];
      if i > 0 { assert ks[1..][i - 1] == ks[i]; }
    }
    forall t | t in here ensures t in HousedIn(d, ks) && t !in HousedIn(d, ks[1..]) {
      assert d.home[t] == ks[0] && ks[0] !in ks[1..];
    }
    assert HousedIn(d, ks) == here + HousedIn(d, ks[1..]);
  }

  /** Every item is counted on exactly one list. */
  lemma {:induction false} LengthsCountItems<K>(d: Directory<K>, ks: seq<K>)
    requires d.Valid() && NoDup(ks) && forall k | k in ks :: k in d.lists
    ensures TotalLength(d, ks) == |HousedIn(d, ks)|
  {
    if ks != [] {
      assert d.ListOk(ks[0]);
      HousedInSplit(d, ks);
      LengthsCountItems(d, ks[1..]);
      NoDupSize(d.lists[ks[0]].items);
    }
  }
}
