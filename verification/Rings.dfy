/** The abstract value of a kernel list: its items in order from the end marker, and the place
    of the walking index (0 is the end marker, k is the k-th item). */
module Rings {

  predicate NoDup<T(==)>(s: seq<T>) {
    forall i, j | 0 <= i < j < |s| :: s[i] != s[j]
  }

  lemma NoDupInsert<T>(s: seq<T>, k: nat, x: T)
    requires NoDup(s) && k <= |s| && x !in s
    ensures NoDup(s[..k] + [x] + s[k..])
  {}

  lemma NoDupRemove<T>(s: seq<T>, k: nat)
    requires NoDup(s) && k < |s|
    ensures NoDup(s[..k] + s[k + 1..]) && s[k] !in s[..k] + s[k + 1..]
    ensures forall y | y in s[..k] + s[k + 1..] :: y in s
  {}

  datatype Ring<T> = Ring(items: seq<T>, at: nat) {
    predicate Valid() { at <= |items| }

    /** The items in the order in which the next walks will visit them. */
    function Order(): seq<T>
      requires Valid()
    {
      items[at..] + items[..at]
    }

    /** Put `x` so that the item at position k, if any, follows it. */
    function InsertAt(k: nat, x: T): Ring<T>
      requires Valid() && k <= |items|
    {
      Ring(items[..k] + [x] + items[k..], if k < at then at + 1 else at)
    }

    /** vListInsertEnd: just before the index. */
    function InsertEnd(x: T): Ring<T>
      requires Valid()
    {
      if at == 0 then InsertAt(|items|, x) else InsertAt(at - 1, x)
    }

    /** Put all of `s` just before the index, as one vListInsertEnd after another does. */
    function Joined(s: seq<T>): Ring<T>
      requires Valid()
    {
      if at == 0 then Ring(items + s, 0) else Ring(items[..at - 1] + s + items[at - 1..], at + |s|)
    }

    /** uxListRemove of the item at position k; an index on it steps back. */
    function RemoveAt(k: nat): Ring<T>
      requires Valid() && k < |items|
    {
      Ring(items[..k] + items[k + 1..], if k < at then at - 1 else at)
    }

    /** listGET_OWNER_OF_NEXT_ENTRY: step the index forward, over the end marker. */
    function Next(): Ring<T>
      requires Valid() && items != []
    {
      Ring(items, if at < |items| then at + 1 else 1)
    }

    function Current(): T
      requires Valid() && 0 < at
    {
      items[at - 1]
    }
  }

  /** The items between two copies of the end marker, so that neighbours are adjacent. */
  function Closed<T>(items: seq<T>, end: T): seq<T> { [end] + items + [end] }

  lemma ClosedInsert<T>(r: Ring<T>, k: nat, x: T, end: T)
    requires r.Valid() && k <= |r.items|
    ensures var was, now := Closed(r.items, end), Closed(r.InsertAt(k, x).items, end);
            now == was[..k + 1] + [x] + was[k + 1..] && now[r.InsertAt(k, x).at] == was[r.at]
  {}

  lemma ClosedRemove<T>(r: Ring<T>, k: nat, end: T)
    requires r.Valid() && k < |r.items|
    ensures var was, now := Closed(r.items, end), Closed(r.RemoveAt(k).items, end);
            now == was[..k + 1] + was[k + 2..]
            && now[r.RemoveAt(k).at] == if r.at == k + 1 then was[k] else was[r.at]
  {}

  // ---------- What the operations do to the walking order ----------

  /** A walk serves the first of the order, which becomes the last. */
  lemma NextRotates<T>(r: Ring<T>)
    requires r.Valid() && r.items != []
    ensures r.Next().Valid() && 0 < r.Next().at
    ensures r.Next().Current() == r.Order()[0]
    ensures r.Next().Order() == r.Order()[1..] + [r.Order()[0]]
  {}

  /** A newcomer is served after every item but the one served last. */
  lemma InsertEndOrder<T>(r: Ring<T>, x: T)
    requires r.Valid()
    ensures r.InsertEnd(x).Valid()
    ensures var o, n := r.Order(), |r.items|;
            r.InsertEnd(x).Order() == if r.at == 0 then o + [x] else o[..n - 1] + [x] + [o[n - 1]]
  {
    if r.at > 0 {
      var i, items := r.at, r.items;
      var now := r.InsertEnd(x);
      assert now.items[now.at..] == items[i..];
      assert now.items[..now.at] == items[..i - 1] + [x] + [items[i - 1]];
      assert r.Order()[..|items| - 1] == items[i..] + items[..i - 1];
    }
  }

  /** Newcomers are served one after the other, after every item but the one served last. */
  lemma JoinedOrder<T>(r: Ring<T>, s: seq<T>)
    requires r.Valid()
    ensures r.Joined(s).Valid()
    ensures var o, n := r.Order(), |r.items|;
            r.Joined(s).Order() == if r.at == 0 then o + s else o[..n - 1] + s + [o[n - 1]]
  {
    if r.at > 0 {
      var i, items := r.at, r.items;
      var now := r.Joined(s);
      assert now.items[now.at..] == items[i..];
      assert now.items[..now.at] == items[..i - 1] + s + [items[i - 1]];
      assert r.Order()[..|items| - 1] == items[i..] + items[..i - 1];
    }
  }

  lemma JoinedNone<T>(r: Ring<T>)
    requires r.Valid()
    ensures r.Joined([]) == r
  {}

  lemma JoinedOne<T>(r: Ring<T>, x: T)
    requires r.Valid()
    ensures r.Joined([x]) == r.InsertEnd(x)
  {}

  lemma JoinedMore<T>(r: Ring<T>, s: seq<T>, x: seq<T>)
    requires r.Valid()
    ensures r.Joined(s).Valid() && r.Joined(s).Joined(x) == r.Joined(s + x)
  {}

  /** Removal takes the item out of the order and moves nothing else. */
  lemma RemoveOrder<T>(r: Ring<T>, k: nat)
    requires r.Valid() && k < |r.items|
    ensures r.RemoveAt(k).Valid()
    ensures var j := if k < r.at then |r.items| - r.at + k else k - r.at;
            r.Order()[j] == r.items[k] && r.RemoveAt(k).Order() == r.Order()[..j] + r.Order()[j + 1..]
  {
    if k < r.at { RemoveServed(r.items, r.at, k); } else { RemoveUnserved(r.items, r.at, k); }
  }

  lemma RemoveServed<T>(items: seq<T>, i: nat, k: nat)
    requires k < i <= |items|
    ensures var o, now, j := items[i..] + items[..i], items[..k] + items[k + 1..], |items| - i + k;
            o[j] == items[k] && now[i - 1..] + now[..i - 1] == o[..j] + o[j + 1..]
  {
    var o, now, j := items[i..] + items[..i], items[..k] + items[k + 1..], |items| - i + k;
    assert now[i - 1..] == items[i..] && now[..i - 1] == items[..k] + items[k + 1..i];
    assert o[..j] == items[i..] + items[..k] && o[j + 1..] == items[k + 1..i];
  }

  lemma RemoveUnserved<T>(items: seq<T>, i: nat, k: nat)
    requires i <= k < |items|
    ensures var o, now, j := items[i..] + items[..i], items[..k] + items[k + 1..], k - i;
            o[j] == items[k] && now[i..] + now[..i] == o[..j] + o[j + 1..]
  {
    var o, now, j := items[i..] + items[..i], items[..k] + items[k + 1..], k - i;
    assert now[i..] == items[i..k] + items[k + 1..] && now[..i] == items[..i];
    assert o[..j] == items[i..k] && o[j + 1..] == items[k + 1..] + items[..i];
  }

  /** The items served by n consecutive walks. */
  function Served<T>(r: Ring<T>, n: nat): seq<T>
    requires r.Valid() && r.items != []
    decreases n
  {
    if n == 0 then [] else
      NextRotates(r);
      [r.Next().Current()] + Served(r.Next(), n - 1)
  }

  lemma {:induction false} ServedPrefix<T>(r: Ring<T>, n: nat)
    requires r.Valid() && r.items != [] && n <= |r.items|
    ensures Served(r, n) == r.Order()[..n]
    decreases n
  {
    if n > 0 {
      NextRotates(r);
      ServedPrefix(r.Next(), n - 1);
      assert r.Next().Order()[..n - 1] == r.Order()[1..n];
    }
  }

  lemma {:induction false} OrderPermutes<T>(r: Ring<T>)
    requires r.Valid()
    ensures multiset(r.Order()) == multiset(r.items)
  {
    assert r.items == r.items[..r.at] + r.items[r.at..];
  }

  /** Round robin: as many consecutive walks as there are items serve every item exactly once. */
  lemma EachServedOnce<T>(r: Ring<T>)
    requires r.Valid() && r.items != []
    ensures multiset(Served(r, |r.items|)) == multiset(r.items)
  {
    ServedPrefix(r, |r.items|);
    OrderPermutes(r);
    assert r.Order()[..|r.items|] == r.Order();
  }
}
