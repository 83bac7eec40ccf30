/** Where vListInsert puts a value: before the first strictly greater one.  Stated on the
    sequence of item values, for the pointer list and for its users. */
module SortedInsertion {

  ghost predicate Sorted(values: seq<int>) {
    forall i, j | 0 <= i < j < |values| :: values[i] <= values[j]
  }

  function InsertPos(values: seq<int>, v: int): (k: nat)
    ensures k <= |values|
    ensures forall i | 0 <= i < k :: values[i] <= v
    ensures k < |values| ==> v < values[k]
  {
    if values == [] || v < values[0] then 0 else 1 + InsertPos(values[1..], v)
  }

  lemma InsertPosUnique(values: seq<int>, v: int, k: nat)
    requires k <= |values|
    requires forall i | 0 <= i < k :: values[i] <= v
    requires k < |values| ==> v < values[k]
    ensures k == InsertPos(values, v)
  {}

  function Insert(values: seq<int>, v: int): seq<int> {
    var k := InsertPos(values, v);
    values[..k] + [v] + values[k..]
  }

  lemma InsertKeepsOrder(values: seq<int>, v: int)
    requires Sorted(values)
    ensures Sorted(Insert(values, v))
  {}

  lemma InsertSorts(values: seq<int>, v: int)
    requires Sorted(values)
    ensures Sorted(Insert(values, v))
    ensures multiset(Insert(values, v)) == multiset(values) + multiset{v}
  {
    var k := InsertPos(values, v);
    assert values == values[..k] + values[k..];
    InsertKeepsOrder(values, v);
  }

  /** Equal values keep their order of arrival: nothing equal comes after the newcomer. */
  lemma InsertIsStable(values: seq<int>, v: int, i: nat)
    requires Sorted(values) && i < |values|
    ensures i < InsertPos(values, v) <==> values[i] <= v
  {}
}
