/** What the modules share: optional values, a JavaScript Set built from a list, and two facts about collections. */
module Wrappers {
  datatype Option<+T> = None | Some(value: T)

  /** The distinct elements of a list, in the order of first occurrence. */
  function Dedup<T(==, !new)>(list: seq<T>): (r: seq<T>)
    ensures forall t :: t in r <==> t in list
    ensures forall i, j :: 0 <= i < j < |r| ==> r[i] != r[j]
    decreases |list|
  {
    if list == [] then []
    else
      var rest := Dedup(list[..|list| - 1]);
      assert list == list[..|list| - 1] + [list[|list| - 1]];
      if list[|list| - 1] in rest then rest else rest + [list[|list| - 1]]
  }

  lemma WithoutFirst<T>(list: seq<T>)
    requires list != []
    ensures multiset(list[1..]) == multiset(list) - multiset{list[0]}
  {
    hide *;
    assert list == [list[0]] + list[1..];
  }

  lemma SubsetNoLarger<T>(a: set<T>, b: set<T>)
    requires a <= b
    ensures |a| <= |b|
  {
    assert b == a + (b - a);
  }
}
