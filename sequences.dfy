/** List helpers of the product rules and repositories: `flat_list` and the
    order-keeping de-duplication that stands in for building a `set`. */
module Sequences {

  /** `flat_list(list_groups)`: the groups concatenated in order. */
  function FlatList<T>(groups: seq<seq<T>>): seq<T>
  {
    if groups == [] then [] else groups[0] + FlatList(groups[1..])
  }

  function SumLengths<T>(groups: seq<seq<T>>): nat
  {
    if groups == [] then 0 else |groups[0]| + SumLengths(groups[1..])
  }

  /** Flattening keeps every item: the length is the sum of the group lengths. */
  lemma {:induction false} FlatListLength<T>(groups: seq<seq<T>>)
    ensures |FlatList(groups)| == SumLengths(groups)
  {
    if groups != [] {
      FlatListLength(groups[1..]);
    }
  }

  /** Every item of the flattened list comes from some group. */
  lemma {:induction false} FlatListFrom<T>(groups: seq<seq<T>>)
    ensures forall x :: x in FlatList(groups) ==> exists i :: 0 <= i < |groups| && x in groups[i]
  {
    if groups != [] {
      var rest := groups[1..];
      FlatListFrom(rest);
      forall x | x in FlatList(groups)
        ensures exists i :: 0 <= i < |groups| && x in groups[i]
      {
        if x !in groups[0] {
          assert x in FlatList(rest);
          var i :| 0 <= i < |rest| && x in rest[i];
          assert x in groups[i + 1];
        }
      }
    }
  }

  /** Every item of every group is in the flattened list. */
  lemma {:induction false} FlatListHas<T>(groups: seq<seq<T>>, i: nat, x: T)
    requires i < |groups| && x in groups[i]
    ensures x in FlatList(groups)
  {
    if i > 0 {
      FlatListHas(groups[1..], i - 1, x);
    }
  }

  /** Flattening distributes over concatenation of the group lists, so the
      order of the groups and of the items inside them is kept. */
  lemma {:induction false} FlatListAppend<T>(a: seq<seq<T>>, b: seq<seq<T>>)
    ensures FlatList(a + b) == FlatList(a) + FlatList(b)
  {
    if a != [] {
      assert (a + b)[1..] == a[1..] + b;
      FlatListAppend(a[1..], b);
    } else {
      assert a + b == b;
    }
  }

  predicate NoDuplicates<T(==)>(s: seq<T>) {
    forall i, j :: 0 <= i < j < |s| ==> s[i] != s[j]
  }

  /** The distinct integers of `s`, each at its first occurrence. */
  function Dedup(s: seq<int>): (r: seq<int>)
    ensures NoDuplicates(r)
    ensures forall x :: x in r <==> x in s
  {
    if s == [] then []
    else
      var rest := Dedup(s[..|s| - 1]);
      var x := s[|s| - 1];
      assert forall y :: y in s <==> y in s[..|s| - 1] || y == x;
      if x in rest then rest else rest + [x]
  }
}
