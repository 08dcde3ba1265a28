/** `sort.Slice` and `sort.Strings`: all they promise is a sorted permutation. */
module Sorting {

  ghost predicate Total<T(!new)>(le: (T, T) -> bool) {
    && (forall x, y :: le(x, y) || le(y, x))
    && (forall x, y, z :: le(x, y) && le(y, z) ==> le(x, z))
  }

  ghost predicate Sorted<T>(xs: seq<T>, le: (T, T) -> bool) {
    forall i, j :: 0 <= i < j < |xs| ==> le(xs[i], xs[j])
  }

  method Sort<T(!new)>(xs: seq<T>, le: (T, T) -> bool) returns (sorted: seq<T>)
    requires Total(le)
    ensures Sorted(sorted, le) && multiset(sorted) == multiset(xs)
  {
    sorted := [];
    for i := 0 to |xs|
      invariant Sorted(sorted, le) && multiset(sorted) == multiset(xs[..i])
    {
      sorted := Insert(sorted, xs[i], le);
      assert xs[..i + 1] == xs[..i] + [xs[i]];
    }
    assert xs[..|xs|] == xs;
  }

  method Insert<T(!new)>(xs: seq<T>, x: T, le: (T, T) -> bool) returns (sorted: seq<T>)
    requires Total(le) && Sorted(xs, le)
    ensures Sorted(sorted, le) && multiset(sorted) == multiset(xs) + multiset{x}
  {
    var k := 0;
    while k < |xs| && le(xs[k], x)
      invariant 0 <= k <= |xs|
      invariant forall j :: 0 <= j < k ==> le(xs[j], x)
    {
      k := k + 1;
    }
    sorted := xs[..k] + [x] + xs[k..];
    InsertedSorted(xs, x, k, le);
    assert xs == xs[..k] + xs[k..];
  }

  lemma InsertedSorted<T(!new)>(xs: seq<T>, x: T, k: nat, le: (T, T) -> bool)
    requires Total(le) && Sorted(xs, le) && k <= |xs|
    requires forall j :: 0 <= j < k ==> le(xs[j], x)
    requires k < |xs| ==> !le(xs[k], x)
    ensures Sorted(xs[..k] + [x] + xs[k..], le)
  {
    assert forall j :: k <= j < |xs| ==> le(x, xs[j]);
  }
}
