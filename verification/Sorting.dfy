/** Sorting by a key, for the calls of `qsort` and `std::sort`: the order of elements with equal
    keys is left open. */
module Sorting {
  predicate SortedBy<T>(xs: seq<T>, key: T -> int) {
    forall i, j :: 0 <= i < j < |xs| ==> key(xs[i]) <= key(xs[j])
  }

  /** Inserts behind all whose key is no greater. */
  function Insert<T>(xs: seq<T>, x: T, key: T -> int): seq<T> {
    if xs == [] || key(xs[|xs| - 1]) <= key(x) then xs + [x]
    else Insert(xs[..|xs| - 1], x, key) + [xs[|xs| - 1]]
  }

  lemma {:induction false} InsertPermutes<T>(xs: seq<T>, x: T, key: T -> int)
    ensures multiset(Insert(xs, x, key)) == multiset(xs) + multiset{x}
  {
    if xs != [] && key(xs[|xs| - 1]) > key(x) {
      assert xs == xs[..|xs| - 1] + [xs[|xs| - 1]];
      InsertPermutes(xs[..|xs| - 1], x, key);
    }
  }

  lemma {:induction false} InsertBelow<T>(xs: seq<T>, x: T, key: T -> int, bound: int)
    requires key(x) <= bound && forall i :: 0 <= i < |xs| ==> key(xs[i]) <= bound
    ensures forall i :: 0 <= i < |Insert(xs, x, key)| ==> key(Insert(xs, x, key)[i]) <= bound
  {
    if xs != [] && key(xs[|xs| - 1]) > key(x) { InsertBelow(xs[..|xs| - 1], x, key, bound); }
  }

  lemma {:induction false} InsertSorts<T>(xs: seq<T>, x: T, key: T -> int)
    requires SortedBy(xs, key)
    ensures SortedBy(Insert(xs, x, key), key)
  {
    if xs != [] && key(xs[|xs| - 1]) > key(x) {
      InsertSorts(xs[..|xs| - 1], x, key);
      InsertBelow(xs[..|xs| - 1], x, key, key(xs[|xs| - 1]));
    }
  }

  method Sort<T>(xs: seq<T>, key: T -> int) returns (sorted: seq<T>)
    ensures SortedBy(sorted, key) && multiset(sorted) == multiset(xs)
  {
    sorted := [];
    for i := 0 to |xs|
      invariant SortedBy(sorted, key) && multiset(sorted) == multiset(xs[..i])
    {
      assert xs[..i + 1] == xs[..i] + [xs[i]];
      InsertSorts(sorted, xs[i], key);
      InsertPermutes(sorted, xs[i], key);
      sorted := Insert(sorted, xs[i], key);
    }
    assert xs[..|xs|] == xs;
  }

  lemma SameLength<T>(a: seq<T>, b: seq<T>)
    requires multiset(a) == multiset(b)
    ensures |a| == |b|
  {
    assert |multiset(a)| == |a| && |multiset(b)| == |b|;
  }
}
