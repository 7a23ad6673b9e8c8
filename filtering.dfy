/** Keeping the elements of a sequence that are of one kind, in order, as a
    loop that pushes each element onto the array of its kind does. */
module Filtering {
  /** The elements of `xs` of kind `k`, in order. */
  function Select<T, K(==)>(xs: seq<T>, kind: T -> K, k: K): seq<T>
    decreases |xs|
  {
    if xs == [] then []
    else
      var prev := Select(xs[..|xs| - 1], kind, k);
      if kind(xs[|xs| - 1]) == k then prev + [xs[|xs| - 1]] else prev
  }

  lemma SelectSnoc<T, K>(xs: seq<T>, x: T, kind: T -> K, k: K)
    ensures Select(xs + [x], kind, k) == if kind(x) == k then Select(xs, kind, k) + [x] else Select(xs, kind, k)
  {
    assert (xs + [x])[..|xs|] == xs;
  }

  /** An element is selected exactly when it is of the kind asked for. */
  lemma {:induction false} SelectMembers<T, K>(xs: seq<T>, kind: T -> K, k: K)
    ensures forall y :: y in Select(xs, kind, k) <==> y in xs && kind(y) == k
    decreases |xs|
  {
    if xs != [] {
      SelectMembers(xs[..|xs| - 1], kind, k);
      assert xs == xs[..|xs| - 1] + [xs[|xs| - 1]];
    }
  }

  /** Every selected element is of the kind asked for. */
  lemma {:induction false} SelectKinds<T, K>(xs: seq<T>, kind: T -> K, k: K)
    ensures forall i :: 0 <= i < |Select(xs, kind, k)| ==> kind(Select(xs, kind, k)[i]) == k
    decreases |xs|
  {
    if xs != [] {
      SelectKinds(xs[..|xs| - 1], kind, k);
    }
  }

  /** Splitting by a yes/no question keeps every element exactly once. */
  lemma {:induction false} SelectSplit<T>(xs: seq<T>, test: T -> bool)
    ensures multiset(Select(xs, test, true)) + multiset(Select(xs, test, false)) == multiset(xs)
    ensures |Select(xs, test, true)| + |Select(xs, test, false)| == |xs|
    decreases |xs|
  {
    if xs != [] {
      var init, last := xs[..|xs| - 1], xs[|xs| - 1];
      SelectSplit(init, test);
      assert xs == init + [last];
      SelectSnoc(init, last, test, true);
      SelectSnoc(init, last, test, false);
      assert multiset(xs) == multiset(init) + multiset{last};
      if test(last) {
        assert multiset(Select(xs, test, true)) == multiset(Select(init, test, true)) + multiset{last};
      } else {
        assert multiset(Select(xs, test, false)) == multiset(Select(init, test, false)) + multiset{last};
      }
    }
  }
}
