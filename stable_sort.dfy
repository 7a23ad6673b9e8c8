/** `Array.prototype.sort` with a comparator of the form
    `(a, b) => key(a) - key(b)`, which the language requires to be stable:
    elements with equal keys keep their relative order. */
module StableSort {
  predicate SortedBy<T>(s: seq<T>, key: T -> nat) {
    forall i, j :: 0 <= i < j < |s| ==> key(s[i]) <= key(s[j])
  }

  /** The elements of `s` whose key is `k`, in order. */
  function WithKey<T>(s: seq<T>, key: T -> nat, k: nat): seq<T>
    decreases |s|
  {
    if s == [] then []
    else if key(s[|s| - 1]) == k then WithKey(s[..|s| - 1], key, k) + [s[|s| - 1]]
    else WithKey(s[..|s| - 1], key, k)
  }

  /** Places `x` right after the last element whose key is not greater. */
  function Insert<T>(s: seq<T>, x: T, key: T -> nat): seq<T>
    decreases |s|
  {
    if s == [] || key(s[|s| - 1]) <= key(x) then s + [x]
    else Insert(s[..|s| - 1], x, key) + [s[|s| - 1]]
  }

  /** The sorted sequence: each element in turn inserted into the sorted
      elements before it. */
  function SortBy<T>(s: seq<T>, key: T -> nat): seq<T>
    decreases |s|
  {
    if s == [] then [] else Insert(SortBy(s[..|s| - 1], key), s[|s| - 1], key)
  }

  lemma {:induction false} InsertPermutes<T>(s: seq<T>, x: T, key: T -> nat)
    ensures multiset(Insert(s, x, key)) == multiset(s) + multiset{x}
    decreases |s|
  {
    if s != [] && key(s[|s| - 1]) > key(x) {
      InsertPermutes(s[..|s| - 1], x, key);
      assert s == s[..|s| - 1] + [s[|s| - 1]];
    }
  }

  lemma {:induction false} InsertSorted<T>(s: seq<T>, x: T, key: T -> nat)
    requires SortedBy(s, key)
    ensures SortedBy(Insert(s, x, key), key)
    decreases |s|
  {
    if s != [] && key(s[|s| - 1]) > key(x) {
      var init, last := s[..|s| - 1], s[|s| - 1];
      InsertSorted(init, x, key);
      InsertPermutes(init, x, key);
      var t := Insert(init, x, key);
      forall k | 0 <= k < |t|
        ensures key(t[k]) <= key(last)
      {
        assert t[k] in multiset(init) + multiset{x};
      }
    }
  }

  /** Inserting `x` appends it to the elements of its own key and leaves the
      elements of every other key as they were. */
  lemma {:induction false} InsertStable<T>(s: seq<T>, x: T, key: T -> nat, k: nat)
    ensures WithKey(Insert(s, x, key), key, k) ==
      if key(x) == k then WithKey(s, key, k) + [x] else WithKey(s, key, k)
    decreases |s|
  {
    var t := Insert(s, x, key);
    if s == [] || key(s[|s| - 1]) <= key(x) {
      assert t[..|t| - 1] == s;
    } else {
      var init := s[..|s| - 1];
      InsertStable(init, x, key, k);
      assert t[..|t| - 1] == Insert(init, x, key);
    }
  }

  /** The sort orders the elements by key, keeps every element as often as
      it occurs, and keeps elements with equal keys in their original order. */
  lemma {:induction false} SortByCorrect<T>(s: seq<T>, key: T -> nat)
    ensures SortedBy(SortBy(s, key), key)
    ensures multiset(SortBy(s, key)) == multiset(s)
    ensures forall k :: WithKey(SortBy(s, key), key, k) == WithKey(s, key, k)
    decreases |s|
  {
    if s != [] {
      var init, last := s[..|s| - 1], s[|s| - 1];
      SortByCorrect(init, key);
      InsertSorted(SortBy(init, key), last, key);
      InsertPermutes(SortBy(init, key), last, key);
      assert s == init + [last];
      forall k
        ensures WithKey(SortBy(s, key), key, k) == WithKey(s, key, k)
      {
        InsertStable(SortBy(init, key), last, key, k);
      }
    }
  }

  /** One swap of the insertion loop keeps the pending insertion intact. */
  lemma InsertStep<T>(sorted: seq<T>, j: nat, x: T, key: T -> nat)
    requires 0 < j <= |sorted|
    requires key(sorted[j - 1]) > key(x)
    ensures Insert(sorted[..j], x, key) + sorted[j..] == Insert(sorted[..j - 1], x, key) + sorted[j - 1..]
  {
    assert sorted[..j][..j - 1] == sorted[..j - 1];
    assert sorted[j - 1..] == [sorted[j - 1]] + sorted[j..];
  }

  /** The insertion loop stops where the element belongs. */
  lemma InsertStop<T>(sorted: seq<T>, j: nat, x: T, key: T -> nat)
    requires j <= |sorted|
    requires j == 0 || key(sorted[j - 1]) <= key(x)
    ensures Insert(sorted[..j], x, key) == sorted[..j] + [x]
  {
  }

  /** The elements beside the pending one during the insertion loop. */
  lemma ShapeAt<T>(sorted: seq<T>, j: nat, x: T, rest: seq<T>)
    requires 0 < j <= |sorted|
    ensures (sorted[..j] + [x] + sorted[j..] + rest)[j - 1] == sorted[j - 1]
    ensures (sorted[..j] + [x] + sorted[j..] + rest)[j] == x
  {
  }

  /** The array contents after one swap of the insertion loop. */
  lemma SwapShape<T>(sorted: seq<T>, j: nat, x: T, rest: seq<T>)
    requires 0 < j <= |sorted|
    ensures (sorted[..j] + [x] + sorted[j..] + rest)[j - 1 := x][j := sorted[j - 1]]
      == sorted[..j - 1] + [x] + sorted[j - 1..] + rest
  {
  }

  /** Exchanges `a[j - 1]` and `a[j]`. */
  method Swap<T>(a: array<T>, j: nat)
    requires 0 < j < a.Length
    modifies a
    ensures a[..] == old(a[..])[j - 1 := old(a[j])][j := old(a[j - 1])]
  {
    a[j - 1], a[j] := a[j], a[j - 1];
  }

  /** Moves `a[i]` leftwards past the elements before it with a greater key. */
  method InsertAt<T>(a: array<T>, i: nat, key: T -> nat)
    requires i < a.Length
    modifies a
    ensures a[..] == Insert(old(a[..i]), old(a[i]), key) + old(a[i + 1..])
  {
    ghost var sorted := a[..i];
    ghost var rest := a[i + 1..];
    var x := a[i];
    var j := i;
    assert sorted[..j] == sorted && sorted[j..] == [];
    assert a[..] == sorted[..j] + [x] + sorted[j..] + rest;
    while j > 0 && key(a[j - 1]) > key(x)
      invariant 0 <= j <= i
      invariant a[..] == sorted[..j] + [x] + sorted[j..] + rest
      invariant Insert(sorted, x, key) == Insert(sorted[..j], x, key) + sorted[j..]
    {
      ShapeAt(sorted, j, x, rest);
      InsertStep(sorted, j, x, key);
      SwapShape(sorted, j, x, rest);
      Swap(a, j);
      j := j - 1;
    }
    if j > 0 {
      ShapeAt(sorted, j, x, rest);
    }
    InsertStop(sorted, j, x, key);
  }

  /** The state of the sort before inserting the element at `i`. */
  lemma SortStep<T>(input: seq<T>, i: nat, key: T -> nat, current: seq<T>)
    requires i < |input| && |current| == |input|
    requires current == SortBy(input[..i], key) + input[i..]
    ensures current[..i] == SortBy(input[..i], key)
    ensures current[i] == input[i] && current[i + 1..] == input[i + 1..]
    ensures SortBy(input[..i + 1], key) == Insert(current[..i], current[i], key)
  {
    assert input[..i + 1][..i] == input[..i];
  }

  /** The sort, in place: each element in turn is swapped leftwards past the
      elements before it with a greater key. */
  method Sort<T>(a: array<T>, key: T -> nat)
    modifies a
    ensures a[..] == SortBy(old(a[..]), key)
  {
    ghost var input := a[..];
    var i := 0;
    while i < a.Length
      invariant 0 <= i <= a.Length
      invariant a[..] == SortBy(input[..i], key) + input[i..]
    {
      SortStep(input, i, key, a[..]);
      InsertAt(a, i, key);
      i := i + 1;
    }
    assert input[..a.Length] == input;
  }
}
