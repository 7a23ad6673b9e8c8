/** A JavaScript `Set` read back with `Array.from`: adding a value that is
    already present changes nothing, and the values come out in the order
    they were first added. */
module OrderedSet {
  predicate NoDuplicates<T(==)>(xs: seq<T>) {
    forall i, j :: 0 <= i < j < |xs| ==> xs[i] != xs[j]
  }

  /** `set.add(x)`. */
  function Add<T(==)>(xs: seq<T>, x: T): seq<T> {
    if x in xs then xs else xs + [x]
  }

  /** After `add`, the set holds `x` and what it held before, nothing else,
      and still holds each value once. */
  lemma AddSpec<T>(xs: seq<T>, x: T)
    ensures x in Add(xs, x)
    ensures forall y :: y in xs ==> y in Add(xs, x)
    ensures forall k :: 0 <= k < |Add(xs, x)| ==> Add(xs, x)[k] in xs || Add(xs, x)[k] == x
    ensures NoDuplicates(xs) ==> NoDuplicates(Add(xs, x))
  {
  }

  /** `Array.from(new Set(xs))`. */
  function Distinct<T(==)>(xs: seq<T>): seq<T>
    decreases |xs|
  {
    if xs == [] then [] else Add(Distinct(xs[..|xs| - 1]), xs[|xs| - 1])
  }

  /** The values of the set are those added, each once. */
  lemma {:induction false} DistinctMembers<T>(xs: seq<T>)
    ensures NoDuplicates(Distinct(xs))
    ensures forall y :: y in xs ==> y in Distinct(xs)
    ensures forall k :: 0 <= k < |Distinct(xs)| ==> Distinct(xs)[k] in xs
    decreases |xs|
  {
    if xs != [] {
      var init := xs[..|xs| - 1];
      DistinctMembers(init);
      AddSpec(Distinct(init), xs[|xs| - 1]);
      assert xs == init + [xs[|xs| - 1]];
    }
  }

  /** The values come out in first-seen order: whenever `a` precedes `b` in
      the set, `a` was added at some position before which `b` had not yet
      been added. */
  lemma {:induction false} DistinctFirstSeenOrder<T>(xs: seq<T>, i: nat, j: nat)
    requires i < j < |Distinct(xs)|
    ensures exists p :: 0 <= p < |xs| && xs[p] == Distinct(xs)[i] && Distinct(xs)[j] !in xs[..p + 1]
    decreases |xs|
  {
    var init := xs[..|xs| - 1];
    var x := xs[|xs| - 1];
    var r := Distinct(xs);
    var prev := Distinct(init);
    DistinctMembers(init);
    if j < |prev| {
      assert r[i] == prev[i] && r[j] == prev[j];
      DistinctFirstSeenOrder(init, i, j);
      var p :| 0 <= p < |init| && init[p] == prev[i] && prev[j] !in init[..p + 1];
      assert xs[..p + 1] == init[..p + 1];
    } else {
      assert r == prev + [x] && x !in init;
      assert r[i] in init;
      var p :| 0 <= p < |init| && init[p] == r[i];
      assert xs[..p + 1] == init[..p + 1];
    }
  }
}
