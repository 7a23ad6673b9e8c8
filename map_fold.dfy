/** A JavaScript `Map` filled by calling `set` once per item, in order: the
    items that write nothing are skipped and a later write to a key replaces
    the earlier one. */
module MapFold {
  import opened Wrappers

  /** The map after performing `writes` from first to last. */
  function Fold<K(==), V>(writes: seq<Option<(K, V)>>): map<K, V>
    decreases |writes|
  {
    if writes == [] then map[]
    else
      var m := Fold(writes[..|writes| - 1]);
      match writes[|writes| - 1]
      case None => m
      case Some(kv) => m[kv.0 := kv.1]
  }

  /** Performing one more write. */
  lemma FoldSnoc<K, V>(writes: seq<Option<(K, V)>>, i: nat)
    requires i < |writes|
    ensures Fold(writes[..i + 1]) ==
      match writes[i]
      case None => Fold(writes[..i])
      case Some(kv) => Fold(writes[..i])[kv.0 := kv.1]
  {
    assert writes[..i + 1][..i] == writes[..i];
  }

  predicate WritesKey<K(==), V>(w: Option<(K, V)>, k: K) {
    w.Some? && w.value.0 == k
  }

  /** A key is present exactly when some write sets it. */
  lemma {:induction false} FoldKeys<K, V>(writes: seq<Option<(K, V)>>, k: K)
    ensures k in Fold(writes) <==> exists i :: 0 <= i < |writes| && WritesKey(writes[i], k)
    decreases |writes|
  {
    if writes != [] {
      var init := writes[..|writes| - 1];
      FoldKeys(init, k);
      assert forall i :: 0 <= i < |init| ==> init[i] == writes[i];
    }
  }

  /** A key holds the value of the last write to it. */
  lemma {:induction false} FoldLastWins<K, V>(writes: seq<Option<(K, V)>>, i: nat)
    requires i < |writes| && writes[i].Some?
    requires forall j :: i < j < |writes| ==> !WritesKey(writes[j], writes[i].value.0)
    ensures writes[i].value.0 in Fold(writes)
    ensures Fold(writes)[writes[i].value.0] == writes[i].value.1
    decreases |writes|
  {
    var init := writes[..|writes| - 1];
    if i < |writes| - 1 {
      forall j | i < j < |init|
        ensures !WritesKey(init[j], init[i].value.0)
      {
        assert init[j] == writes[j];
      }
      FoldLastWins(init, i);
    }
  }

  /** Every stored pair was written by some item. */
  lemma {:induction false} FoldValueWritten<K, V>(writes: seq<Option<(K, V)>>, k: K)
    requires k in Fold(writes)
    ensures exists i :: 0 <= i < |writes| && writes[i] == Some((k, Fold(writes)[k]))
    decreases |writes|
  {
    var init := writes[..|writes| - 1];
    var last := writes[|writes| - 1];
    if last.Some? && last.value.0 == k {
      assert writes[|writes| - 1] == Some((k, Fold(writes)[k]));
    } else {
      FoldValueWritten(init, k);
      var i :| 0 <= i < |init| && init[i] == Some((k, Fold(init)[k]));
      assert writes[i] == init[i];
    }
  }
}
