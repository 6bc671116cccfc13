/** Lookups of an ordered map (`BTreeMap`) on the set of its keys, and the option type. */
module OrderedKeys {

  datatype Option<+T> = None | Some(value: T)

  /** `range(lo..hi)`: the keys in the half-open range, in ascending order. */
  function KeysIn(keys: set<nat>, lo: nat, hi: nat): seq<nat>
    decreases hi - lo
  {
    if lo >= hi then []
    else if lo in keys then [lo] + KeysIn(keys, lo + 1, hi)
    else KeysIn(keys, lo + 1, hi)
  }

  lemma {:induction false} KeysInMeaning(keys: set<nat>, lo: nat, hi: nat)
    ensures forall x :: x in KeysIn(keys, lo, hi) <==> lo <= x < hi && x in keys
    ensures forall i, j :: 0 <= i < j < |KeysIn(keys, lo, hi)| ==> KeysIn(keys, lo, hi)[i] < KeysIn(keys, lo, hi)[j]
    decreases hi - lo
  {
    if lo < hi {
      KeysInMeaning(keys, lo + 1, hi);
      var tail := KeysIn(keys, lo + 1, hi);
      assert forall i :: 0 <= i < |tail| ==> tail[i] in tail;
    }
  }

  lemma {:induction false} NoKeys(lo: nat, hi: nat)
    ensures KeysIn({}, lo, hi) == []
    decreases hi - lo
  {
    if lo < hi {
      NoKeys(lo + 1, hi);
    }
  }

  /** `range(..=n).next_back()`: the greatest key not above `n`. */
  function FloorKey(keys: set<nat>, n: nat): (r: Option<nat>)
    ensures r.Some? ==> r.value in keys && r.value <= n
  {
    if n in keys then Some(n) else if n == 0 then None else FloorKey(keys, n - 1)
  }

  lemma {:induction false} FloorMeaning(keys: set<nat>, n: nat)
    ensures FloorKey(keys, n).None? ==> forall k :: k in keys ==> n < k
    ensures FloorKey(keys, n).Some? ==>
      var f := FloorKey(keys, n).value;
      forall k :: k in keys && k <= n ==> k <= f
  {
    if n !in keys && n > 0 {
      FloorMeaning(keys, n - 1);
    }
  }

  /** `range(n..).next()` among keys not above `bound`: the least key not below `n`. */
  function CeilKey(keys: set<nat>, n: nat, bound: nat): (r: Option<nat>)
    ensures r.Some? ==> r.value in keys && n <= r.value <= bound
    decreases bound + 1 - n
  {
    if n > bound then None else if n in keys then Some(n) else CeilKey(keys, n + 1, bound)
  }

  lemma {:induction false} CeilMeaning(keys: set<nat>, n: nat, bound: nat)
    ensures CeilKey(keys, n, bound).None? ==> forall k :: k in keys && k <= bound ==> k < n
    ensures CeilKey(keys, n, bound).Some? ==>
      var c := CeilKey(keys, n, bound).value;
      forall k :: k in keys && n <= k ==> c <= k
    decreases bound + 1 - n
  {
    if n <= bound && n !in keys {
      CeilMeaning(keys, n + 1, bound);
    }
  }
}
