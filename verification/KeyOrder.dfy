/** The iteration order of `Object.values` on the id-keyed dictionaries of the repositories:
    integer-like keys come out in ascending numeric order. */
module KeyOrder {
  /** The values stored under the keys in [lo, hi), in ascending key order. */
  function ValuesInKeyOrder<T>(m: map<nat, T>, lo: nat, hi: nat): (r: seq<T>)
    ensures forall x :: x in r ==> exists k :: lo <= k < hi && k in m && m[k] == x
    ensures forall k :: lo <= k < hi && k in m ==> m[k] in r
    ensures lo <= hi && (forall k :: lo <= k < hi ==> k in m) ==>
              |r| == hi - lo && forall i :: 0 <= i < |r| ==> r[i] == m[lo + i]
    decreases hi - lo
  {
    if lo >= hi then []
    else (if lo in m then [m[lo]] else []) + ValuesInKeyOrder(m, lo + 1, hi)
  }

  /** The keys of `m` in [lo, hi). */
  ghost function KeysBetween<T>(m: map<nat, T>, lo: nat, hi: nat): set<nat>
  {
    set k | k in m && lo <= k < hi
  }

  /** One value per key: the listing is exactly as long as the number of keys it covers. */
  lemma {:induction false} ValuesInKeyOrderLength<T>(m: map<nat, T>, lo: nat, hi: nat)
    ensures |ValuesInKeyOrder(m, lo, hi)| == |KeysBetween(m, lo, hi)|
    decreases hi - lo
  {
    if lo >= hi {
      assert KeysBetween(m, lo, hi) == {};
    } else {
      ValuesInKeyOrderLength(m, lo + 1, hi);
      if lo in m {
        assert KeysBetween(m, lo, hi) == {lo} + KeysBetween(m, lo + 1, hi);
      } else {
        assert KeysBetween(m, lo, hi) == KeysBetween(m, lo + 1, hi);
      }
    }
  }

  /** Storing a value under the next key appends it to the listing. */
  lemma {:induction false} ValuesInKeyOrderExtend<T>(m: map<nat, T>, lo: nat, hi: nat, v: T)
    requires lo <= hi
    ensures ValuesInKeyOrder(m[hi := v], lo, hi + 1) == ValuesInKeyOrder(m, lo, hi) + [v]
    decreases hi - lo
  {
    if lo < hi {
      ValuesInKeyOrderExtend(m, lo + 1, hi, v);
      var head := if lo in m then [m[lo]] else [];
      assert (if lo in m[hi := v] then [m[hi := v][lo]] else []) == head;
      assert head + (ValuesInKeyOrder(m, lo + 1, hi) + [v]) == (head + ValuesInKeyOrder(m, lo + 1, hi)) + [v];
    }
  }
}
