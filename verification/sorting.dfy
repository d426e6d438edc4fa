/**
 * Sorted lists of distinct values, the shape of `sorted(column.unique())`
 * and of the keys a pandas `groupby` emits.
 */
module Sorting {
  import opened Orders

  predicate StrictlySorted<K>(less: (K, K) -> bool, xs: seq<K>)
  {
    forall i, j :: 0 <= i < j < |xs| ==> less(xs[i], xs[j])
  }

  /** Adds `k` to a strictly sorted list unless it is already there. */
  function Insert<K(==, !new)>(less: (K, K) -> bool, xs: seq<K>, k: K): (r: seq<K>)
    requires StrictTotalOrder(less) && StrictlySorted(less, xs)
    ensures StrictlySorted(less, r)
    ensures forall x :: x in r <==> x in xs || x == k
  {
    if |xs| == 0 then [k]
    else if k == xs[0] then xs
    else if less(k, xs[0]) then [k] + xs
    else
      var rest := Insert(less, xs[1..], k);
      assert forall x :: x in rest ==> less(xs[0], x) by {
        forall x | x in rest
          ensures less(xs[0], x)
        {
          if x != k {
            var j :| 1 <= j < |xs| && xs[j] == x;
          }
        }
      }
      [xs[0]] + rest
  }

  /** The distinct values of `ks`, in increasing order. */
  function SortedDistinct<K(==, !new)>(less: (K, K) -> bool, ks: seq<K>): (r: seq<K>)
    requires StrictTotalOrder(less)
    ensures StrictlySorted(less, r)
    ensures forall x :: x in r <==> x in ks
  {
    if |ks| == 0 then [] else Insert(less, SortedDistinct(less, ks[1..]), ks[0])
  }

  /** A strictly sorted list holds no value twice. */
  lemma SortedIsDistinct<K(!new)>(less: (K, K) -> bool, xs: seq<K>)
    requires StrictTotalOrder(less) && StrictlySorted(less, xs)
    ensures forall i, j :: 0 <= i < j < |xs| ==> xs[i] != xs[j]
  {
  }

  /** Two strictly sorted lists with the same values are the same list. */
  lemma {:induction false} SortedUnique<K(!new)>(less: (K, K) -> bool, a: seq<K>, b: seq<K>)
    requires StrictTotalOrder(less)
    requires StrictlySorted(less, a) && StrictlySorted(less, b)
    requires forall x :: x in a <==> x in b
    ensures a == b
  {
    assert |a| > 0 ==> a[0] in b;
    assert |b| > 0 ==> b[0] in a;
    if |a| > 0 && |b| > 0 {
      assert a[0] == b[0] by {
        assert a[0] in b && b[0] in a;
      }
      forall x
        ensures x in a[1..] <==> x in b[1..]
      {
        if x in a[1..] {
          var i :| 1 <= i < |a| && a[i] == x;
          assert less(a[0], x);
          assert x in b;
        }
        if x in b[1..] {
          var j :| 1 <= j < |b| && b[j] == x;
          assert less(b[0], x);
          assert x in a;
        }
      }
      SortedUnique(less, a[1..], b[1..]);
      assert a == [a[0]] + a[1..] && b == [b[0]] + b[1..];
    }
  }
}
