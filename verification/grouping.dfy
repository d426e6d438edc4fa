/**
 * Row selection and grouping as pandas does it on a DataFrame: a boolean
 * mask keeps the matching rows in their original order, and a `groupby`
 * splits the rows by a key. The partition lemmas say that the groups of a
 * list of distinct keys covering every row add up to the whole table.
 */
module Grouping {

  /** The rows that satisfy `p`, in their original order (a boolean mask). */
  function Filter<T(!new)>(xs: seq<T>, p: T -> bool): (r: seq<T>)
    ensures |r| <= |xs|
    ensures forall x :: x in r <==> x in xs && p(x)
  {
    if |xs| == 0 then [] else (if p(xs[0]) then [xs[0]] else []) + Filter(xs[1..], p)
  }

  /** Masking a concatenation masks each part. */
  lemma {:induction false} FilterAppend<T(!new)>(a: seq<T>, b: seq<T>, p: T -> bool)
    ensures Filter(a + b, p) == Filter(a, p) + Filter(b, p)
  {
    if |a| > 0 {
      assert (a + b)[1..] == a[1..] + b;
      FilterAppend(a[1..], b, p);
    } else {
      assert a + b == b;
    }
  }

  /** A mask keeps every copy of a matching row and no copy of any other. */
  lemma {:induction false} FilterMultiplicity<T(!new)>(xs: seq<T>, p: T -> bool, x: T)
    ensures multiset(Filter(xs, p))[x] == if p(x) then multiset(xs)[x] else 0
  {
    if |xs| > 0 {
      FilterMultiplicity(xs[1..], p, x);
      assert xs == [xs[0]] + xs[1..];
    }
  }

  /** A column computed from every row, in row order. */
  function Map<T(!new), U(!new)>(xs: seq<T>, f: T -> U): (r: seq<U>)
    ensures |r| == |xs|
    ensures forall i :: 0 <= i < |xs| ==> r[i] == f(xs[i])
    ensures forall x :: x in xs ==> f(x) in r
    ensures forall y :: y in r ==> exists x :: x in xs && f(x) == y
  {
    if |xs| == 0 then [] else [f(xs[0])] + Map(xs[1..], f)
  }

  /** The group of key `k`: the rows whose key is `k`, in their original order. */
  function Group<T(!new), K(==)>(xs: seq<T>, key: T -> K, k: K): seq<T>
  {
    Filter(xs, x => key(x) == k)
  }

  /** Grouping a concatenation groups each part: a group keeps the row order. */
  lemma {:induction false} GroupAppend<T(!new), K>(a: seq<T>, b: seq<T>, key: T -> K, k: K)
    ensures Group(a + b, key, k) == Group(a, key, k) + Group(b, key, k)
  {
    if |a| > 0 {
      assert (a + b)[1..] == a[1..] + b;
      GroupAppend(a[1..], b, key, k);
    } else {
      assert a + b == b;
    }
  }

  /** A group keeps every copy of a row with its key and no copy of any other. */
  lemma {:induction false} GroupMultiplicity<T(!new), K>(xs: seq<T>, key: T -> K, k: K, x: T)
    ensures multiset(Group(xs, key, k))[x] == if key(x) == k then multiset(xs)[x] else 0
  {
    if |xs| > 0 {
      var head, rest := [xs[0]], xs[1..];
      assert xs == head + rest;
      GroupAppend(head, rest, key, k);
      GroupSingleton(xs[0], key, k);
      GroupMultiplicity(rest, key, k, x);
    }
  }

  lemma GroupSingleton<T(!new), K>(x: T, key: T -> K, k: K)
    ensures Group([x], key, k) == if key(x) == k then [x] else []
  {
    assert [x][1..] == [];
  }

  predicate Distinct<K(==)>(ks: seq<K>)
  {
    forall i, j :: 0 <= i < j < |ks| ==> ks[i] != ks[j]
  }

  /** The total size of the groups of the keys in `ks`. */
  function SizeSum<T(!new), K(==)>(xs: seq<T>, key: T -> K, ks: seq<K>): nat
  {
    if |ks| == 0 then 0 else |Group(xs, key, ks[0])| + SizeSum(xs, key, ks[1..])
  }

  /** The sum of the weights `w` of the rows. */
  function WeightSum<T>(xs: seq<T>, w: T -> real): real
  {
    if |xs| == 0 then 0.0 else w(xs[0]) + WeightSum(xs[1..], w)
  }

  /** The total weight of the groups of the keys in `ks`. */
  function GroupWeightSum<T(!new), K(==)>(xs: seq<T>, key: T -> K, w: T -> real, ks: seq<K>): real
  {
    if |ks| == 0 then 0.0 else WeightSum(Group(xs, key, ks[0]), w) + GroupWeightSum(xs, key, w, ks[1..])
  }

  lemma {:induction false} DistinctOccursOnce<K>(ks: seq<K>, v: K)
    requires Distinct(ks) && v in ks
    ensures multiset(ks)[v] == 1
  {
    assert ks == [ks[0]] + ks[1..];
    if ks[0] == v {
      assert v !in ks[1..];
    } else {
      DistinctOccursOnce(ks[1..], v);
    }
  }

  lemma {:induction false} SizeSumOfNoRows<T(!new), K>(key: T -> K, ks: seq<K>)
    ensures SizeSum([], key, ks) == 0
  {
    if |ks| > 0 {
      SizeSumOfNoRows(key, ks[1..]);
    }
  }

  /** One more row adds one to the size of every group its key heads. */
  lemma {:induction false} SizeSumStep<T(!new), K>(x: T, rest: seq<T>, key: T -> K, ks: seq<K>)
    ensures SizeSum([x] + rest, key, ks) == SizeSum(rest, key, ks) + multiset(ks)[key(x)]
  {
    if |ks| > 0 {
      assert ([x] + rest)[1..] == rest;
      SizeSumStep(x, rest, key, ks[1..]);
      assert ks == [ks[0]] + ks[1..];
    }
  }

  /** Distinct keys covering every row split the rows: their group sizes add up to the row count. */
  lemma {:induction false} PartitionSizes<T(!new), K>(xs: seq<T>, key: T -> K, ks: seq<K>)
    requires Distinct(ks)
    requires forall x :: x in xs ==> key(x) in ks
    ensures SizeSum(xs, key, ks) == |xs|
  {
    if |xs| == 0 {
      SizeSumOfNoRows(key, ks);
    } else {
      assert xs == [xs[0]] + xs[1..];
      SizeSumStep(xs[0], xs[1..], key, ks);
      DistinctOccursOnce(ks, key(xs[0]));
      PartitionSizes(xs[1..], key, ks);
    }
  }

  lemma {:induction false} GroupWeightSumOfNoRows<T(!new), K>(key: T -> K, w: T -> real, ks: seq<K>)
    ensures GroupWeightSum([], key, w, ks) == 0.0
  {
    if |ks| > 0 {
      GroupWeightSumOfNoRows(key, w, ks[1..]);
    }
  }

  /** `wt` once for every occurrence of `v` in `ks`. */
  function OccurrenceWeight<K(==)>(ks: seq<K>, v: K, wt: real): real
  {
    if |ks| == 0 then 0.0 else (if ks[0] == v then wt else 0.0) + OccurrenceWeight(ks[1..], v, wt)
  }

  lemma {:induction false} DistinctWeighsOnce<K>(ks: seq<K>, v: K, wt: real)
    requires Distinct(ks) && v in ks
    ensures OccurrenceWeight(ks, v, wt) == wt
  {
    if ks[0] == v {
      assert v !in ks[1..];
      OccurrenceWeightAbsent(ks[1..], v, wt);
    } else {
      DistinctWeighsOnce(ks[1..], v, wt);
    }
  }

  lemma {:induction false} OccurrenceWeightAbsent<K>(ks: seq<K>, v: K, wt: real)
    requires v !in ks
    ensures OccurrenceWeight(ks, v, wt) == 0.0
  {
    if |ks| > 0 {
      OccurrenceWeightAbsent(ks[1..], v, wt);
    }
  }

  lemma {:induction false} GroupWeightSumStep<T(!new), K>(x: T, rest: seq<T>, key: T -> K, w: T -> real, ks: seq<K>)
    ensures GroupWeightSum([x] + rest, key, w, ks)
         == GroupWeightSum(rest, key, w, ks) + OccurrenceWeight(ks, key(x), w(x))
  {
    if |ks| > 0 {
      var xs := [x] + rest;
      assert xs[0] == x && xs[1..] == rest;
      var g := Group(xs, key, ks[0]);
      if key(x) == ks[0] {
        assert g == [x] + Group(rest, key, ks[0]);
        assert g[1..] == Group(rest, key, ks[0]);
      } else {
        assert g == Group(rest, key, ks[0]);
      }
      GroupWeightSumStep(x, rest, key, w, ks[1..]);
    }
  }

  /** Distinct keys covering every row split the rows: their group weights add up to the total weight. */
  lemma {:induction false} PartitionWeights<T(!new), K>(xs: seq<T>, key: T -> K, w: T -> real, ks: seq<K>)
    requires Distinct(ks)
    requires forall x :: x in xs ==> key(x) in ks
    ensures GroupWeightSum(xs, key, w, ks) == WeightSum(xs, w)
  {
    if |xs| == 0 {
      GroupWeightSumOfNoRows(key, w, ks);
    } else {
      assert xs == [xs[0]] + xs[1..];
      GroupWeightSumStep(xs[0], xs[1..], key, w, ks);
      DistinctWeighsOnce(ks, key(xs[0]), w(xs[0]));
      PartitionWeights(xs[1..], key, w, ks);
    }
  }
}
