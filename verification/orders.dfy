/**
 * The orders the dashboard sorts by: pandas sorts city names as Python
 * `str` values (lexicographically by code point, a proper prefix first) and
 * years as integers.
 */
module Orders {

  /** `less` is irreflexive, transitive and relates every two distinct values. */
  ghost predicate StrictTotalOrder<K(!new)>(less: (K, K) -> bool) {
    && (forall x :: !less(x, x))
    && (forall x, y, z :: less(x, y) && less(y, z) ==> less(x, z))
    && (forall x, y :: x != y ==> less(x, y) || less(y, x))
  }

  /** Python's `<` on `str`. */
  predicate LexLess(a: string, b: string)
  {
    if |a| == 0 then |b| > 0
    else if |b| == 0 then false
    else a[0] < b[0] || (a[0] == b[0] && LexLess(a[1..], b[1..]))
  }

  predicate IntLess(a: int, b: int)
  {
    a < b
  }

  lemma {:induction false} LexLessIrreflexive(a: string)
    ensures !LexLess(a, a)
  {
    if |a| > 0 {
      LexLessIrreflexive(a[1..]);
    }
  }

  lemma {:induction false} LexLessTransitive(a: string, b: string, c: string)
    requires LexLess(a, b) && LexLess(b, c)
    ensures LexLess(a, c)
  {
    if |a| > 0 && a[0] == b[0] && b[0] == c[0] {
      LexLessTransitive(a[1..], b[1..], c[1..]);
    }
  }

  lemma {:induction false} LexLessConnected(a: string, b: string)
    requires a != b
    ensures LexLess(a, b) || LexLess(b, a)
  {
    if |a| > 0 && |b| > 0 && a[0] == b[0] {
      assert a == [a[0]] + a[1..] && b == [b[0]] + b[1..];
      LexLessConnected(a[1..], b[1..]);
    }
  }

  lemma LexLessIsStrictTotal()
    ensures StrictTotalOrder(LexLess)
  {
    forall a: string
      ensures !LexLess(a, a)
    {
      LexLessIrreflexive(a);
    }
    forall a: string, b: string, c: string | LexLess(a, b) && LexLess(b, c)
      ensures LexLess(a, c)
    {
      LexLessTransitive(a, b, c);
    }
    forall a: string, b: string | a != b
      ensures LexLess(a, b) || LexLess(b, a)
    {
      LexLessConnected(a, b);
    }
  }

  lemma IntLessIsStrictTotal()
    ensures StrictTotalOrder(IntLess)
  {
  }
}
