/**
 The merge-walk comparison of two tables: walk both in their iteration order, in
 lock-step; the first pair of entries that compare unequal decides, and when one
 table runs out first it is the smaller. Entries are compared by a three-way
 comparator that returns -1, 0 or 1.
 */
module Lexicographic {

  /** cmp is a total preorder: three-valued, antisymmetric, and "not greater" is transitive. */
  ghost predicate IsTotalPreorder<T(!new)>(cmp: (T, T) -> int)
  {
    && (forall x, y :: -1 <= cmp(x, y) <= 1)
    && (forall x, y :: cmp(x, y) == -cmp(y, x))
    && (forall x, y, z :: cmp(x, y) <= 0 && cmp(y, z) <= 0 ==> cmp(x, z) <= 0)
  }

  /** Three-way lexicographic comparison of two sequences of entries. */
  function LexCompare<T>(a: seq<T>, b: seq<T>, cmp: (T, T) -> int): int
    decreases |a|
  {
    if |a| == 0 then (if |b| == 0 then 0 else -1)
    else if |b| == 0 then 1
    else if cmp(a[0], b[0]) != 0 then cmp(a[0], b[0])
    else LexCompare(a[1..], b[1..], cmp)
  }

  /** Pointwise equivalence: same length and every pair of entries compares 0. */
  ghost predicate Equivalent<T>(a: seq<T>, b: seq<T>, cmp: (T, T) -> int)
  {
    |a| == |b| && forall i :: 0 <= i < |a| ==> cmp(a[i], b[i]) == 0
  }

  /** A strict "less" followed by "not greater" is still strictly less, and symmetrically. */
  lemma StrictChain<T(!new)>(cmp: (T, T) -> int, x: T, y: T, z: T)
    requires IsTotalPreorder(cmp)
    requires cmp(x, y) <= 0 && cmp(y, z) <= 0
    requires cmp(x, y) < 0 || cmp(y, z) < 0
    ensures cmp(x, z) < 0
  {
    assert cmp(z, x) == -cmp(x, z) && cmp(y, x) == -cmp(x, y) && cmp(z, y) == -cmp(y, z);
  }

  lemma {:induction false} LexRange<T(!new)>(a: seq<T>, b: seq<T>, cmp: (T, T) -> int)
    requires IsTotalPreorder(cmp)
    ensures -1 <= LexCompare(a, b, cmp) <= 1
    decreases |a|
  {
    if |a| > 0 && |b| > 0 && cmp(a[0], b[0]) == 0 {
      LexRange(a[1..], b[1..], cmp);
    }
  }

  lemma {:induction false} LexAntisymmetric<T(!new)>(a: seq<T>, b: seq<T>, cmp: (T, T) -> int)
    requires IsTotalPreorder(cmp)
    ensures LexCompare(a, b, cmp) == -LexCompare(b, a, cmp)
    decreases |a|
  {
    if |a| > 0 && |b| > 0 && cmp(a[0], b[0]) == 0 {
      LexAntisymmetric(a[1..], b[1..], cmp);
    }
  }

  lemma {:induction false} LexTransitive<T(!new)>(a: seq<T>, b: seq<T>, c: seq<T>, cmp: (T, T) -> int)
    requires IsTotalPreorder(cmp)
    requires LexCompare(a, b, cmp) <= 0 && LexCompare(b, c, cmp) <= 0
    ensures LexCompare(a, c, cmp) <= 0
    decreases |a|
  {
    if |a| > 0 {
      assert |b| > 0 && |c| > 0;
      assert cmp(a[0], b[0]) <= 0 && cmp(b[0], c[0]) <= 0;
      if cmp(a[0], b[0]) < 0 || cmp(b[0], c[0]) < 0 {
        StrictChain(cmp, a[0], b[0], c[0]);
      } else {
        LexTransitive(a[1..], b[1..], c[1..], cmp);
      }
    }
  }

  /** The walk ends in 0 exactly when neither table runs out first and no pair of entries differs. */
  lemma {:induction false} LexZero<T(!new)>(a: seq<T>, b: seq<T>, cmp: (T, T) -> int)
    ensures LexCompare(a, b, cmp) == 0 <==> Equivalent(a, b, cmp)
    decreases |a|
  {
    if |a| > 0 && |b| > 0 && cmp(a[0], b[0]) == 0 {
      LexZero(a[1..], b[1..], cmp);
      if Equivalent(a[1..], b[1..], cmp) {
        forall i | 0 <= i < |a| ensures cmp(a[i], b[i]) == 0 {
          if i > 0 { assert cmp(a[1..][i - 1], b[1..][i - 1]) == 0; }
        }
      }
      if Equivalent(a, b, cmp) {
        forall i | 0 <= i < |a[1..]| ensures cmp(a[1..][i], b[1..][i]) == 0 {
          assert cmp(a[i + 1], b[i + 1]) == 0;
        }
      }
    } else if |a| > 0 && |b| > 0 {
      assert !Equivalent(a, b, cmp) by { assert cmp(a[0], b[0]) != 0; }
    }
  }

  /** The first position where the entries differ decides the comparison. */
  lemma {:induction false} LexFirstDifference<T(!new)>(a: seq<T>, b: seq<T>, cmp: (T, T) -> int, n: nat)
    requires n < |a| && n < |b|
    requires forall i :: 0 <= i < n ==> cmp(a[i], b[i]) == 0
    requires cmp(a[n], b[n]) != 0
    ensures LexCompare(a, b, cmp) == cmp(a[n], b[n])
    decreases n
  {
    if n > 0 {
      assert cmp(a[0], b[0]) == 0;
      LexFirstDifference(a[1..], b[1..], cmp, n - 1);
    }
  }

  /** A table that is a strict prefix of the other compares smaller. */
  lemma {:induction false} LexPrefix<T(!new)>(a: seq<T>, b: seq<T>, cmp: (T, T) -> int)
    requires IsTotalPreorder(cmp)
    requires |a| < |b| && a == b[..|a|]
    ensures LexCompare(a, b, cmp) == -1
    decreases |a|
  {
    if |a| > 0 {
      assert a[0] == b[0];
      assert cmp(a[0], a[0]) == -cmp(a[0], a[0]);
      assert a[1..] == b[1..][..|a[1..]|];
      LexPrefix(a[1..], b[1..], cmp);
    }
  }

}
