/** What the difference and its normalised form say about the window. */
module YinMeaning {
  import opened Samples
  import opened YinDifference

  function Sum(s: seq<real>): real {
    if s == [] then 0.0 else s[0] + Sum(s[1..])
  }

  lemma {:induction false} SumSnoc(s: seq<real>, v: real)
    ensures Sum(s + [v]) == Sum(s) + v
  {
    if s == [] {
      assert [] + [v] == [v] && [v][1..] == [];
    } else {
      assert (s + [v])[1..] == s[1..] + [v];
      SumSnoc(s[1..], v);
    }
  }

  /** The normaliser is one plus the sum of the differences at the lags from 1 to i. */
  lemma {:induction false} NormaliserIsSum(x: seq<real>, W: nat, i: nat)
    requires |x| == 2 * W && i < W
    ensures Normaliser(x, W, i) == 1.0 + Sum(DifferenceRow(x, W)[1..i + 1])
  {
    var row := DifferenceRow(x, W);
    if i > 0 {
      NormaliserIsSum(x, W, i - 1);
      assert row[1..i + 1] == row[1..i] + [row[i]];
      SumSnoc(row[1..i], row[i]);
    }
  }

  /** Times that normaliser the normalised difference is the difference times its lag: it is the difference
      over the mean of the differences up to its lag, one being added to their sum. */
  lemma CumulativeMean(x: seq<real>, W: nat, i: nat)
    requires |x| == 2 * W && 1 <= i < W
    ensures Normalised(x, W, i) * Normaliser(x, W, i) == i as real * Difference(x, i, W)
  {
    var n, d := Normaliser(x, W, i), Difference(x, i, W);
    NormalisedIs(x, W, i, d / n);
    Weighed(i as real, d, n, d / n, Normalised(x, W, i));
  }

  lemma Weighed(k: real, d: real, n: real, r: real, v: real)
    requires n != 0.0 && r == d / n && v == k * r
    ensures v * n == k * d
  {
    assert r * n == d;
    assert (k * r) * n == k * (r * n);
  }

  /** The difference vanishes at exactly the lags at which the window repeats itself. */
  lemma {:induction false} DifferenceZeroIff(x: seq<real>, i: nat, n: nat)
    requires n + i <= |x|
    ensures Difference(x, i, n) == 0.0 <==> forall k :: 0 <= k < n ==> x[k] == x[k + i]
  {
    if n > 0 {
      DifferenceZeroIff(x, i, n - 1);
      SqZero(x[n - 1] - x[n - 1 + i]);
    }
  }

  lemma SqZero(x: real)
    ensures Sq(x) == 0.0 <==> x == 0.0
  {
    if x != 0.0 {
      assert (x * x) / x == x;
    }
  }
}
