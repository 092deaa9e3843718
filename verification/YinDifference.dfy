/** The difference function of the YIN pitch estimator: the sum it stands for, the constant-time
    update that computes it, its cumulative mean normalisation and the dips of that. */
module YinDifference {
  import opened Samples

  /** The sum of n squared differences at lag i. */
  function Difference(x: seq<real>, i: nat, n: nat): (r: real)
    requires n + i <= |x|
    ensures r >= 0.0
  {
    if n == 0 then 0.0 else Difference(x, i, n - 1) + Sq(x[n - 1] - x[n - 1 + i])
  }

  lemma {:induction false} DropFirst(x: seq<real>, i: nat, n: nat)
    requires n + 1 + i <= |x|
    ensures Difference(x, i, n + 1) == Sq(x[0] - x[i]) + Difference(x[1..], i, n)
  {
    if n > 0 {
      DropFirst(x, i, n - 1);
    }
  }

  lemma {:induction false} SamePrefix(x: seq<real>, y: seq<real>, i: nat, n: nat)
    requires n + i <= |x| && n + i <= |y| && x[..n + i] == y[..n + i]
    ensures Difference(x, i, n) == Difference(y, i, n)
  {
    if n > 0 {
      assert x[..n - 1 + i] == x[..n + i][..n - 1 + i];
      assert y[..n - 1 + i] == y[..n + i][..n - 1 + i];
      SamePrefix(x, y, i, n - 1);
      assert x[n - 1] == x[..n + i][n - 1] && x[n - 1 + i] == x[..n + i][n - 1 + i];
    }
  }

  /** The delay line after one more sample. */
  function Shift(x: seq<real>, s: real): (y: seq<real>)
    requires |x| > 0
    ensures |y| == |x|
  {
    x[1..] + [s]
  }

  /** Sliding the window by one sample drops one term of the sum and adds one. */
  lemma Slide(x: seq<real>, s: real, W: nat, i: nat)
    requires W >= 1 && |x| == 2 * W && i < W
    ensures var y := Shift(x, s);
            Difference(y, i, W) == Difference(x, i, W) - Sq(x[0] - x[i]) + Sq(y[W - 1] - y[W - 1 + i])
  {
    var y := Shift(x, s);
    DropFirst(x, i, W - 1);
    assert y[..W - 1 + i] == x[1..][..W - 1 + i];
    SamePrefix(x[1..], y, i, W - 1);
  }

  /** The update of computeDiff, in its factored form. */
  function Update(p: real, d1: real, d2: real): real {
    p + (d2 + d1) * (d2 - d1)
  }

  lemma UpdateIsSlide(p: real, d1: real, d2: real)
    ensures Update(p, d1, d2) == p - Sq(d1) + Sq(d2)
  {
    assert (d2 + d1) * (d2 - d1) == d2 * d2 - d2 * d1 + d1 * d2 - d1 * d1;
  }

  // ---- whole runs ----

  /** The delay line after the inputs of a run. */
  function Line(W: nat, xs: seq<real>): (x: seq<real>)
    requires W >= 1
    ensures |x| == 2 * W
  {
    if xs == [] then Zeros(2 * W) else Shift(Line(W, xs[..|xs| - 1]), xs[|xs| - 1])
  }

  /** What a run of updates accumulates at one lag, starting from zero. */
  function Accumulated(W: nat, xs: seq<real>, i: nat): real
    requires 1 <= i < W
  {
    if xs == [] then 0.0
    else
      var before := xs[..|xs| - 1];
      var x, y := Line(W, before), Line(W, xs);
      Update(Accumulated(W, before, i), x[0] - y[i - 1], y[W - 1] - y[i + W - 1])
  }

  lemma {:induction false} ZeroDifference(m: nat, i: nat, n: nat)
    requires n + i <= m
    ensures Difference(Zeros(m), i, n) == 0.0
  {
    if n > 0 {
      ZeroDifference(m, i, n - 1);
    }
  }

  /** After any number of samples the accumulated value is the direct sum over the window. */
  lemma {:induction false} AccumulatedIsDifference(W: nat, xs: seq<real>, i: nat)
    requires 1 <= i < W
    ensures Accumulated(W, xs, i) == Difference(Line(W, xs), i, W)
    decreases |xs|
  {
    if xs == [] {
      ZeroDifference(2 * W, i, W);
    } else {
      var before, s := xs[..|xs| - 1], xs[|xs| - 1];
      var x, y := Line(W, before), Line(W, xs);
      AccumulatedIsDifference(W, before, i);
      Slide(x, s, W, i);
      assert y[i - 1] == x[i];
      UpdateIsSlide(Difference(x, i, W), x[0] - x[i], y[W - 1] - y[i + W - 1]);
    }
  }

  // ---- normalisation ----

  /** One plus the differences at lags 1 to i. */
  function Normaliser(x: seq<real>, W: nat, i: nat): (r: real)
    requires |x| == 2 * W && i < W
    ensures r >= 1.0
  {
    if i == 0 then 1.0 else Normaliser(x, W, i - 1) + Difference(x, i, W)
  }

  function Normalised(x: seq<real>, W: nat, i: nat): real
    requires |x| == 2 * W && i < W
  {
    if i == 0 then 1.0 else i as real * (Difference(x, i, W) / Normaliser(x, W, i))
  }

  lemma RatioBelowOne(d: real, n: real)
    requires 0.0 <= d < n
    ensures 0.0 <= d / n < 1.0
  {
  }

  lemma ScaledBelow(k: real, r: real, v: real)
    requires 0.0 <= r < 1.0 && k > 0.0 && v == k * r
    ensures 0.0 <= v < k
  {
    assert k * (1.0 - r) > 0.0;
  }

  /** The normalised difference at lag i is never negative and stays below i, and so below the
      sentinel of the dip search for every window of up to 10001 samples. */
  lemma NormalisedBounds(x: seq<real>, W: nat, i: nat)
    requires |x| == 2 * W && 1 <= i < W
    ensures 0.0 <= Normalised(x, W, i) < i as real
    ensures W <= 10001 ==> Normalised(x, W, i) < SENTINEL
  {
    var d, n := Difference(x, i, W), Normaliser(x, W, i);
    NormaliserAbove(x, W, i);
    RatioBelowOne(d, n);
    NormalisedIs(x, W, i, d / n);
    ScaledBelow(i as real, d / n, Normalised(x, W, i));
  }

  lemma NormaliserAbove(x: seq<real>, W: nat, i: nat)
    requires |x| == 2 * W && 1 <= i < W
    ensures 0.0 <= Difference(x, i, W) <= Normaliser(x, W, i) - 1.0
  {
    assert Normaliser(x, W, i) == Normaliser(x, W, i - 1) + Difference(x, i, W);
  }

  lemma NormalisedIs(x: seq<real>, W: nat, i: nat, r: real)
    requires |x| == 2 * W && 1 <= i < W && r == Difference(x, i, W) / Normaliser(x, W, i)
    ensures Normalised(x, W, i) == i as real * r
  {
  }

  // ---- dips ----

  const SENTINEL: real := 10000.0

  /** A local dip below the sentinel, between two lags; c holds one value past the last lag. */
  predicate Dip(c: seq<real>, lo: nat, hi: nat, i: nat) {
    1 <= lo <= i <= hi < |c| - 1 && c[i - 1] >= c[i] && c[i] < c[i + 1] && c[i] < SENTINEL
  }

  /** The choice of getDip: the first dip below the threshold, otherwise the lowest dip, the first
      of several equally low, otherwise none. */
  ghost predicate Chosen(c: seq<real>, lo: nat, hi: nat, threshold: real, est: nat) {
    && (est == 0 ==> forall k: nat :: !Dip(c, lo, hi, k))
    && (est != 0 ==>
        && Dip(c, lo, hi, est)
        && if c[est] < threshold then forall k: nat :: Dip(c, lo, hi, k) && c[k] < threshold ==> est <= k
           else forall k: nat :: Dip(c, lo, hi, k) ==> c[est] < c[k] || (c[est] == c[k] && est <= k))
  }

  /** There is exactly one such choice. */
  lemma ChosenUnique(c: seq<real>, lo: nat, hi: nat, threshold: real, a: nat, b: nat)
    requires 1 <= lo && Chosen(c, lo, hi, threshold, a) && Chosen(c, lo, hi, threshold, b)
    ensures a == b
  {
    if a != 0 {
      assert Dip(c, lo, hi, a);
    }
    if b != 0 {
      assert Dip(c, lo, hi, b);
    }
  }

  /** What a search has found among the lags before i, none of them below the threshold. */
  ghost predicate BestBefore(c: seq<real>, lo: nat, hi: nat, threshold: real, i: nat, mini: nat, mindip: real) {
    && (mini == 0 ==> mindip == SENTINEL && forall k: nat :: k < i ==> !Dip(c, lo, hi, k))
    && (mini != 0 ==>
        && mini < i && Dip(c, lo, hi, mini) && mindip == c[mini] >= threshold
        && forall k: nat :: k < i && Dip(c, lo, hi, k) ==> mindip < c[k] || (mindip == c[k] && mini <= k))
  }

  /** One more lag. */
  lemma BestNext(c: seq<real>, lo: nat, hi: nat, threshold: real, i: nat, mini: nat, mindip: real)
    requires 1 <= lo <= i <= hi < |c| - 1 && BestBefore(c, lo, hi, threshold, i, mini, mindip)
    ensures if c[i - 1] >= c[i] && c[i] < c[i + 1] && c[i] < mindip
            then if c[i] < threshold then Chosen(c, lo, hi, threshold, i) else BestBefore(c, lo, hi, threshold, i + 1, i, c[i])
            else BestBefore(c, lo, hi, threshold, i + 1, mini, mindip)
  {
    assert Dip(c, lo, hi, i) <==> c[i - 1] >= c[i] && c[i] < c[i + 1] && c[i] < SENTINEL;
  }

  /** The search itself: on from lag i, with what has been found before. */
  function Search(c: seq<real>, hi: nat, threshold: real, i: nat, mini: nat, mindip: real): nat
    requires 1 <= i && hi + 1 < |c|
    decreases hi + 1 - i
  {
    if i > hi then mini
    else if c[i - 1] >= c[i] && c[i] < c[i + 1] && c[i] < mindip then
      if c[i] < threshold then i else Search(c, hi, threshold, i + 1, i, c[i])
    else Search(c, hi, threshold, i + 1, mini, mindip)
  }

  lemma {:induction false} SearchIsChosen(c: seq<real>, lo: nat, hi: nat, threshold: real, i: nat, mini: nat, mindip: real)
    requires 1 <= lo <= i && hi + 1 < |c| && BestBefore(c, lo, hi, threshold, i, mini, mindip)
    ensures Chosen(c, lo, hi, threshold, Search(c, hi, threshold, i, mini, mindip))
    decreases hi + 1 - i
  {
    if i <= hi {
      BestNext(c, lo, hi, threshold, i, mini, mindip);
      if c[i - 1] >= c[i] && c[i] < c[i + 1] && c[i] < mindip {
        if c[i] >= threshold {
          SearchIsChosen(c, lo, hi, threshold, i + 1, i, c[i]);
        }
      } else {
        SearchIsChosen(c, lo, hi, threshold, i + 1, mini, mindip);
      }
    }
  }

  /** The normalised differences of a delay line. */
  function NormalisedRow(x: seq<real>, W: nat): (row: seq<real>)
    requires |x| == 2 * W
    ensures |row| == W
  {
    seq(W, i requires 0 <= i < W => Normalised(x, W, i))
  }

  /** The differences of a delay line; none at lag 0. */
  function DifferenceRow(x: seq<real>, W: nat): (row: seq<real>)
    requires |x| == 2 * W
    ensures |row| == W
  {
    seq(W, i requires 0 <= i < W => if i == 0 then 0.0 else Difference(x, i, W))
  }
}
