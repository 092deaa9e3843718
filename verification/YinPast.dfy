/** The value behind a row that the search for dips looks at: when it decides, and when not. */
module YinPast {
  import opened Samples
  import opened YinDifference

  /** What a search over a whole row finds when `past` lies behind the row. */
  function Found(row: seq<real>, past: real, lo: nat, hi: nat, threshold: real): nat
    requires 1 <= lo && hi < |row|
  {
    Search(row + [past], hi, threshold, lo, 0, SENTINEL)
  }

  lemma FoundIsChosen(row: seq<real>, past: real, lo: nat, hi: nat, threshold: real)
    requires 1 <= lo && hi < |row|
    ensures Chosen(row + [past], lo, hi, threshold, Found(row, past, lo, hi, threshold))
  {
    SearchIsChosen(row + [past], lo, hi, threshold, lo, 0, SENTINEL);
  }

  /** The search gets to the end of the row, and the last value would be its result if a larger one
      followed: the row does not rise to it, it is below the sentinel and below every dip before it,
      and none of those ended the search. */
  ghost predicate LastOpen(row: seq<real>, lo: nat, hi: nat, threshold: real) {
    var last := |row| - 1;
    && 1 <= lo <= hi == last
    && row[last - 1] >= row[last] && row[last] < SENTINEL
    && forall k: nat :: Dip(row, lo, last - 1, k) ==> threshold <= row[k] && row[last] < row[k]
  }

  /** Before the last place the dips are those of the row itself. */
  lemma InnerDip(row: seq<real>, past: real, lo: nat, hi: nat, k: nat)
    requires 1 <= lo && hi < |row| && k < |row| - 1
    ensures Dip(row + [past], lo, hi, k) <==> Dip(row, lo, |row| - 2, k) && k <= hi
  {
    assert k >= 1 ==> (row + [past])[k - 1] == row[k - 1] && (row + [past])[k + 1] == row[k + 1];
  }

  lemma LastDip(row: seq<real>, past: real, lo: nat, hi: nat)
    requires 1 <= lo && hi < |row|
    ensures var last := |row| - 1;
            Dip(row + [past], lo, hi, last)
            <==> lo <= hi == last && row[last - 1] >= row[last] && row[last] < past && row[last] < SENTINEL
  {
  }

  /** With the last value open, what follows decides. */
  lemma OpenFound(row: seq<real>, past: real, lo: nat, hi: nat, threshold: real)
    requires 1 <= lo && hi < |row| && LastOpen(row, lo, hi, threshold)
    ensures Found(row, past, lo, hi, threshold) == |row| - 1 <==> row[|row| - 1] < past
  {
    var c, last, est := row + [past], |row| - 1, Found(row, past, lo, hi, threshold);
    FoundIsChosen(row, past, lo, hi, threshold);
    LastDip(row, past, lo, hi);
    assert last != 0;
    if est != 0 {
      assert Dip(c, lo, hi, est);
      if est < last {
        InnerDip(row, past, lo, hi, est);
      }
    }
    if row[last] < past {
      assert Dip(c, lo, hi, last);
    }
  }

  /** With it closed, some dip inside the row comes before the last one or no last one is possible. */
  lemma ClosedBy(row: seq<real>, past: real, lo: nat, hi: nat, threshold: real) returns (k: nat)
    requires 1 <= lo && hi < |row| && !LastOpen(row, lo, hi, threshold)
    requires Dip(row + [past], lo, hi, |row| - 1)
    ensures k < |row| - 1 && Dip(row, lo, |row| - 2, k) && (row[k] < threshold || row[k] <= row[|row| - 1])
  {
    LastDip(row, past, lo, hi);
    k :| Dip(row, lo, |row| - 2, k) && !(threshold <= row[k] && row[|row| - 1] < row[k]);
  }

  /** Two rows with the same values up to the last and the same dips before it. */
  ghost predicate SameInside(c: seq<real>, d: seq<real>, lo: nat, hi: nat) {
    && |c| == |d| >= 2
    && (forall k :: 0 <= k < |c| - 1 ==> c[k] == d[k])
    && (forall k: nat :: k < |c| - 2 ==> (Dip(c, lo, hi, k) <==> Dip(d, lo, hi, k)))
  }

  lemma FollowedSame(row: seq<real>, p: real, q: real, lo: nat, hi: nat)
    requires 1 <= lo && hi < |row|
    ensures SameInside(row + [p], row + [q], lo, hi)
  {
    forall k: nat | k < |row| - 1
      ensures Dip(row + [p], lo, hi, k) <==> Dip(row + [q], lo, hi, k)
    {
      InnerDip(row, p, lo, hi, k);
      InnerDip(row, q, lo, hi, k);
    }
  }

  lemma SameDipsChosen(c: seq<real>, d: seq<real>, lo: nat, hi: nat, threshold: real, est: nat)
    requires SameInside(c, d, lo, hi) && !Dip(c, lo, hi, |c| - 2) && !Dip(d, lo, hi, |c| - 2)
    requires Chosen(c, lo, hi, threshold, est)
    ensures Chosen(d, lo, hi, threshold, est)
  {
    assert forall k: nat :: Dip(d, lo, hi, k) ==> k < |c| - 2;
  }

  lemma BeatenChosen(c: seq<real>, d: seq<real>, lo: nat, hi: nat, threshold: real, est: nat, k: nat)
    requires SameInside(c, d, lo, hi) && k < |c| - 2 && Dip(c, lo, hi, k)
    requires c[k] < threshold || c[k] <= c[|c| - 2]
    requires Chosen(c, lo, hi, threshold, est)
    ensures Chosen(d, lo, hi, threshold, est)
  {
    assert est != 0 && Dip(c, lo, hi, est);
    assert est != |c| - 2;
    assert est < |c| - 2 && Dip(d, lo, hi, est);
  }

  /** Then a dip inside the row is chosen whatever follows, or nothing is. */
  lemma ClosedChosen(row: seq<real>, p: real, q: real, lo: nat, hi: nat, threshold: real, est: nat)
    requires 1 <= lo && hi < |row| && !LastOpen(row, lo, hi, threshold)
    requires Chosen(row + [p], lo, hi, threshold, est)
    ensures Chosen(row + [q], lo, hi, threshold, est)
  {
    var c, d, last := row + [p], row + [q], |row| - 1;
    FollowedSame(row, p, q, lo, hi);
    if !Dip(c, lo, hi, last) && !Dip(d, lo, hi, last) {
      SameDipsChosen(c, d, lo, hi, threshold, est);
    } else {
      var k := ClosedBy(row, if Dip(c, lo, hi, last) then p else q, lo, hi, threshold);
      InnerDip(row, p, lo, hi, k);
      LastDip(row, p, lo, hi);
      LastDip(row, q, lo, hi);
      BeatenChosen(c, d, lo, hi, threshold, est, k);
    }
  }

  /** Exactly when the value behind the row matters: if and only if the last value is open. */
  lemma PastIgnoredIff(row: seq<real>, lo: nat, hi: nat, threshold: real)
    requires 1 <= lo && hi < |row|
    ensures (forall p, q :: Found(row, p, lo, hi, threshold) == Found(row, q, lo, hi, threshold))
            <==> !LastOpen(row, lo, hi, threshold)
  {
    if LastOpen(row, lo, hi, threshold) {
      var p, q := row[|row| - 1] + 1.0, row[|row| - 1];
      OpenFound(row, p, lo, hi, threshold);
      OpenFound(row, q, lo, hi, threshold);
      assert Found(row, p, lo, hi, threshold) != Found(row, q, lo, hi, threshold);
    } else {
      forall p, q
        ensures Found(row, p, lo, hi, threshold) == Found(row, q, lo, hi, threshold)
      {
        FoundIsChosen(row, p, lo, hi, threshold);
        FoundIsChosen(row, q, lo, hi, threshold);
        ClosedChosen(row, p, q, lo, hi, threshold, Found(row, p, lo, hi, threshold));
        ChosenUnique(row + [q], lo, hi, threshold, Found(row, p, lo, hi, threshold), Found(row, q, lo, hi, threshold));
      }
    }
  }

  /** Silence, the state every estimator starts from: what lies behind the row alone decides
      whether a period is found. */
  lemma SilenceFindsPast(W: nat, past: real, threshold: real)
    requires W >= 3
    ensures Found(NormalisedRow(Zeros(2 * W), W), past, 2, W - 1, threshold) == if past > 0.0 then W - 1 else 0
  {
    var row := NormalisedRow(Zeros(2 * W), W);
    forall i | 1 <= i < W
      ensures row[i] == 0.0
    {
      ZeroDifference(2 * W, i, W);
    }
    var hi := W - 1;
    var c, est := row + [past], Found(row, past, 2, hi, threshold);
    FoundIsChosen(row, past, 2, hi, threshold);
    LastDip(row, past, 2, hi);
    assert forall k: nat :: Dip(c, 2, hi, k) ==> k == hi;
    if est != 0 {
      assert Dip(c, 2, hi, est);
    }
  }
}
