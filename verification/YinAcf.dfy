/** The class template `YinACF`: a circular delay line, a ring of solutions and in-place loops. The
    arrays `diff` and `cmndiff` of solution n are row n of two matrices. */
module YinAcf {
  import opened Samples
  import opened YinDifference
  import opened YinPast

  class YinACF {
    const in_: array<real>
    var head: nat
    const N: nat
    const W: nat
    var threshold: real
    const TMAX: nat
    const diff: array2<real>
    const cmndiff: array2<real>
    const est: array<nat>
    var ho: nat
    /** The samples since the last reset. */
    ghost var heard: seq<real>
    /** The delay line that each row was computed from. */
    ghost var solved: seq<seq<real>>

    ghost predicate Sizes() {
      && W >= 3 && N == 2 * W && TMAX >= 3
      && in_.Length == N
      && diff.Length0 == TMAX && diff.Length1 == W
      && cmndiff.Length0 == TMAX && cmndiff.Length1 == W
      && diff != cmndiff
      && est.Length == TMAX
    }

    ghost predicate Shape()
      reads this`head, this`ho
    {
      Sizes() && head < N && ho < TMAX
    }

    /** The delay line, oldest sample first. */
    ghost function View(): (x: seq<real>)
      requires Shape()
      reads this`head, this`ho, in_
      ensures |x| == 2 * W
    {
      in_[head..] + in_[..head]
    }

    /** Row n of the differences. */
    ghost function Diffs(n: nat): (d: seq<real>)
      requires Sizes() && n < TMAX
      reads diff
      ensures |d| == W && forall i :: 0 <= i < W ==> d[i] == diff[n, i]
    {
      seq(W, i requires 0 <= i < W reads diff => diff[n, i])
    }

    /** Row n of the normalised differences. */
    ghost function Values(n: nat): (c: seq<real>)
      requires Sizes() && n < TMAX
      reads cmndiff
      ensures |c| == W && forall i :: 0 <= i < W ==> c[i] == cmndiff[n, i]
    {
      seq(W, i requires 0 <= i < W reads cmndiff => cmndiff[n, i])
    }

    /** Row n holds the differences and normalised differences of the delay line x. */
    ghost predicate Solves(n: nat, x: seq<real>)
      requires Sizes() && n < TMAX && |x| == 2 * W
      reads diff, cmndiff
    {
      Diffs(n) == DifferenceRow(x, W) && Values(n) == NormalisedRow(x, W)
    }

    ghost predicate Solved()
      requires Sizes()
      reads this`solved, diff, cmndiff
    {
      |solved| == TMAX && forall n :: 0 <= n < TMAX ==> |solved[n]| == 2 * W && Solves(n, solved[n])
    }

    /** Every row of the ring solves the delay line of the tick that wrote it; of silence, if there was
        no such tick. */
    ghost predicate Valid()
      reads this, in_, diff, cmndiff
    {
      Shape() && View() == Line(W, heard) && Solved() && IsHistory(solved, heard, ho, W)
    }

    /** Any sizes, as `build` accepts them; what the ticks need is a window of at least three samples
        and a ring of at least three solutions. */
    constructor (windowSize: nat, tmax: nat)
      ensures W == windowSize && TMAX == (if tmax % 2 == 0 then tmax + 1 else tmax)
      ensures windowSize >= 3 && tmax >= 2 ==> Valid() && heard == []
      ensures fresh(in_) && fresh(diff) && fresh(cmndiff) && fresh(est)
    {
      W := windowSize;
      N := 2 * windowSize;
      var t := if tmax % 2 == 0 then tmax + 1 else tmax;
      TMAX := t;
      head, ho, heard := 0, 0, [];
      solved := seq(t, _ => Zeros(2 * windowSize));
      in_ := new real[2 * windowSize](_ => 0.0);
      diff := new real[t, windowSize]((_, _) => 0.0);
      cmndiff := new real[t, windowSize]((_, j) => if j == 0 then 1.0 else 0.0);
      est := new nat[t](_ => 0);
      threshold := 0.1;
      new;
      if windowSize >= 3 && tmax >= 2 {
        SilenceValid();
      }
    }

    lemma SilenceValid()
      requires Shape() && heard == [] && View() == Zeros(2 * W) && solved == seq(TMAX, _ => Zeros(2 * W))
      requires forall n, k :: 0 <= n < TMAX && 0 <= k < W ==>
        diff[n, k] == 0.0 && cmndiff[n, k] == if k == 0 then 1.0 else 0.0
      ensures Valid()
    {
      forall n | 0 <= n < TMAX
        ensures Solves(n, solved[n])
      {
        SilenceSolved(n);
      }
    }

    /** Clear everything: silence and its solutions. */
    method Reset()
      requires Shape()
      modifies this`head, this`ho, this`heard, this`solved, in_, diff, cmndiff, est
      ensures Valid() && heard == []
      ensures forall n :: 0 <= n < TMAX ==> est[n] == 0
    {
      ClearInput();
      ho := 0;
      ClearSolutions();
      heard, solved := [], seq(TMAX, _ => Zeros(2 * W));
      SilenceValid();
    }

    method ClearSolutions()
      requires Shape()
      modifies diff, cmndiff, est
      ensures forall n, k :: 0 <= n < TMAX && 0 <= k < W ==>
        diff[n, k] == 0.0 && cmndiff[n, k] == if k == 0 then 1.0 else 0.0
      ensures forall n :: 0 <= n < TMAX ==> est[n] == 0
    {
      for i := 0 to TMAX
        invariant forall n, k :: 0 <= n < i && 0 <= k < W ==>
          diff[n, k] == 0.0 && cmndiff[n, k] == if k == 0 then 1.0 else 0.0
        invariant forall n :: 0 <= n < i ==> est[n] == 0
      {
        est[i] := 0;
        ClearRow(i);
      }
    }

    method ClearInput()
      requires Shape()
      modifies this`head, in_
      ensures Shape() && View() == Zeros(2 * W)
    {
      head := 0;
      for i := 0 to N
        invariant Shape() && head == 0 && forall k :: 0 <= k < i ==> in_[k] == 0.0
      {
        in_[i] := 0.0;
      }
    }

    lemma SilenceSolved(n: nat)
      requires Shape() && n < TMAX
      requires forall k :: 0 <= k < W ==> diff[n, k] == 0.0 && cmndiff[n, k] == if k == 0 then 1.0 else 0.0
      ensures Solves(n, Zeros(2 * W))
    {
      forall i | 1 <= i < W
        ensures Difference(Zeros(2 * W), i, W) == 0.0 && Normalised(Zeros(2 * W), W, i) == 0.0
      {
        ZeroDifference(2 * W, i, W);
      }
    }

    method ClearRow(n: nat)
      requires Shape() && n < TMAX
      modifies diff, cmndiff
      ensures forall k :: 0 <= k < W ==> diff[n, k] == 0.0 && cmndiff[n, k] == if k == 0 then 1.0 else 0.0
      ensures forall m, k :: 0 <= m < TMAX && m != n && 0 <= k < W ==>
        diff[m, k] == old(diff[m, k]) && cmndiff[m, k] == old(cmndiff[m, k])
    {
      diff[n, 0] := 0.0;
      cmndiff[n, 0] := 1.0;
      for j := 1 to W
        invariant forall k :: 0 <= k < j ==> diff[n, k] == 0.0 && cmndiff[n, k] == if k == 0 then 1.0 else 0.0
        invariant forall m, k :: 0 <= m < TMAX && m != n && 0 <= k < W ==>
          diff[m, k] == old(diff[m, k]) && cmndiff[m, k] == old(cmndiff[m, k])
      {
        diff[n, j] := 0.0;
        cmndiff[n, j] := 0.0;
      }
    }

    method PushInput(s: real)
      requires Shape()
      modifies this`head, in_
      ensures Shape() && View() == Shift(old(View()), s)
    {
      in_[head] := s;
      head := head + 1;
      if head >= N {
        head := 0;
      }
    }

    method PushSolution()
      requires Shape()
      modifies this`ho
      ensures Shape() && ho == if old(ho) + 1 >= TMAX then 0 else old(ho) + 1
    {
      ho := ho + 1;
      if ho >= TMAX {
        ho := 0;
      }
    }

    /** `getSample`: the delay line counted from the oldest sample. */
    method GetSample(delay: nat) returns (r: real)
      requires Shape() && delay < N
      ensures r == View()[delay]
    {
      var n := head + delay;
      if n >= N {
        n := n - N;
      }
      r := in_[n];
    }

    /** `getSolution`: the row of the solution that is n steps after the oldest. */
    function Row(n: nat): (r: nat)
      requires Shape() && n < TMAX
      reads this`head, this`ho
      ensures r < TMAX
    {
      if n + ho >= TMAX then n + ho - TMAX else n + ho
    }

    /** One step of the estimator: the new solution is computed from the previous one by adding
        and removing one term per lag, and it is the direct sum over the new window. `past` is the
        value found one past the end of the row, which the search for dips looks at. */
    method Tick(s: real, past: real)
      requires Valid()
      modifies this`head, this`ho, this`heard, this`solved, in_, diff, cmndiff, est
      ensures Valid() && heard == old(heard) + [s] && View() == Shift(old(View()), s)
      ensures Solves(Row(TMAX - 1), View())
      ensures forall n :: 0 <= n < TMAX && n != Row(TMAX - 1) ==>
        Diffs(n) == old(Diffs(n)) && Values(n) == old(Values(n))
      ensures Chosen(Searched(Row(TMAX - 1), past), 2, W - 1, threshold, est[Row(TMAX - 1)])
      ensures est[Row(TMAX - 1)] == Found(NormalisedRow(View(), W), past, 2, W - 1, threshold)
    {
      NewSolution(s);
      EstimateNewest(past);
    }

    method EstimateNewest(past: real)
      requires Valid() && Solves(Row(TMAX - 1), View()) && est[Row(TMAX - 1)] == 0
      modifies est
      ensures Valid() && View() == old(View())
      ensures forall n :: 0 <= n < TMAX ==> Diffs(n) == old(Diffs(n)) && Values(n) == old(Values(n))
      ensures Chosen(Searched(Row(TMAX - 1), past), 2, W - 1, threshold, est[Row(TMAX - 1)])
      ensures est[Row(TMAX - 1)] == Found(NormalisedRow(View(), W), past, 2, W - 1, threshold)
    {
      EstimateFreq(Row(TMAX - 1), 0, W, past);
    }

    /** The next row of the ring takes the solution for one more sample. */
    method NewSolution(s: real)
      requires Valid()
      modifies this`head, this`ho, this`heard, this`solved, in_, diff, cmndiff, est
      ensures Valid() && heard == old(heard) + [s] && View() == Shift(old(View()), s)
      ensures Solves(Row(TMAX - 1), View()) && est[Row(TMAX - 1)] == 0
      ensures forall n :: 0 <= n < TMAX && n != Row(TMAX - 1) ==>
        Diffs(n) == old(Diffs(n)) && Values(n) == old(Values(n))
    {
      PushSolution();
      var cur, prev := Row(TMAX - 1), Row(TMAX - 2);
      assert cur == old(ho) && View() == old(View());
      NewestSolved(solved, heard, old(ho), W, prev);
      est[cur] := 0;
      AddSolution(s, cur, prev);
      ghost var x := View();
      HistoryTurns(old(solved), heard, s, old(ho), W, ho, x);
      assert solved == old(solved)[old(ho) := x];
      heard := heard + [s];
      assert View() == x && IsHistory(solved, heard, ho, W);
    }

    method AddSolution(s: real, cur: nat, prev: nat)
      requires Shape() && Solved() && cur < TMAX && prev < TMAX && cur != prev && solved[prev] == View()
      modifies this`head, this`solved, in_, diff, cmndiff
      ensures Shape() && View() == Shift(old(View()), s)
      ensures solved == old(solved)[cur := View()] && Solved() && Solves(cur, View())
      ensures forall n :: 0 <= n < TMAX && n != cur ==> Diffs(n) == old(Diffs(n)) && Values(n) == old(Values(n))
    {
      assert Solves(prev, solved[prev]) && Solves(cur, solved[cur]);
      ComputeDiff(s, cur, prev);
      solved := solved[cur := View()];
    }

    /** The loop of the source, with what it leaves in the rows. */
    method ComputeDiff(s: real, cur: nat, prev: nat)
      requires Shape() && cur < TMAX && prev < TMAX && cur != prev
      requires Diffs(cur)[0] == 0.0 && Values(cur)[0] == 1.0 && Solves(prev, View())
      modifies this`head, in_, diff, cmndiff
      ensures Shape() && View() == Shift(old(View()), s) && Solves(cur, View())
      ensures forall n :: 0 <= n < TMAX && n != cur ==> Diffs(n) == old(Diffs(n)) && Values(n) == old(Values(n))
    {
      assert forall i :: 1 <= i < W ==> diff[prev, i] == Diffs(prev)[i] == DifferenceRow(View(), W)[i];
      ComputeRow(s, cur, prev);
      forall i | 0 <= i < W
        ensures Diffs(cur)[i] == DifferenceRow(View(), W)[i] && Values(cur)[i] == NormalisedRow(View(), W)[i]
      {
      }
    }

    method ComputeRow(s: real, cur: nat, prev: nat)
      requires Shape() && cur < TMAX && prev < TMAX && cur != prev
      requires cmndiff[cur, 0] == 1.0
      requires forall i :: 1 <= i < W ==> diff[prev, i] == Difference(View(), i, W)
      modifies this`head, in_, diff, cmndiff
      ensures Shape() && View() == Shift(old(View()), s)
      ensures cmndiff[cur, 0] == 1.0 && diff[cur, 0] == old(diff[cur, 0])
      ensures forall i :: 1 <= i < W ==> diff[cur, i] == Difference(View(), i, W) && cmndiff[cur, i] == Normalised(View(), W, i)
      ensures forall n, i :: 0 <= n < TMAX && n != cur && 0 <= i < W ==>
        diff[n, i] == old(diff[n, i]) && cmndiff[n, i] == old(cmndiff[n, i])
    {
      ghost var x := View();
      var sum := 1.0;
      var ii := 1.0;
      var sm1 := GetSample(0);
      PushInput(s);
      ghost var y := View();
      var sw := GetSample(W - 1);
      for i := 1 to W
        invariant Shape() && View() == y && cmndiff[cur, 0] == 1.0 && diff[cur, 0] == old(diff[cur, 0])
        invariant ii == i as real && sum == Normaliser(y, W, i - 1)
        invariant forall k :: 1 <= k < W ==> diff[prev, k] == Difference(x, k, W)
        invariant forall k :: 1 <= k < i ==> diff[cur, k] == Difference(y, k, W) && cmndiff[cur, k] == Normalised(y, W, k)
        invariant forall n, k :: 0 <= n < TMAX && n != cur && 0 <= k < W ==>
          diff[n, k] == old(diff[n, k]) && cmndiff[n, k] == old(cmndiff[n, k])
      {
        sum := StoreLag(i, cur, prev, sm1, sw, sum, ii, x, s);
        ii := ii + 1.0;
      }
    }

    /** The body of the loop: one term added, one removed, the running sum and the quotient. */
    method StoreLag(i: nat, cur: nat, prev: nat, sm1: real, sw: real, sum: real, ii: real,
                    ghost x: seq<real>, ghost s: real) returns (total: real)
      requires Shape() && cur < TMAX && prev < TMAX && cur != prev && 1 <= i < W
      requires |x| == 2 * W && View() == Shift(x, s)
      requires sm1 == x[0] && sw == View()[W - 1] && ii == i as real
      requires sum == Normaliser(View(), W, i - 1) && diff[prev, i] == Difference(x, i, W)
      modifies diff, cmndiff
      ensures total == Normaliser(View(), W, i)
      ensures diff[cur, i] == Difference(View(), i, W) && cmndiff[cur, i] == Normalised(View(), W, i)
      ensures forall n, k :: 0 <= n < TMAX && 0 <= k < W && !(n == cur && k == i) ==>
        diff[n, k] == old(diff[n, k]) && cmndiff[n, k] == old(cmndiff[n, k])
    {
      StoreDifference(i, cur, prev, sm1, sw, x, s);
      total := sum + diff[cur, i];
      assert total == Normaliser(View(), W, i);
      cmndiff[cur, i] := ii * (diff[cur, i] / total);
    }

    method StoreDifference(i: nat, cur: nat, prev: nat, sm1: real, sw: real, ghost x: seq<real>, ghost s: real)
      requires Shape() && cur < TMAX && prev < TMAX && cur != prev && 1 <= i < W
      requires |x| == 2 * W && View() == Shift(x, s)
      requires sm1 == x[0] && sw == View()[W - 1] && diff[prev, i] == Difference(x, i, W)
      modifies diff
      ensures diff[cur, i] == Difference(View(), i, W)
      ensures forall n, k :: 0 <= n < TMAX && 0 <= k < W && !(n == cur && k == i) ==> diff[n, k] == old(diff[n, k])
    {
      var far := GetSample(i + W - 1);
      var near := GetSample(i - 1);
      var d2, d1 := sw - far, sm1 - near;
      var d := diff[prev, i] + ((d2 + d1) * (d2 - d1));
      LagSlides(x, s, W, i, d);
      diff[cur, i] := d;
    }

    method EstimateFreq(n: nat, mn: int, mx: int, past: real)
      requires Shape() && n < TMAX && mn < W && mx >= 0 && est[n] == 0
      modifies est
      ensures Chosen(Searched(n, past), SearchFrom(mn), SearchTo(mx), threshold, est[n])
      ensures est[n] == Found(Values(n), past, SearchFrom(mn), SearchTo(mx), threshold)
      ensures View() == old(View()) && (old(Valid()) ==> Valid())
      ensures forall k :: 0 <= k < TMAX ==> Diffs(k) == old(Diffs(k)) && Values(k) == old(Values(k))
      ensures forall k :: 0 <= k < TMAX && k != n ==> est[k] == old(est[k])
    {
      var e := GetDip(n, mn, mx, past);
      if e != 0 {
        est[n] := e;
      }
    }

    /** Row n of the normalised differences and what lies past it. */
    ghost function Searched(n: nat, past: real): (c: seq<real>)
      requires Sizes() && n < TMAX
      reads cmndiff
      ensures |c| == W + 1
    {
      Values(n) + [past]
    }

    function SearchFrom(mn: int): nat {
      if mn < 2 then 2 else mn
    }

    function SearchTo(mx: int): nat
      requires W >= 1 && mx >= 0
    {
      if mx >= W then W - 1 else mx
    }

    method GetDip(n: nat, mn: int, mx: int, past: real) returns (mini: nat)
      requires Shape() && n < TMAX && mn < W && mx >= 0
      ensures Chosen(Searched(n, past), SearchFrom(mn), SearchTo(mx), threshold, mini)
      ensures mini == Found(Values(n), past, SearchFrom(mn), SearchTo(mx), threshold)
    {
      var lo := if mn < 2 then 2 else mn;
      var hi := if mx >= W then W - 1 else mx;
      mini := SearchDip(n, lo, hi, past);
      FoundIsChosen(Values(n), past, lo, hi, threshold);
    }

    method SearchDip(n: nat, lo: nat, hi: nat, past: real) returns (mini: nat)
      requires Shape() && n < TMAX && 1 <= lo < W && hi < W
      ensures mini == Found(Values(n), past, lo, hi, threshold)
    {
      ghost var c := Values(n) + [past];
      var mindip := SENTINEL;
      mini := 0;
      var lt2 := cmndiff[n, lo - 1] < cmndiff[n, lo];
      var i := lo;
      while i <= hi
        invariant lo <= i <= W && lt2 == (c[i - 1] < c[i])
        invariant Search(c, hi, threshold, i, mini, mindip) == Search(c, hi, threshold, lo, 0, SENTINEL)
      {
        var lt1 := lt2;
        var after := if i + 1 < W then cmndiff[n, i + 1] else past;
        assert c[i] == cmndiff[n, i] && c[i + 1] == after;
        lt2 := cmndiff[n, i] < after;
        if !lt1 && lt2 {
          if cmndiff[n, i] < mindip {
            mindip := cmndiff[n, i];
            mini := i;
            if mindip < threshold {
              break;
            }
          }
        }
        i := i + 1;
      }
    }
  }

  /** What one round of the loop stores is the direct sum at that lag. */
  lemma LagSlides(x: seq<real>, s: real, W: nat, i: nat, d: real)
    requires W >= 1 && |x| == 2 * W && 1 <= i < W
    requires var y := Shift(x, s);
             d == Update(Difference(x, i, W), x[0] - y[i - 1], y[W - 1] - y[i + W - 1])
    ensures d == Difference(Shift(x, s), i, W)
  {
    var y := Shift(x, s);
    Slide(x, s, W, i);
    assert y[i - 1] == x[i];
    UpdateIsSlide(Difference(x, i, W), x[0] - x[i], y[W - 1] - y[i + W - 1]);
  }

  /** How many ticks ago row n was written, if the ring starts at ho. */
  function Ago(n: nat, ho: nat, size: nat): (ago: nat)
    requires n < size && ho < size
    ensures ago < size
  {
    if n < ho then ho - 1 - n else ho - 1 - n + size
  }

  /** The samples up to `ago` ticks before the last; none if there were fewer. */
  function Earlier(heard: seq<real>, ago: nat): seq<real> {
    if ago <= |heard| then heard[..|heard| - ago] else []
  }

  /** The delay lines behind the rows are those after all but the last 0, 1, 2 ... samples. */
  ghost predicate IsHistory(solved: seq<seq<real>>, heard: seq<real>, ho: nat, W: nat)
    requires W >= 1 && ho < |solved|
  {
    forall n :: 0 <= n < |solved| ==> solved[n] == Line(W, Earlier(heard, Ago(n, ho, |solved|)))
  }

  lemma NewestSolved(solved: seq<seq<real>>, heard: seq<real>, ho: nat, W: nat, n: nat)
    requires W >= 1 && ho < |solved| && IsHistory(solved, heard, ho, W)
    requires n == if ho == 0 then |solved| - 1 else ho - 1
    ensures solved[n] == Line(W, heard)
  {
    assert Ago(n, ho, |solved|) == 0 && Earlier(heard, 0) == heard;
  }

  lemma LineSnoc(W: nat, heard: seq<real>, s: real)
    requires W >= 1
    ensures Line(W, heard + [s]) == Shift(Line(W, heard), s)
  {
    assert (heard + [s])[..|heard|] == heard;
  }

  /** The ring moves on by one, and the row that was the oldest takes the newest delay line. */
  lemma HistoryTurns(solved: seq<seq<real>>, heard: seq<real>, s: real, ho: nat, W: nat, next: nat, x: seq<real>)
    requires W >= 1 && ho < |solved| && IsHistory(solved, heard, ho, W)
    requires next == (if ho + 1 >= |solved| then 0 else ho + 1) && x == Shift(Line(W, heard), s)
    ensures x == Line(W, heard + [s]) && IsHistory(solved[ho := x], heard + [s], next, W)
  {
    var size := |solved|;
    LineSnoc(W, heard, s);
    forall n | 0 <= n < size
      ensures solved[ho := x][n] == Line(W, Earlier(heard + [s], Ago(n, next, size)))
    {
      if n == ho {
        assert Earlier(heard + [s], 0) == heard + [s];
      } else {
        EarlierSnoc(heard, s, Ago(n, next, size));
        assert Ago(n, next, size) - 1 == Ago(n, ho, size);
      }
    }
  }

  lemma EarlierSnoc(heard: seq<real>, s: real, ago: nat)
    requires ago >= 1
    ensures Earlier(heard + [s], ago) == Earlier(heard, ago - 1)
  {
  }
}
