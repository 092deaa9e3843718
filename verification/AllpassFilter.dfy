/** The all-pass lines as a filter: the difference equation that both of them solve. */
module AllpassFilter {
  import opened Samples
  import opened Allpass

  /** At every sample the cell is given the value that was stored a length of the line ago: the line's first
      contents, and then what the run has written. */
  lemma {:induction false} CellAt(q: Delay, cell: Cell, xs: seq<real>, t: nat)
    requires t < |xs|
    ensures var ws := Written(q, cell, xs);
            var d := (q + ws)[t];
            ws[t] == cell(d, xs[t]).0 && Run(q, cell, xs).1[t] == cell(d, xs[t]).1
    decreases |xs|
  {
    var (q1, y) := Step(q, cell, xs[0]);
    var ws, rest := Written(q, cell, xs), Written(q1, cell, xs[1..]);
    assert ws == [cell(q[0], xs[0]).0] + rest;
    if t > 0 {
      CellAt(q1, cell, xs[1..], t - 1);
      assert (q + ws)[t] == (q1 + rest)[t - 1];
    }
  }

  /** From a cleared line of length n: what is found at sample t. */
  function Found(n: nat, ws: seq<real>, t: nat): real
    requires n >= 1 && t < |ws| + n
  {
    if t < n then 0.0 else ws[t - n]
  }

  lemma ClearedCellAt(n: nat, cell: Cell, xs: seq<real>, t: nat)
    requires n >= 1 && t < |xs|
    ensures var ws := Written(Cleared(n), cell, xs);
            var d := Found(n, ws, t);
            ws[t] == cell(d, xs[t]).0 && Run(Cleared(n), cell, xs).1[t] == cell(d, xs[t]).1
  {
    CellAt(Cleared(n), cell, xs, t);
  }

  /** Store the input and g times what was found; put out what was found less g times what was stored. */
  ghost predicate Feeds(cell: Cell, g: real) {
    forall d: real, x: real :: Stored(g, d, x, cell(d, x).0, cell(d, x).1)
  }

  predicate Stored(g: real, d: real, x: real, v: real, y: real) {
    v == x + g * d && y == d - g * v
  }

  /** The filter's answer to input x, from the input u and the output z of a length of the line ago. */
  function Answer(g: real, x: real, u: real, z: real): real {
    -g * x + u + g * z
  }

  lemma StoredAt(n: nat, cell: Cell, g: real, xs: seq<real>, t: nat)
    requires n >= 1 && t < |xs| && Feeds(cell, g)
    ensures var ws := Written(Cleared(n), cell, xs);
            Stored(g, Found(n, ws, t), xs[t], ws[t], Run(Cleared(n), cell, xs).1[t])
  {
    var ws := Written(Cleared(n), cell, xs);
    ClearedCellAt(n, cell, xs, t);
    var d, x := Found(n, ws, t), xs[t];
    assert Stored(g, d, x, cell(d, x).0, cell(d, x).1);
  }

  ghost predicate AllStored(n: nat, g: real, xs: seq<real>, ws: seq<real>, ys: seq<real>)
    requires n >= 1
  {
    |xs| == |ws| == |ys| && forall t :: 0 <= t < |xs| ==> Stored(g, Found(n, ws, t), xs[t], ws[t], ys[t])
  }

  /** The filter of length n and gain g: every output is the input times minus the gain, and the input n samples
      ago, and the gain times the output n samples ago; before the start there was silence. */
  ghost predicate Filtered(n: nat, g: real, xs: seq<real>, ys: seq<real>)
    requires n >= 1
  {
    |xs| == |ys| && forall t :: 0 <= t < |xs| ==> Answers(n, g, xs, ys, t)
  }

  predicate Answers(n: nat, g: real, xs: seq<real>, ys: seq<real>, t: nat)
    requires n >= 1 && t < |xs| == |ys|
  {
    ys[t] == if t < n then Answer(g, xs[t], 0.0, 0.0) else Answer(g, xs[t], xs[t - n], ys[t - n])
  }

  lemma RunStored(n: nat, cell: Cell, g: real, xs: seq<real>)
    requires n >= 1 && Feeds(cell, g)
    ensures AllStored(n, g, xs, Written(Cleared(n), cell, xs), Run(Cleared(n), cell, xs).1)
  {
    forall t | 0 <= t < |xs|
      ensures var ws := Written(Cleared(n), cell, xs);
              Stored(g, Found(n, ws, t), xs[t], ws[t], Run(Cleared(n), cell, xs).1[t])
    {
      StoredAt(n, cell, g, xs, t);
    }
  }

  lemma StoredFiltered(n: nat, g: real, xs: seq<real>, ws: seq<real>, ys: seq<real>)
    requires n >= 1 && AllStored(n, g, xs, ws, ys)
    ensures Filtered(n, g, xs, ys)
  {
    forall t | 0 <= t < |xs|
      ensures Answers(n, g, xs, ys, t)
    {
      Solves(n, g, xs, ws, ys, t);
    }
  }

  lemma Solves(n: nat, g: real, xs: seq<real>, ws: seq<real>, ys: seq<real>, t: nat)
    requires n >= 1 && t < |xs| == |ws| == |ys|
    requires Stored(g, Found(n, ws, t), xs[t], ws[t], ys[t])
    requires t >= n ==> Stored(g, Found(n, ws, t - n), xs[t - n], ws[t - n], ys[t - n])
    ensures Answers(n, g, xs, ys, t)
  {
  }

  /** Both lines, from cleared, are that filter. */
  lemma DelayEquation(n: nat, g: real, xs: seq<real>)
    requires n >= 1
    ensures Filtered(n, g, xs, Run(Cleared(n), DelayCell(g), xs).1)
  {
    RunStored(n, DelayCell(g), g, xs);
    StoredFiltered(n, g, xs, Written(Cleared(n), DelayCell(g), xs), Run(Cleared(n), DelayCell(g), xs).1);
  }

  lemma VerbEquation(n: nat, g: real, xs: seq<real>)
    requires n >= 1
    ensures Filtered(n, g, xs, Run(Cleared(n), VerbCell(g), xs).1)
  {
    SameFilter(n, g, xs);
    DelayEquation(n, g, xs);
  }
}
