/** The all-pass delay lines as queues of cells: their energy, and the equality of two of them. */
module Allpass {
  import opened Samples

  /** The sum of the squares, each times w. */
  function Energy(w: real, q: seq<real>): real {
    if q == [] then 0.0 else w * Sq(q[0]) + Energy(w, q[1..])
  }

  /** A delay line, oldest value first. */
  type Delay = q: seq<real> | |q| >= 1 witness [0.0]

  /** What a line does with its oldest value and the input: the value stored and the output. */
  type Cell = (real, real) -> (real, real)

  function Step(q: Delay, cell: Cell, x: real): (r: (Delay, real))
    ensures |r.0| == |q|
  {
    var (v, y) := cell(q[0], x);
    (q[1..] + [v], y)
  }

  function Run(q: Delay, cell: Cell, xs: seq<real>): (r: (Delay, seq<real>))
    ensures |r.0| == |q| && |r.1| == |xs|
    decreases |xs|
  {
    if xs == [] then (q, [])
    else
      var (q1, y) := Step(q, cell, xs[0]);
      var (q2, ys) := Run(q1, cell, xs[1..]);
      (q2, [y] + ys)
  }

  /** `AllpassDelay::getSample` with gain g. */
  function DelayCell(g: real): Cell {
    (d: real, x: real) => (x + d * g, d + (x + d * g) * (-1.0 * g))
  }

  /** The all-pass of MVerb with feedback g, which stores another value. */
  function VerbCell(g: real): Cell {
    (b: real, x: real) => (x + (b + x * -g) * g, b + x * -g)
  }

  /** A plain delay. */
  function PlainCell(): Cell {
    (b: real, x: real) => (x, b)
  }

  // ---- energy ----

  /** At every step: weighted output energy plus weighted stored energy is what came in and was
      there. */
  ghost predicate Lossless(cell: Cell, a: real, b: real) {
    forall d: real, x: real ::
      a * Sq(cell(d, x).1) + b * Sq(cell(d, x).0) == a * Sq(x) + b * Sq(d)
  }

  /** The weight of the values an all-pass stores. */
  function Weight(g: real): real {
    1.0 - g * g
  }

  lemma DelayIdentity(d: real, g: real, x: real)
    ensures var (v, y) := DelayCell(g)(d, x); Sq(y) + Weight(g) * Sq(v) == Sq(x) + Weight(g) * Sq(d)
  {
    var a := d * g;
    var v := x + a;
    var y := d - v * g;
    assert d + v * (-1.0 * g) == y;
    assert v * g == x * g + a * g;
    assert Sq(y) == d * d - 2.0 * (d * (v * g)) + (v * g) * (v * g);
    assert d * (v * g) == a * v;
    assert (v * g) * (v * g) == (g * g) * (v * v);
    assert Sq(x) == (v - a) * (v - a) == v * v - 2.0 * (a * v) + a * a;
    assert a * a == (g * g) * (d * d);
  }

  lemma VerbIdentity(b: real, g: real, x: real)
    ensures var (v, y) := VerbCell(g)(b, x); Weight(g) * Sq(y) + Sq(v) == Weight(g) * Sq(x) + Sq(b)
  {
    var y := b + x * -g;
    assert b == y + x * g;
    assert Sq(b) == y * y + 2.0 * ((x * g) * y) + (x * g) * (x * g);
    assert Sq(x + y * g) == x * x + 2.0 * (x * (y * g)) + (y * g) * (y * g);
    assert (x * g) * y == x * (y * g);
    assert (x * g) * (x * g) == (g * g) * (x * x);
    assert (y * g) * (y * g) == (g * g) * (y * y);
  }

  lemma {:induction false} EnergyAppend(w: real, q: seq<real>, v: real)
    ensures Energy(w, q + [v]) == Energy(w, q) + w * Sq(v)
  {
    if q != [] {
      assert (q + [v])[1..] == q[1..] + [v];
      EnergyAppend(w, q[1..], v);
    }
  }

  lemma EnergyCons(w: real, y: real, ys: seq<real>)
    ensures Energy(w, [y] + ys) == w * Sq(y) + Energy(w, ys)
  {
    assert ([y] + ys)[1..] == ys;
  }

  lemma {:induction false} EnergyNonNegative(w: real, q: seq<real>)
    requires w >= 0.0
    ensures Energy(w, q) >= 0.0
  {
    if q != [] {
      EnergyNonNegative(w, q[1..]);
      assert w * Sq(q[0]) >= 0.0;
    }
  }

  lemma StepConserves(q: Delay, cell: Cell, a: real, b: real, x: real)
    requires Lossless(cell, a, b)
    ensures var (q1, y) := Step(q, cell, x);
            a * Sq(y) + Energy(b, q1) == a * Sq(x) + Energy(b, q)
  {
    EnergyAppend(b, q[1..], cell(q[0], x).0);
  }

  /** Weighted output energy and stored energy are conserved, on every input from every state. */
  lemma {:induction false} RunConserves(q: Delay, cell: Cell, a: real, b: real, xs: seq<real>)
    requires Lossless(cell, a, b)
    ensures var (q2, ys) := Run(q, cell, xs);
            Energy(a, ys) + Energy(b, q2) == Energy(a, xs) + Energy(b, q)
    decreases |xs|
  {
    if xs != [] {
      var (q1, y) := Step(q, cell, xs[0]);
      StepConserves(q, cell, a, b, xs[0]);
      RunConserves(q1, cell, a, b, xs[1..]);
      EnergyCons(a, y, Run(q1, cell, xs[1..]).1);
    }
  }

  /** `AllpassDelay`, for every gain. */
  lemma DelayLossless(g: real)
    ensures Lossless(DelayCell(g), 1.0, Weight(g))
  {
    forall d: real, x: real
      ensures 1.0 * Sq(DelayCell(g)(d, x).1) + Weight(g) * Sq(DelayCell(g)(d, x).0) == 1.0 * Sq(x) + Weight(g) * Sq(d)
    {
      DelayIdentity(d, g, x);
    }
  }

  /** MVerb's form, whose stored values carry the weight already. */
  lemma VerbLossless(g: real)
    ensures Lossless(VerbCell(g), Weight(g), 1.0)
  {
    forall b: real, x: real
      ensures Weight(g) * Sq(VerbCell(g)(b, x).1) + 1.0 * Sq(VerbCell(g)(b, x).0) == Weight(g) * Sq(x) + 1.0 * Sq(b)
    {
      VerbIdentity(b, g, x);
    }
  }

  /** A line of n zero cells. */
  function Cleared(n: nat): (q: Delay)
    requires n >= 1
  {
    Zeros(n)
  }

  lemma {:induction false} ClearedEnergy(w: real, n: nat)
    requires n >= 1
    ensures Energy(w, Cleared(n)) == 0.0
    decreases n
  {
    assert Cleared(n)[1..] == Zeros(n - 1);
    if n > 1 {
      ClearedEnergy(w, n - 1);
    }
  }

  /** No input makes the line put out more energy than it took in. */
  ghost predicate Passive(n: nat, cell: Cell)
    requires n >= 1
  {
    forall xs: seq<real> :: Energy(1.0, Run(Cleared(n), cell, xs).1) <= Energy(1.0, xs)
  }

  lemma PassiveRun(n: nat, cell: Cell, b: real, xs: seq<real>)
    requires n >= 1 && b >= 0.0 && Lossless(cell, 1.0, b)
    ensures Energy(1.0, Run(Cleared(n), cell, xs).1) <= Energy(1.0, xs)
  {
    ClearedEnergy(b, n);
    RunConserves(Cleared(n), cell, 1.0, b, xs);
    EnergyNonNegative(b, Run(Cleared(n), cell, xs).0);
  }

  /** A cleared line is passive for the gains up to one in magnitude and for no others. */
  lemma PassiveIff(n: nat, g: real)
    requires n >= 1
    ensures Passive(n, DelayCell(g)) <==> g * g <= 1.0
  {
    var cell := DelayCell(g);
    if g * g <= 1.0 {
      DelayLossless(g);
      forall xs: seq<real>
        ensures Energy(1.0, Run(Cleared(n), cell, xs).1) <= Energy(1.0, xs)
      {
        PassiveRun(n, cell, Weight(g), xs);
      }
    } else {
      var (q1, y) := Step(Cleared(n), cell, 1.0);
      assert y == -g;
      assert Run(q1, cell, []).1 == [];
      assert Run(Cleared(n), cell, [1.0]).1 == [y];
      EnergyCons(1.0, y, []);
      EnergyCons(1.0, 1.0, []);
      assert [y] + [] == [y] && [1.0] + [] == [1.0];
    }
  }

  // ---- a cascade ----

  /** A lossless line with the weight of what it stores. */
  datatype Stage = Stage(line: Delay, cell: Cell, weight: real)

  function Held(s: Stage): real {
    Energy(s.weight, s.line)
  }

  function AllHeld(stages: seq<Stage>): real {
    if stages == [] then 0.0 else Held(stages[0]) + AllHeld(stages[1..])
  }

  function StageRun(s: Stage, xs: seq<real>): (Stage, seq<real>) {
    var (q, ys) := Run(s.line, s.cell, xs);
    (s.(line := q), ys)
  }

  /** Each stage's output block is the next one's input. */
  function Cascade(stages: seq<Stage>, xs: seq<real>): (seq<Stage>, seq<real>)
    decreases |stages|
  {
    if stages == [] then ([], xs)
    else
      var (s, ys) := StageRun(stages[0], xs);
      var (rest, out) := Cascade(stages[1..], ys);
      ([s] + rest, out)
  }

  ghost predicate LosslessStage(s: Stage) {
    Lossless(s.cell, 1.0, s.weight)
  }

  lemma StageConserves(s: Stage, xs: seq<real>)
    requires LosslessStage(s)
    ensures var (t, ys) := StageRun(s, xs); Energy(1.0, ys) + Held(t) == Energy(1.0, xs) + Held(s)
  {
    RunConserves(s.line, s.cell, 1.0, s.weight, xs);
  }

  lemma AllHeldCons(s: Stage, rest: seq<Stage>)
    ensures AllHeld([s] + rest) == Held(s) + AllHeld(rest)
  {
    assert ([s] + rest)[1..] == rest;
  }

  /** A cascade of any lossless lines, of any lengths and gains, conserves energy too. */
  lemma {:induction false} CascadeConserves(stages: seq<Stage>, xs: seq<real>)
    requires forall i :: 0 <= i < |stages| ==> LosslessStage(stages[i])
    ensures var (after, out) := Cascade(stages, xs);
            Energy(1.0, out) + AllHeld(after) == Energy(1.0, xs) + AllHeld(stages)
    decreases |stages|
  {
    if stages != [] {
      var (s, ys) := StageRun(stages[0], xs);
      StageConserves(stages[0], xs);
      CascadeConserves(stages[1..], ys);
      AllHeldCons(s, Cascade(stages[1..], ys).0);
      AllHeldCons(stages[0], stages[1..]);
      assert stages == [stages[0]] + stages[1..];
    }
  }

  lemma {:induction false} HeldNonNegative(stages: seq<Stage>)
    requires forall i :: 0 <= i < |stages| ==> stages[i].weight >= 0.0
    ensures AllHeld(stages) >= 0.0
    decreases |stages|
  {
    if stages != [] {
      EnergyNonNegative(stages[0].weight, stages[0].line);
      HeldNonNegative(stages[1..]);
    }
  }

  lemma {:induction false} CascadeWeights(stages: seq<Stage>, xs: seq<real>)
    ensures |Cascade(stages, xs).0| == |stages|
    ensures forall i :: 0 <= i < |stages| ==> Cascade(stages, xs).0[i].weight == stages[i].weight
    decreases |stages|
  {
    if stages != [] {
      var (s, ys) := StageRun(stages[0], xs);
      CascadeWeights(stages[1..], ys);
    }
  }

  /** So a cascade that starts empty never emits more energy than it took in. */
  lemma CascadePassive(stages: seq<Stage>, xs: seq<real>)
    requires forall i :: 0 <= i < |stages| ==> LosslessStage(stages[i]) && stages[i].weight >= 0.0
    requires AllHeld(stages) == 0.0
    ensures Energy(1.0, Cascade(stages, xs).1) <= Energy(1.0, xs)
  {
    CascadeConserves(stages, xs);
    CascadeWeights(stages, xs);
    HeldNonNegative(Cascade(stages, xs).0);
  }

  // ---- the two forms are one filter ----

  /** Each cell of MVerb's line is the matching delay cell times the weight. */
  ghost predicate Related(v: Delay, d: Delay, w: real) {
    |v| == |d| && forall i :: 0 <= i < |d| ==> v[i] == w * d[i]
  }

  ghost predicate Simulates(f: Cell, c: Cell, w: real) {
    forall b: real, d: real, x: real :: b == w * d ==> f(b, x).0 == w * c(d, x).0 && f(b, x).1 == c(d, x).1
  }

  lemma VerbSimulatesDelay(g: real)
    ensures Simulates(VerbCell(g), DelayCell(g), Weight(g))
  {
    forall b: real, d: real, x: real | b == Weight(g) * d
      ensures VerbCell(g)(b, x).0 == Weight(g) * DelayCell(g)(d, x).0 && VerbCell(g)(b, x).1 == DelayCell(g)(d, x).1
    {
      CellsRelated(b, d, g, x);
    }
  }

  lemma CellsRelated(b: real, c: real, g: real, x: real)
    requires b == Weight(g) * c
    ensures VerbCell(g)(b, x).1 == DelayCell(g)(c, x).1
    ensures VerbCell(g)(b, x).0 == Weight(g) * DelayCell(g)(c, x).0
  {
    var w, y := Weight(g), b + x * -g;
    assert b == c - (g * g) * c;
    assert (c * g) * g == (g * g) * c;
    assert (x + c * g) * (-1.0 * g) == x * -g - (c * g) * g;
    assert y * g == b * g + (x * -g) * g;
    assert (x * -g) * g == -((g * g) * x);
    assert w * (x + c * g) == w * x + w * (c * g);
    assert w * (c * g) == b * g;
    assert w * x == x - (g * g) * x;
  }

  lemma SimulatedCell(f: Cell, c: Cell, w: real, b: real, d: real, x: real)
    requires Simulates(f, c, w) && b == w * d
    ensures f(b, x).0 == w * c(d, x).0 && f(b, x).1 == c(d, x).1
  {
  }

  lemma {:induction false} SimulatedRun(v: Delay, d: Delay, f: Cell, c: Cell, w: real, xs: seq<real>)
    requires Simulates(f, c, w) && Related(v, d, w)
    ensures Run(v, f, xs).1 == Run(d, c, xs).1
    ensures Related(Run(v, f, xs).0, Run(d, c, xs).0, w)
    decreases |xs|
  {
    if xs != [] {
      SimulatedCell(f, c, w, v[0], d[0], xs[0]);
      SimulatedRun(Step(v, f, xs[0]).0, Step(d, c, xs[0]).0, f, c, w, xs[1..]);
    }
  }

  /** From cleared lines of one length, with one gain, the two implementations give the same output
      on every input. */
  lemma SameFilter(n: nat, g: real, xs: seq<real>)
    requires n >= 1
    ensures Run(Cleared(n), VerbCell(g), xs).1 == Run(Cleared(n), DelayCell(g), xs).1
    ensures Related(Run(Cleared(n), VerbCell(g), xs).0, Run(Cleared(n), DelayCell(g), xs).0, Weight(g))
  {
    VerbSimulatesDelay(g);
    SimulatedRun(Cleared(n), Cleared(n), VerbCell(g), DelayCell(g), Weight(g), xs);
  }

  // ---- cascades of either form ----

  function Inverse(w: real): real {
    if w == 0.0 then 0.0 else 1.0 / w
  }

  lemma Divided(w: real, y: real, v: real, x: real, b: real)
    requires w != 0.0 && w * y + v == w * x + b
    ensures 1.0 * y + Inverse(w) * v == 1.0 * x + Inverse(w) * b
  {
    var k := Inverse(w);
    assert k * w == 1.0;
    assert k * (w * y) == (k * w) * y == y && k * (w * x) == (k * w) * x == x;
    assert k * (w * y + v) == k * (w * y) + k * v;
    assert k * (w * x + b) == k * (w * x) + k * b;
  }

  lemma WeightNonZero(g: real)
    requires g != 1.0 && g != -1.0
    ensures Weight(g) != 0.0
  {
    assert Weight(g) == (1.0 - g) * (1.0 + g);
  }

  lemma VerbStageStep(g: real, k: real, b: real, x: real)
    requires Weight(g) != 0.0 && k == Inverse(Weight(g))
    ensures 1.0 * Sq(VerbCell(g)(b, x).1) + k * Sq(VerbCell(g)(b, x).0) == 1.0 * Sq(x) + k * Sq(b)
  {
    VerbIdentity(b, g, x);
    Divided(Weight(g), Sq(VerbCell(g)(b, x).1), Sq(VerbCell(g)(b, x).0), Sq(x), Sq(b));
  }

  /** MVerb's form with the weights of a stage: stored squares count 1/(1-g*g). */
  lemma VerbStage(g: real)
    requires g != 1.0 && g != -1.0
    ensures Lossless(VerbCell(g), 1.0, Inverse(Weight(g)))
  {
    var k := Inverse(Weight(g));
    WeightNonZero(g);
    forall b: real, x: real
      ensures 1.0 * Sq(VerbCell(g)(b, x).1) + k * Sq(VerbCell(g)(b, x).0) == 1.0 * Sq(x) + k * Sq(b)
    {
      VerbStageStep(g, k, b, x);
    }
  }

  /** A line of some length and gain, in the form of `AllpassDelay` or in MVerb's. */
  datatype Unit = Unit(length: nat, gain: real, verb: bool)
  {
    function UnitCell(): Cell {
      if verb then VerbCell(gain) else DelayCell(gain)
    }

    /** What a stored square counts. */
    function UnitWeight(): real {
      if verb then Inverse(Weight(gain)) else Weight(gain)
    }
  }

  /** The cascade of those lines, cleared. */
  function ClearedStages(us: seq<Unit>): (stages: seq<Stage>)
    requires forall i :: 0 <= i < |us| ==> us[i].length >= 1
    ensures |stages| == |us|
  {
    seq(|us|, i requires 0 <= i < |us| => Stage(Cleared(us[i].length), us[i].UnitCell(), us[i].UnitWeight()))
  }

  lemma UnitLossless(u: Unit)
    requires u.verb ==> u.gain != 1.0 && u.gain != -1.0
    ensures Lossless(u.UnitCell(), 1.0, u.UnitWeight())
  {
    if u.verb {
      VerbStage(u.gain);
    } else {
      DelayLossless(u.gain);
    }
  }

  lemma {:induction false} NothingHeld(us: seq<Unit>)
    requires forall i :: 0 <= i < |us| ==> us[i].length >= 1
    ensures AllHeld(ClearedStages(us)) == 0.0
    decreases |us|
  {
    if us != [] {
      assert ClearedStages(us)[1..] == ClearedStages(us[1..]);
      ClearedEnergy(us[0].UnitWeight(), us[0].length);
      NothingHeld(us[1..]);
    }
  }

  /** Any cascade of cleared lines conserves energy: of any lengths and gains, each in either form,
      except that the weight of MVerb's is not defined for a gain of one or minus one. */
  lemma UnitsConserve(us: seq<Unit>, xs: seq<real>)
    requires forall i :: 0 <= i < |us| ==> us[i].length >= 1 && (us[i].verb ==> us[i].gain != 1.0 && us[i].gain != -1.0)
    ensures var (after, out) := Cascade(ClearedStages(us), xs);
            Energy(1.0, out) + AllHeld(after) == Energy(1.0, xs)
  {
    var stages := ClearedStages(us);
    forall i | 0 <= i < |stages|
      ensures LosslessStage(stages[i])
    {
      UnitLossless(us[i]);
    }
    NothingHeld(us);
    CascadeConserves(stages, xs);
  }

  /** MVerb's line too is passive for the gains up to one in magnitude and for no others. */
  lemma VerbPassiveIff(n: nat, g: real)
    requires n >= 1
    ensures Passive(n, VerbCell(g)) <==> g * g <= 1.0
  {
    PassiveIff(n, g);
    forall xs: seq<real>
      ensures Energy(1.0, Run(Cleared(n), VerbCell(g), xs).1) == Energy(1.0, Run(Cleared(n), DelayCell(g), xs).1)
    {
      SameFilter(n, g, xs);
    }
  }

  /** Any cascade of cleared lines with gains up to one in magnitude, of any lengths and each in either
      form, never emits more energy than it took in. */
  lemma {:induction false} UnitsPassive(us: seq<Unit>, xs: seq<real>)
    requires forall i :: 0 <= i < |us| ==> us[i].length >= 1 && us[i].gain * us[i].gain <= 1.0
    ensures Energy(1.0, Cascade(ClearedStages(us), xs).1) <= Energy(1.0, xs)
    decreases |us|
  {
    if us != [] {
      var u := us[0];
      assert ClearedStages(us)[1..] == ClearedStages(us[1..]);
      UnitPassive(u, xs);
      UnitsPassive(us[1..], Run(Cleared(u.length), u.UnitCell(), xs).1);
    }
  }

  lemma UnitPassive(u: Unit, xs: seq<real>)
    requires u.length >= 1 && u.gain * u.gain <= 1.0
    ensures Energy(1.0, Run(Cleared(u.length), u.UnitCell(), xs).1) <= Energy(1.0, xs)
  {
    if u.verb {
      VerbPassiveIff(u.length, u.gain);
    } else {
      PassiveIff(u.length, u.gain);
    }
    assert Passive(u.length, u.UnitCell());
  }

  // ---- what the taps see ----

  /** The values a run writes to its line. */
  function Written(q: Delay, cell: Cell, xs: seq<real>): (ws: seq<real>)
    ensures |ws| == |xs|
    decreases |xs|
  {
    if xs == [] then []
    else [cell(q[0], xs[0]).0] + Written(Step(q, cell, xs[0]).0, cell, xs[1..])
  }

  /** The line holds the last values written, so the tap at offset o reads what was written
      |q| - o samples ago. */
  lemma {:induction false} LineIsHistory(q: Delay, cell: Cell, xs: seq<real>)
    ensures Run(q, cell, xs).0 == (q + Written(q, cell, xs))[|xs|..]
    decreases |xs|
  {
    if xs == [] {
      assert q + [] == q;
    } else {
      var q1 := Step(q, cell, xs[0]).0;
      var ws := Written(q1, cell, xs[1..]);
      LineIsHistory(q1, cell, xs[1..]);
    }
  }

  /** A plain line delays: its outputs and then its contents are its first contents and then its
      inputs. */
  lemma {:induction false} PlainDelays(q: Delay, xs: seq<real>)
    ensures var (q2, ys) := Run(q, PlainCell(), xs); ys + q2 == q + xs
    decreases |xs|
  {
    if xs == [] {
      assert [] + q == q + [];
    } else {
      var q1 := Step(q, PlainCell(), xs[0]).0;
      var (q2, ys) := Run(q1, PlainCell(), xs[1..]);
      PlainDelays(q1, xs[1..]);
      assert ([q[0]] + ys) + q2 == [q[0]] + (ys + q2);
      assert [q[0]] + (q1 + xs[1..]) == q + xs;
    }
  }
}
