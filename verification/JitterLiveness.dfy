/** Equal-size puts and gets in alternation: when playback starts, and that it never stops. */
module JitterLiveness {
  import opened Samples
  import opened JitterRing
  import opened JitterState
  import Runs = JitterRuns

  datatype Round = Round(data: seq<real>, seqNo: uint32, target: Target)

  function Filled(l: Line, r: Round): Line {
    PutLine(l, r.data, r.seqNo)
  }

  /** One put and one get of the same size. */
  function Next(l: Line, r: Round): Line
    requires |r.data| <= 511
  {
    GetLine(Filled(l, r), |r.data|, r.target).0
  }

  /** Blocks of f samples, no sequence number equal to the one before: consecutive numbers, modulo
      2^32, with a first one that is not the number a flushed buffer starts from. */
  ghost predicate Steady(l: Line, f: nat, rs: seq<Round>) {
    && 1 <= f <= 511
    && (forall k :: 0 <= k < |rs| ==> |rs[k].data| == f)
    && (forall k :: 0 <= k < |rs| ==> rs[k].seqNo != if k == 0 then l.lastSequence else rs[k - 1].seqNo)
  }

  function After(l: Line, f: nat, rs: seq<Round>, k: nat): Line
    requires k <= |rs| && f <= 511 && forall i :: 0 <= i < |rs| ==> |rs[i].data| == f
  {
    if k == 0 then l else Next(After(l, f, rs, k - 1), rs[k - 1])
  }

  /** Whether the k-th round, counted from 1, plays samples. */
  predicate PlaysInRound(l: Line, f: nat, rs: seq<Round>, k: nat)
    requires 1 <= k <= |rs| && f <= 511 && forall i :: 0 <= i < |rs| ==> |rs[i].data| == f
  {
    Plays(Filled(After(l, f, rs, k - 1), rs[k - 1]), f)
  }

  /** How many blocks of f samples pass the guard of putIn before it stays shut. */
  function Blocks(f: nat): nat
    requires f >= 1
  {
    MAX_FILL / f + 1
  }

  /** The depth after k puts of f samples and no get. */
  function FillLevel(f: nat, k: nat): nat
    requires f >= 1
  {
    (if k < Blocks(f) then k else Blocks(f)) * f
  }

  lemma QuotientBounds(k: nat, f: nat)
    requires f >= 1
    ensures k * f <= MAX_FILL <==> k < Blocks(f)
  {
    var q := MAX_FILL / f;
    if k <= q {
      TimesMonotone(k, q, f);
    } else {
      TimesMonotone(q + 1, k, f);
      TimesLess(q + 1, f);
    }
  }

  lemma FillLevelGrows(f: nat, k: nat)
    requires f >= 1
    ensures FillLevel(f, k + 1) == FillLevel(f, k) + if FillLevel(f, k) <= MAX_FILL then f else 0
    ensures FillLevel(f, k) <= FillLevel(f, k + 1) && FillLevel(f, k + 1) >= f
  {
    QuotientBounds(if k < Blocks(f) then k else Blocks(f), f);
    assert (k + 1) * f == k * f + f;
    assert Blocks(f) >= 1;
  }

  /** The state between rounds: filling, or playing with a bounded rest in the queue. */
  ghost predicate Between(l: Line, f: nat, fillDepth: int, k: nat)
    requires 1 <= f <= 511
  {
    if k == 0 || FillLevel(f, k) < fillDepth
    then l.filling && l.fillDepth == fillDepth && |l.queue| == FillLevel(f, k)
    else !l.filling && |l.queue| <= MAX_DEPTH - f
  }

  lemma RoundStep(l: Line, f: nat, fillDepth: int, k: nat, r: Round)
    requires 1 <= f <= 511 && |r.data| == f && r.seqNo != l.lastSequence
    requires Between(l, f, fillDepth, k)
    ensures Plays(Filled(l, r), f) <==> FillLevel(f, k + 1) >= fillDepth
    ensures Between(Next(l, r), f, fillDepth, k + 1) && Next(l, r).lastSequence == r.seqNo
  {
    FillLevelGrows(f, k);
    var p := Filled(l, r);
    if k == 0 || FillLevel(f, k) < fillDepth {
      assert |p.queue| == FillLevel(f, k + 1);
    } else {
      assert |p.queue| == |l.queue| + f;
    }
  }

  lemma {:induction false} SteadyRounds(l: Line, f: nat, rs: seq<Round>, k: nat)
    requires Steady(l, f, rs) && k <= |rs| && l.queue == [] && l.filling
    ensures Between(After(l, f, rs, k), f, l.fillDepth, k)
    ensures After(l, f, rs, k).lastSequence == if k == 0 then l.lastSequence else rs[k - 1].seqNo
  {
    if k > 0 {
      SteadyRounds(l, f, rs, k - 1);
      var p, r := After(l, f, rs, k - 1), rs[k - 1];
      assert |r.data| == f && r.seqNo != p.lastSequence;
      RoundStep(p, f, l.fillDepth, k - 1, r);
      assert After(l, f, rs, k) == Next(p, r);
    }
  }

  /** The first round that can play: one block, or as many as the prefill depth needs. */
  function StartRound(f: nat, fillDepth: int): nat
    requires f >= 1
  {
    if fillDepth <= f then 1 else (fillDepth + f - 1) / f
  }

  lemma StartRoundIs(f: nat, fillDepth: int, k: nat)
    requires f >= 1 && k >= 1
    ensures k * f >= fillDepth <==> k >= StartRound(f, fillDepth)
  {
    if fillDepth > f {
      var q := StartRound(f, fillDepth);
      if k >= q {
        TimesMonotone(q, k, f);
      } else {
        TimesMonotone(k, q - 1, f);
        TimesLess(q, f);
      }
    } else {
      TimesMonotone(1, k, f);
    }
  }

  lemma TimesLess(q: nat, f: nat)
    requires q >= 1
    ensures (q - 1) * f == q * f - f
  {
  }

  lemma TimesMonotone(a: nat, b: nat, f: nat)
    requires a <= b
    ensures a * f <= b * f
  {
  }

  lemma FillLevelReaches(f: nat, fillDepth: int, k: nat)
    requires f >= 1 && k >= 1
    ensures FillLevel(f, k) >= fillDepth <==> fillDepth <= Blocks(f) * f && k >= StartRound(f, fillDepth)
  {
    var n := Blocks(f);
    if k < n {
      StartRoundIs(f, fillDepth, k);
      TimesMonotone(k, n, f);
    } else {
      StartRoundIs(f, fillDepth, n);
    }
  }

  lemma RoundPlays(p: Line, f: nat, fillDepth: int, k: nat, r: Round)
    requires 1 <= f <= 511 && |r.data| == f && r.seqNo != p.lastSequence && k >= 1
    requires Between(p, f, fillDepth, k - 1)
    ensures Plays(Filled(p, r), f) <==> fillDepth <= Blocks(f) * f && k >= StartRound(f, fillDepth)
  {
    RoundStep(p, f, fillDepth, k - 1, r);
    FillLevelReaches(f, fillDepth, k);
  }

  /** Liveness: after a flush with a given prefill depth, playback starts in round
      ceil(fillDepth / f) and never falls silent again, exactly if the prefill depth can be reached
      at all; a deeper prefill is silence for ever. */
  lemma PlaybackStarts(l: Line, f: nat, rs: seq<Round>, k: nat)
    requires Steady(l, f, rs) && 1 <= k <= |rs| && l.queue == [] && l.filling
    ensures PlaysInRound(l, f, rs, k)
            <==> l.fillDepth <= Blocks(f) * f && k >= StartRound(f, l.fillDepth)
  {
    SteadyRounds(l, f, rs, k - 1);
    RoundPlays(After(l, f, rs, k - 1), f, l.fillDepth, k, rs[k - 1]);
  }

  /** Latency: once playing, at most the largest target less the block just played is left. */
  lemma LatencyBounded(l: Line, f: nat, rs: seq<Round>, k: nat)
    requires Steady(l, f, rs) && 1 <= k <= |rs| && l.queue == [] && l.filling
    requires PlaysInRound(l, f, rs, k)
    ensures |After(l, f, rs, k).queue| <= MAX_DEPTH - f
  {
  }

  /** The number a flushed buffer holds is 0, so a stream that starts with 0 loses its first block. */
  lemma FirstNumberZero(s: Jitter, initialDepth: int, data: seq<real>)
    ensures PutIn(Flush(s, initialDepth), data, 0).line.queue == []
  {
  }

  // ---- with the statistics in the loop ----

  datatype Packet = Packet(data: Runs.PutBlock, seqNo: uint32)

  /** One round of the buffer, with the target that its statistics make. */
  function BufferNext(s: Jitter, f: Runs.GetSize, p: Packet): (t: Jitter)
    requires s.Valid() && |s.line.queue| < JITTER_SAMPLES
    ensures t.Valid() && |t.line.queue| < JITTER_SAMPLES
  {
    Runs.Operate(Given(s, p), Runs.GetOp(f))
  }

  /** The buffer between the put and the get. */
  function Given(s: Jitter, p: Packet): (t: Jitter)
    requires s.Valid() && |s.line.queue| < JITTER_SAMPLES
    ensures t.Valid() && |t.line.queue| < JITTER_SAMPLES
  {
    Runs.Operate(s, Runs.PutOp(p.data, p.seqNo))
  }

  function BufferAfter(s: Jitter, f: Runs.GetSize, ps: seq<Packet>): (t: Jitter)
    requires s.Valid() && |s.line.queue| < JITTER_SAMPLES
    ensures t.Valid() && |t.line.queue| < JITTER_SAMPLES
    decreases |ps|
  {
    if ps == [] then s else BufferNext(BufferAfter(s, f, ps[..|ps| - 1]), f, ps[|ps| - 1])
  }

  /** Packets of f samples, none with the number before it. */
  predicate Stream(last: uint32, f: nat, ps: seq<Packet>)
    decreases |ps|
  {
    ps == []
    || (|ps[|ps| - 1].data| == f && ps[|ps| - 1].seqNo != LastNumber(last, ps[..|ps| - 1])
        && Stream(last, f, ps[..|ps| - 1]))
  }

  function LastNumber(last: uint32, ps: seq<Packet>): uint32 {
    if ps == [] then last else ps[|ps| - 1].seqNo
  }

  lemma OneRound(s: Jitter, f: Runs.GetSize, p: Packet) returns (r: Round)
    requires s.Valid() && |s.line.queue| < JITTER_SAMPLES && |p.data| == f <= 511
    ensures r.data == p.data && r.seqNo == p.seqNo
    ensures Given(s, p).line == Filled(s.line, r) && BufferNext(s, f, p).line == Next(s.line, r)
  {
    var t := Given(s, p);
    TargetInRange(t);
    r := Round(p.data, p.seqNo, Measure(t).targetDepth);
    Runs.OperateIsEvent(t, Runs.GetOp(f));
  }

  lemma OneSteadyRound(s: Jitter, f: Runs.GetSize, p: Packet, fillDepth: int, k: nat)
    requires s.Valid() && |s.line.queue| < JITTER_SAMPLES && |p.data| == f && 1 <= f <= 511
    requires p.seqNo != s.line.lastSequence && Between(s.line, f, fillDepth, k)
    ensures Between(BufferNext(s, f, p).line, f, fillDepth, k + 1)
    ensures BufferNext(s, f, p).line.lastSequence == p.seqNo
    ensures Plays(Given(s, p).line, f) <==> fillDepth <= Blocks(f) * f && k + 1 >= StartRound(f, fillDepth)
  {
    var r := OneRound(s, f, p);
    RoundStep(s.line, f, fillDepth, k, r);
    RoundPlays(s.line, f, fillDepth, k + 1, r);
  }

  lemma {:induction false} BufferSteady(s: Jitter, f: Runs.GetSize, ps: seq<Packet>)
    requires s.Valid() && s.line.queue == [] && s.line.filling && 1 <= f <= 511
    requires Stream(s.line.lastSequence, f, ps)
    ensures Between(BufferAfter(s, f, ps).line, f, s.line.fillDepth, |ps|)
    ensures BufferAfter(s, f, ps).line.lastSequence == LastNumber(s.line.lastSequence, ps)
    decreases |ps|
  {
    if ps != [] {
      var n := |ps| - 1;
      BufferSteady(s, f, ps[..n]);
      OneSteadyRound(BufferAfter(s, f, ps[..n]), f, ps[n], s.line.fillDepth, n);
    }
  }

  /** A block from the front of the queue after a trim, with a bounded rest. */
  ghost predicate PlaysFront(queue: seq<real>, rest: seq<real>, out: seq<real>) {
    var over := |queue| - |rest| - |out|;
    over >= 0 && queue[over..] == out + rest && |rest| <= MAX_DEPTH - |out|
  }

  lemma FrontOrSilence(p: Jitter, f: Runs.GetSize)
    requires p.Valid() && |p.line.queue| < JITTER_SAMPLES
    ensures var (t, out) := GetOut(p, f);
            if Plays(p.line, f) then PlaysFront(p.line.queue, t.line.queue, out) else out == Zeros(f)
  {
    TargetInRange(p);
    var target := Measure(p).targetDepth;
    Runs.GetLineIsFront(p.line, f, target);
    if Plays(p.line, f) {
      var over, q := Trim(|p.line.queue|, target), p.line.queue;
      assert q[over..] == q[over..over + f] + q[over + f..];
    }
  }

  /** The buffer itself, statistics and all, from a flush to some prefill depth: its output is silence
      before round ceil(fillDepth / f) and the front of its queue from there on, if that prefill depth
      can be reached at all; otherwise it is silent for ever. */
  lemma BufferStarts(s: Jitter, f: Runs.GetSize, ps: seq<Packet>, p: Packet)
    requires s.Valid() && s.line.queue == [] && s.line.filling && 1 <= f <= 511
    requires Stream(s.line.lastSequence, f, ps + [p])
    ensures var q := Given(BufferAfter(s, f, ps), p);
            var (t, out) := GetOut(q, f);
            if s.line.fillDepth <= Blocks(f) * f && |ps| + 1 >= StartRound(f, s.line.fillDepth)
            then PlaysFront(q.line.queue, t.line.queue, out) else out == Zeros(f)
  {
    assert (ps + [p])[..|ps|] == ps;
    BufferSteady(s, f, ps);
    OneSteadyRound(BufferAfter(s, f, ps), f, p, s.line.fillDepth, |ps|);
    FrontOrSilence(Given(BufferAfter(s, f, ps), p), f);
  }

  /** What the smoothness setting does: 10240 samples of prefill for a setting of one, so that playback starts
      in the first round by which that share of them has come in, and a deviation factor of 7 and a hundred
      times the setting. */
  lemma SmoothnessDelays(s: Jitter, smooth: real, f: Runs.GetSize, ps: seq<Packet>, p: Packet)
    requires s.Valid() && smooth >= 0.0 && 1 <= f <= 511 && Stream(0, f, ps + [p])
    ensures var u := SetSmoothness(s, smooth);
            && u.Valid() && u.line.queue == [] && u.nSigma == 7.0 + 100.0 * smooth
            && var q, prefill := Given(BufferAfter(u, f, ps), p), (10240.0 * smooth).Floor;
               var (t, out) := GetOut(q, f);
               if prefill <= Blocks(f) * f && (|ps| + 1) * f >= prefill
               then PlaysFront(q.line.queue, t.line.queue, out) else out == Zeros(f)
  {
    var u, prefill := SetSmoothness(s, smooth), (10240.0 * smooth).Floor;
    assert smooth * 20.0 * 512.0 == 10240.0 * smooth;
    assert u.line.fillDepth == prefill;
    StartRoundIs(f, prefill, |ps| + 1);
    BufferStarts(u, f, ps, p);
  }

  /** A setting of one puts the target to 10752 until the next getOut; a setting of ten asks for more prefill
      than blocks of 128 samples can bring past the overflow guard. */
  lemma SmoothnessTooHigh(s: Jitter)
    requires s.Valid()
    ensures SetSmoothness(s, 1.0).targetDepth == 10752 > MAX_DEPTH
    ensures SetSmoothness(s, 10.0).line.fillDepth == 102400 > Blocks(128) * 128
  {
    assert 1.0 * 20.0 * 512.0 == 10240.0 && 10.0 * 20.0 * 512.0 == 102400.0;
  }
}
