/** The target depth as what the depths of the buffer make of it. */
module JitterTarget {
  import opened Statistics
  import opened JitterRing
  import opened JitterState

  /** The statistics after a getOut take in the depth it found. */
  lemma StatisticsFollow(s: Jitter)
    requires s.Valid()
    ensures var t, depth, w := Measure(s).stats, |s.line.queue| as real, s.stats.windowSize;
            && t.mean * w * w == (s.stats.mean * w + depth) * (w - 1.0)
            && t.sigma * w * w == (s.stats.sigma * w + (if t.mean >= depth then t.mean - depth else depth - t.mean)) * (w - 1.0)
  {
    SampleMoves(s.stats, |s.line.queue| as real);
  }

  /** The envelope takes up its share of the deviation just found, nSigma times over. */
  lemma EnvelopeFollows(s: Jitter)
    requires s.Valid()
    ensures var t := Measure(s);
            var deviation := s.nSigma * t.stats.sigma;
            var level := if deviation >= 0.0 then deviation else -deviation;
            var share := if s.filter.peak < level then s.filter.attack else s.filter.release;
            t.filter.peak == s.filter.peak + share * (level - s.filter.peak)
  {
    EnvelopeAt(s, s.nSigma * Measure(s).stats.sigma);
  }

  lemma EnvelopeAt(s: Jitter, deviation: real)
    requires s.Valid() && deviation == Deviation(s)
    ensures var level := if deviation >= 0.0 then deviation else -deviation;
            var share := if s.filter.peak < level then s.filter.attack else s.filter.release;
            Measure(s).filter.peak == s.filter.peak + share * (level - s.filter.peak)
  {
    FilterMoves(s.filter, deviation);
  }

  /** The target is 512 samples and the envelope, cut to a whole number and to 8192. */
  lemma TargetFollows(s: Jitter)
    requires s.Valid()
    ensures var t := Measure(s);
            var depth := 512 + t.filter.peak.Floor;
            t.filter.peak >= 0.0 && t.targetDepth == if depth > 8192 then 8192 else depth
  {
    FilterStaysValid(s);
  }

  /** The first getOut of a buffer that holds 1000 samples, with an attack share of one half. */
  lemma FirstTarget(s: Jitter)
    requires s.Valid() && |s.line.queue| == 1000 && s.nSigma == 7.0
    requires s.stats == Stats(0.0, 0.0, 0.0, 20.0) && s.filter.attack == 0.5 && s.filter.peak == 0.0
    ensures Measure(s).targetDepth == 670
  {
    var t := Measure(s);
    StatisticsFollow(s);
    EnvelopeFollows(s);
    TargetFollows(s);
    assert t.stats.mean == 47.5;
    assert t.stats.sigma == 45.24375;
    assert s.nSigma * t.stats.sigma == 316.70625;
    var y := 0.0 + 0.5 * (316.70625 - 0.0);
    assert y == 158.353125 && y.Floor == 158;
  }

  /** What getOut plays is the block behind exactly the samples over the target; what is left is the target,
      or the depth where that is less, without the block. */
  lemma TrimmedExactly(l: Line, frames: nat, target: Target)
    requires frames <= 512 && Plays(l, frames)
    ensures var (t, out) := GetLine(l, frames, target);
            var depth := |l.queue|;
            var kept := if depth > target then target else depth;
            && out == l.queue[depth - kept..depth - kept + frames]
            && t.queue == l.queue[depth - kept + frames..] && |t.queue| == kept - frames
  {
    var over := Trim(|l.queue|, target);
    assert l.queue[over..][..frames] == l.queue[over..over + frames];
    assert l.queue[over..][frames..] == l.queue[over + frames..];
  }

  /** Sequence numbers: exactly the repeated number is a duplicate, the next one is in order, and a gap
      ahead of less than 2^31 counts as a loss. */
  lemma NumbersCounted(s: Jitter, data: seq<real>, gap: nat)
    requires gap <= 0x8000_0000
    ensures var seqNo := (s.line.lastSequence + gap) % TWO32;
            var t := PutIn(s, data, seqNo);
            && t.numDups == s.numDups + (if gap == 0 then 1 else 0)
            && t.numDropped == s.numDropped + (if gap >= 2 then 1 else 0)
  {
    var last := s.line.lastSequence;
    var seqNo := (last + gap) % TWO32;
    if last + gap < TWO32 {
      assert seqNo == last + gap;
    } else {
      assert seqNo == last + gap - TWO32;
    }
    var d := (last - seqNo) % TWO32;
    assert gap == 0 ==> d == 0;
    assert gap > 0 ==> d == TWO32 - gap;
  }
}
