/** What the jitter buffer does, on a queue: duplicates, prefill, underrun and trimming. */
module JitterState {
  import opened Samples
  import opened Statistics
  import opened JitterRing

  const MIN_DEPTH: int := 512
  const MAX_DEPTH: int := 8192
  const MIN_SIGMA: real := 7.0
  const TWO32: nat := 0x1_0000_0000

  type uint32 = n: nat | n < TWO32

  /** Conversion of a real number to an integer: truncation toward zero. */
  function Truncate(x: real): int {
    if x >= 0.0 then x.Floor else -((-x).Floor)
  }

  /** Conversion to `unsigned`. */
  function Unsigned(x: int): uint32 {
    x % TWO32
  }

  /** `int dropped = lastSequence - seqNo`, computed in 32 bits. */
  function Dropped(last: uint32, seqNo: uint32): int {
    var d := (last - seqNo) % TWO32;
    if d < 0x8000_0000 then d else d - TWO32
  }

  /** The part of the state that decides what is played: the queued samples, the last sequence
      number, and whether and how far the buffer is filling. */
  datatype Line = Line(queue: seq<real>, lastSequence: uint32, filling: bool, fillDepth: int, numPuts: int)

  /** Whether putIn stores the block: no duplicate, and room. */
  predicate Accepts(l: Line, seqNo: uint32) {
    seqNo != l.lastSequence && |l.queue| <= MAX_FILL
  }

  function PutLine(l: Line, data: seq<real>, seqNo: uint32): Line {
    l.(lastSequence := seqNo, numPuts := l.numPuts + 1,
       queue := if Accepts(l, seqNo) then l.queue + data else l.queue)
  }

  /** Whether getOut is still waiting for the first samples, or for the first after an underrun. */
  predicate Prefills(l: Line) {
    l.filling && |l.queue| < l.fillDepth
  }

  /** Whether getOut plays samples rather than zeros. */
  predicate Plays(l: Line, frames: nat) {
    !Prefills(l) && frames <= |l.queue|
  }

  /** Whether a block is to be played that is longer than what the trim to the target leaves. */
  predicate Overtakes(l: Line, frames: nat, target: int) {
    Plays(l, frames) && frames > target
  }

  type Target = t: int | MIN_DEPTH <= t <= MAX_DEPTH witness MIN_DEPTH

  function GetLine(l: Line, frames: nat, target: Target): (r: (Line, seq<real>))
    requires frames <= MIN_DEPTH || !Overtakes(l, frames, target)
    ensures |r.1| == frames && |r.0.queue| <= |l.queue|
  {
    if Prefills(l) then (l, Zeros(frames))
    else if |l.queue| < frames then (l.(filling := l.numPuts > 0), Zeros(frames))
    else
      var q := l.queue[Trim(|l.queue|, target)..];
      (l.(filling := false, queue := q[frames..]), q[..frames])
  }

  datatype Jitter = Jitter(line: Line, targetDepth: int, nSigma: real, numGets: int, numDropped: int, numDups: int,
                           numOverruns: int, numUnderruns: int, stats: Stats, filter: Envelope)
  {
    predicate Valid() {
      |line.queue| <= JITTER_SAMPLES && stats.windowSize >= 1.0 && filter.Valid()
    }
  }

  function Flush(s: Jitter, initialDepth: int): Jitter {
    s.(line := Line([], 0, true, initialDepth, 0), targetDepth := Unsigned(MIN_DEPTH + initialDepth), nSigma := MIN_SIGMA,
       numGets := 0, numDropped := 0, numDups := 0, numOverruns := 0, numUnderruns := 0)
  }

  function SetSmoothness(s: Jitter, smooth: real): Jitter {
    Flush(s, Truncate(smooth * 20.0 * 512.0)).(nSigma := MIN_SIGMA + smooth * 100.0)
  }

  function PutIn(s: Jitter, data: seq<real>, seqNo: uint32): Jitter {
    var dropped := Dropped(s.line.lastSequence, seqNo);
    s.(line := PutLine(s.line, data, seqNo),
       numDropped := s.numDropped + if dropped < -1 then 1 else 0,
       numDups := s.numDups + if dropped == 0 then 1 else 0)
  }

  /** The target depth for a filtered deviation. */
  function DynamicTarget(y: real): int {
    var target := Truncate(MIN_DEPTH as real + y);
    if target > MAX_DEPTH then MAX_DEPTH else target
  }

  lemma DynamicTargetInRange(y: real)
    requires y >= 0.0
    ensures MIN_DEPTH <= DynamicTarget(y) <= MAX_DEPTH
  {
    var x := MIN_DEPTH as real + y;
    assert x >= 512.0;
    assert Truncate(x) == x.Floor;
  }

  /** nSigma standard deviations of the depth, this depth included. */
  function Deviation(s: Jitter): real
    requires s.Valid()
  {
    s.nSigma * AddSample(s.stats, |s.line.queue| as real).sigma
  }

  function MeasuredFilter(s: Jitter): Envelope
    requires s.Valid()
  {
    Filter(s.filter, Deviation(s))
  }

  /** The first part of getOut: statistics and the new target. */
  function Measure(s: Jitter): Jitter
    requires s.Valid()
  {
    var filter := MeasuredFilter(s);
    s.(numGets := s.numGets + 1, stats := AddSample(s.stats, |s.line.queue| as real), filter := filter,
       targetDepth := DynamicTarget(filter.peak))
  }

  lemma FilterStaysValid(s: Jitter)
    requires s.Valid()
    ensures MeasuredFilter(s).Valid()
  {
    FilterBounds(s.filter, Deviation(s));
  }

  /** After every measurement the target is in 512..8192, whatever nSigma and the depths were. */
  lemma TargetInRange(s: Jitter)
    requires s.Valid()
    ensures MIN_DEPTH <= Measure(s).targetDepth <= MAX_DEPTH && Measure(s).filter.Valid()
  {
    FilterStaysValid(s);
    DynamicTargetInRange(MeasuredFilter(s).peak);
  }

  /** Between a flush and the next measurement it is in range only for small prefills, of all 32-bit
      depths. */
  lemma FlushedTarget(s: Jitter, initialDepth: int)
    requires -0x8000_0000 <= initialDepth < 0x8000_0000
    ensures MIN_DEPTH <= Flush(s, initialDepth).targetDepth <= MAX_DEPTH
            <==> 0 <= initialDepth <= MAX_DEPTH - MIN_DEPTH
  {
    var t := MIN_DEPTH + initialDepth;
    if t >= 0 {
      assert t % TWO32 == t;
    } else {
      assert t % TWO32 == t + TWO32;
    }
  }

  /** The second part of getOut, against the target just measured. */
  function Deliver(t: Jitter, frames: nat): (r: (Jitter, seq<real>))
    requires t.Valid() && MIN_DEPTH <= t.targetDepth <= MAX_DEPTH
    requires frames <= MIN_DEPTH || !Overtakes(t.line, frames, t.targetDepth)
    ensures r.0.Valid() && |r.1| == frames
  {
    var (l, out) := GetLine(t.line, frames, t.targetDepth);
    var under := !Prefills(t.line) && |t.line.queue| < frames && t.line.numPuts > 0;
    var over := Plays(t.line, frames) && |t.line.queue| > t.targetDepth;
    (t.(line := l, numUnderruns := t.numUnderruns + if under then 1 else 0,
        numOverruns := t.numOverruns + if over then 1 else 0), out)
  }

  function GetOut(s: Jitter, frames: nat): (r: (Jitter, seq<real>))
    requires s.Valid() && (frames <= MIN_DEPTH || !Overtakes(s.line, frames, Measure(s).targetDepth))
    ensures r.0.Valid() && |r.1| == frames
  {
    TargetInRange(s);
    Deliver(Measure(s), frames)
  }
}
