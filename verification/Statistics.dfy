/** The running statistics that drive the jitter buffer's target depth, over the reals. */
module Statistics {

  function Abs(x: real): (r: real)
    ensures r >= 0.0
  {
    if x < 0.0 then -x else x
  }

  datatype Stats = Stats(mean: real, sigma: real, peak: real, windowSize: real)

  /** A window of w samples kept in one number: add a share of the new sample, then leak. */
  function Leaky(acc: real, x: real, w: real): real
    requires w >= 1.0
  {
    (acc + x / w) * ((w - 1.0) / w)
  }

  function AddSample(s: Stats, x: real): Stats
    requires s.windowSize >= 1.0
  {
    var mean := Leaky(s.mean, x, s.windowSize);
    s.(peak := if x > s.peak then x else s.peak - 0.05,
       mean := mean,
       sigma := Leaky(s.sigma, Abs(mean - x), s.windowSize))
  }

  class StreamTimeStats {
    var mean: real
    var sigma: real
    var peak: real
    var windowSize: real

    function View(): Stats
      reads this
    {
      Stats(mean, sigma, peak, windowSize)
    }

    constructor ()
      ensures View() == Stats(0.0, 0.0, 0.0, 100.0)
    {
      mean, sigma, peak, windowSize := 0.0, 0.0, 0.0, 100.0;
    }

    /** The two statements `acc += x / windowSize; acc *= (windowSize - 1) / windowSize`. */
    method Leak(value: real, x: real) returns (acc: real)
      requires windowSize >= 1.0
      ensures acc == Leaky(value, x, windowSize)
    {
      acc := value + x / windowSize;
      acc := acc * ((windowSize - 1.0) / windowSize);
    }

    method Add(sample: real)
      requires windowSize >= 1.0
      modifies this
      ensures View() == AddSample(old(View()), sample)
    {
      if sample > peak {
        peak := sample;
      } else {
        peak := peak - 0.05;
      }
      mean := Leak(mean, sample);
      sigma := Leak(sigma, Abs(mean - sample));
    }
  }

  lemma ProductNonNegative(a: real, b: real)
    requires a >= 0.0 && b >= 0.0
    ensures a * b >= 0.0
  {
  }

  /** What a steady input drives the average to: not the input itself but this share of it. */
  function Limit(x: real, w: real): real
    requires w >= 1.0
  {
    x * ((w - 1.0) / w)
  }

  /** Each sample moves the average toward its limit by exactly one window's share of the way. */
  lemma LeakyApproaches(acc: real, x: real, w: real)
    requires w >= 1.0
    ensures Leaky(acc, x, w) - Limit(x, w) == (acc - Limit(x, w)) * ((w - 1.0) / w)
  {
    var r := (w - 1.0) / w;
    assert r == 1.0 - 1.0 / w;
    assert x / w == x * (1.0 / w) == x - x * r;
    assert (acc + x / w) * r == acc * r + (x - x * r) * r;
    assert (acc - x * r) * r == acc * r - (x * r) * r;
  }

  /** The deviation statistic never goes negative, whatever the samples. */
  lemma SigmaNonNegative(s: Stats, x: real)
    requires s.windowSize >= 1.0 && s.sigma >= 0.0
    ensures AddSample(s, x).sigma >= 0.0
  {
  }

  /** The envelope filter: separate leak rates for attack and release. */
  datatype Envelope = Envelope(attack: real, release: real, peak: real, lastOut: real)
  {
    predicate Valid() {
      0.0 <= attack <= 1.0 && 0.0 <= release <= 1.0 && peak == lastOut >= 0.0
    }
  }

  function Filter(e: Envelope, x: real): Envelope {
    var input := Abs(x);
    var c := if e.peak < input then e.attack else e.release;
    var y := input * c + (1.0 - c) * e.lastOut;
    e.(peak := y, lastOut := y)
  }

  class PeakDetector {
    const attackCoeff: real
    const releaseCoeff: real
    var peakDetector: real
    var lastOut: real

    function View(): Envelope
      reads this
    {
      Envelope(attackCoeff, releaseCoeff, peakDetector, lastOut)
    }

    constructor (attack: real, release: real)
      ensures View() == Envelope(attack, release, 0.0, 0.0)
    {
      attackCoeff, releaseCoeff, peakDetector, lastOut := attack, release, 0.0, 0.0;
    }

    method GetSample(sample: real) returns (r: real)
      modifies this
      ensures View() == Filter(old(View()), sample) && r == View().peak
    {
      var input := Abs(sample);
      if peakDetector < input {
        peakDetector := input * attackCoeff + (1.0 - attackCoeff) * lastOut;
      } else {
        peakDetector := input * releaseCoeff + (1.0 - releaseCoeff) * lastOut;
      }
      lastOut := peakDetector;
      r := peakDetector;
    }
  }

  /** The filter's output is never negative, and never above the larger of its input and its past. */
  lemma FilterBounds(e: Envelope, x: real)
    requires e.Valid()
    ensures Filter(e, x).Valid()
    ensures Filter(e, x).peak <= if Abs(x) > e.peak then Abs(x) else e.peak
  {
    var input := Abs(x);
    var c := if e.peak < input then e.attack else e.release;
    ProductNonNegative(input, c);
    ProductNonNegative(1.0 - c, e.lastOut);
    var top := if input > e.peak then input else e.peak;
    ProductNonNegative(top - input, c);
    ProductNonNegative(1.0 - c, top - e.lastOut);
    assert input * c <= top * c;
    assert (1.0 - c) * e.lastOut <= (1.0 - c) * top;
    assert top * c + (1.0 - c) * top == top;
  }

  // ---- how the statistics follow their samples ----

  /** One sample: the mean takes a window's share of the sample, the deviation one of the distance of the
      sample to the new mean, and both leak; the peak jumps up and slides down. */
  lemma SampleMoves(s: Stats, x: real)
    requires s.windowSize >= 1.0
    ensures var t, w := AddSample(s, x), s.windowSize;
            && t.windowSize == w
            && t.mean * w * w == (s.mean * w + x) * (w - 1.0)
            && t.sigma * w * w == (s.sigma * w + (if t.mean >= x then t.mean - x else x - t.mean)) * (w - 1.0)
            && t.peak == if x > s.peak then x else s.peak - 0.05
  {
    var t := AddSample(s, x);
  }

  /** Each sample moves the envelope toward its magnitude by exactly the attack share of the distance when
      it is above, and by the release share otherwise. */
  lemma FilterMoves(e: Envelope, x: real)
    requires e.Valid()
    ensures var level := if x >= 0.0 then x else -x;
            var share := if e.peak < level then e.attack else e.release;
            && Filter(e, x).peak == e.peak + share * (level - e.peak)
            && Filter(e, x).attack == e.attack && Filter(e, x).release == e.release
  {
    var level := Abs(x);
    var share := if e.peak < level then e.attack else e.release;
    assert level * share + (1.0 - share) * e.lastOut == e.lastOut + share * (level - e.lastOut);
  }

  /** The envelope after k samples of one value. */
  function Held(e: Envelope, x: real, k: nat): Envelope
    decreases k
  {
    if k == 0 then e else Held(Filter(e, x), x, k - 1)
  }

  /** A distance that loses the same share k times. */
  function Shrunk(a: real, share: real, k: nat): real
    decreases k
  {
    if k == 0 then a else Shrunk(a * (1.0 - share), share, k - 1)
  }

  lemma {:induction false} ShrunkZero(share: real, k: nat)
    ensures Shrunk(0.0, share, k) == 0.0
  {
    if k > 0 {
      assert 0.0 * (1.0 - share) == 0.0;
      ShrunkZero(share, k - 1);
    }
  }

  lemma ShrunkStep(a: real, b: real, share: real, k: nat)
    requires k > 0 && b == a * (1.0 - share)
    ensures Shrunk(a, share, k) == Shrunk(b, share, k - 1)
  {
  }

  lemma ShrunkOnce(a: real, b: real, share: real, next: real, k: nat)
    requires k > 0 && b == a * (1.0 - share) && (b == 0.0 || next == share)
    ensures Shrunk(a, share, k) == Shrunk(b, next, k - 1)
  {
    ShrunkStep(a, b, share, k);
    if b == 0.0 {
      ShrunkZero(share, k - 1);
      ShrunkZero(next, k - 1);
    }
  }

  lemma SameSide(a: real, r: real)
    requires 0.0 <= r
    ensures a <= 0.0 ==> a * r <= 0.0
    ensures a >= 0.0 ==> a * r >= 0.0
  {
  }

  function Share(e: Envelope, level: real): real {
    if e.peak < level then e.attack else e.release
  }

  /** One sample leaves the other share of the distance, on the same side. */
  lemma NextDistance(e: Envelope, x: real)
    requires e.Valid()
    ensures var level, f := Abs(x), Filter(e, x);
            && f.Valid() && f.peak - level == (e.peak - level) * (1.0 - Share(e, level))
            && (f.peak == level || Share(f, level) == Share(e, level))
  {
    var level, f, share := Abs(x), Filter(e, x), Share(e, Abs(x));
    var a := e.peak - level;
    FilterBounds(e, x);
    FilterMoves(e, x);
    assert share * (level - e.peak) == -(share * a);
    assert a * (1.0 - share) == a - share * a;
    SameSide(a, 1.0 - share);
  }

  lemma HeldOnce(e: Envelope, x: real, k: nat)
    requires e.Valid() && k > 0
    ensures var level, f := Abs(x), Filter(e, x);
            && Held(e, x, k) == Held(f, x, k - 1)
            && Shrunk(e.peak - level, Share(e, level), k) == Shrunk(f.peak - level, Share(f, level), k - 1)
  {
    var level, f := Abs(x), Filter(e, x);
    NextDistance(e, x);
    ShrunkOnce(e.peak - level, f.peak - level, Share(e, level), Share(f, level), k);
  }

  /** Under a constant input its distance to it loses the same share at every sample. */
  lemma {:induction false} HeldApproaches(e: Envelope, x: real, k: nat)
    requires e.Valid()
    ensures var level := Abs(x);
            Held(e, x, k).Valid()
            && Held(e, x, k).peak - level == Shrunk(e.peak - level, Share(e, level), k)
    decreases k
  {
    if k > 0 {
      var level, f := Abs(x), Filter(e, x);
      FilterBounds(e, x);
      HeldApproaches(f, x, k - 1);
      HeldOnce(e, x, k);
    }
  }
}
