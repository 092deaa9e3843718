/** The index arithmetic of the jitter buffer's circular store. An index runs from 0 to the size
    itself, both of which stand for the front. */
module JitterRing {

  const JITTER_SAMPLES: nat := 96000

  /** The guard of putIn: no block is stored above this depth. */
  const MAX_FILL: nat := JITTER_SAMPLES - 512

  type Index = i: nat | i <= JITTER_SAMPLES

  function Depth(r: Index, w: Index): (d: nat)
    ensures d <= JITTER_SAMPLES
  {
    if w >= r then w - r else JITTER_SAMPLES - r + w
  }

  /** Where an index stands after n samples, read, skipped or written. */
  function Advance(i: Index, n: nat): Index
    requires n <= JITTER_SAMPLES
  {
    if JITTER_SAMPLES - i >= n then i + n else n - (JITTER_SAMPLES - i)
  }

  /** What is between the read and the write index. */
  function Contents<T>(b: seq<T>, r: Index, w: Index): (q: seq<T>)
    requires |b| == JITTER_SAMPLES
    ensures |q| == Depth(r, w)
  {
    if w >= r then b[r..w] else b[r..] + b[..w]
  }

  function Taken<T>(b: seq<T>, r: Index, n: nat): seq<T>
    requires |b| == JITTER_SAMPLES && n <= JITTER_SAMPLES
  {
    if JITTER_SAMPLES - r >= n then b[r..r + n] else b[r..] + b[..n - (JITTER_SAMPLES - r)]
  }

  function Stored<T>(b: seq<T>, w: Index, data: seq<T>): (c: seq<T>)
    requires |b| == JITTER_SAMPLES && |data| <= JITTER_SAMPLES
    ensures |c| == JITTER_SAMPLES
  {
    var room := JITTER_SAMPLES - w;
    if room >= |data| then b[..w] + data + b[w + |data|..]
    else data[room..] + b[|data| - room..w] + data[..room]
  }

  /** Whether n more samples can be told from fewer. The two full states differ: with the read
      index at 0 the write index stops at the size, otherwise it would meet the read index. */
  predicate Fits(r: Index, w: Index, n: nat) {
    Depth(r, w) + n < JITTER_SAMPLES || (Depth(r, w) + n == JITTER_SAMPLES && (r == 0 || n == 0))
  }

  lemma AppendDepth(r: Index, w: Index, n: nat)
    requires n <= JITTER_SAMPLES
    ensures Depth(r, Advance(w, n)) == Depth(r, w) + n <==> Fits(r, w, n)
  {
  }

  lemma Append<T>(b: seq<T>, r: Index, w: Index, data: seq<T>)
    requires |b| == JITTER_SAMPLES && |data| <= JITTER_SAMPLES
    requires Fits(r, w, |data|)
    ensures Contents(Stored(b, w, data), r, Advance(w, |data|)) == Contents(b, r, w) + data
  {
    if JITTER_SAMPLES - w < |data| {
      AppendWrapped(b, r, w, data);
    }
  }

  lemma AppendWrapped<T>(b: seq<T>, r: Index, w: Index, data: seq<T>)
    requires |b| == JITTER_SAMPLES && |data| <= JITTER_SAMPLES
    requires Fits(r, w, |data|) && JITTER_SAMPLES - w < |data|
    ensures Contents(Stored(b, w, data), r, |data| - (JITTER_SAMPLES - w)) == Contents(b, r, w) + data
  {
    var room := JITTER_SAMPLES - w;
    var end := |data| - room;
    assert end <= r <= w;
    WrappedPieces(b, r, w, end, data[..room], data[room..]);
    assert data == data[..room] + data[room..];
  }

  /** The parts of a store that wraps, read from r on and then from the front. */
  lemma WrappedPieces<T>(b: seq<T>, r: nat, w: nat, end: nat, tail: seq<T>, front: seq<T>)
    requires end <= r <= w <= |b| && |front| == end
    ensures var c := front + b[end..w] + tail;
            c[r..] + c[..end] == b[r..w] + (tail + front)
  {
    Pieces(front, b[end..w], tail, r);
    assert b[end..w][r - end..] == b[r..w];
    Assoc(b[r..w], tail, front);
  }

  lemma Pieces<T>(x: seq<T>, y: seq<T>, z: seq<T>, k: nat)
    requires |x| <= k <= |x| + |y|
    ensures (x + y + z)[..|x|] == x && (x + y + z)[k..] == y[k - |x|..] + z
  {
  }

  lemma Assoc<T>(x: seq<T>, y: seq<T>, z: seq<T>)
    ensures (x + y) + z == x + (y + z)
  {
  }

  lemma Read<T>(b: seq<T>, r: Index, w: Index, n: nat)
    requires |b| == JITTER_SAMPLES && n <= Depth(r, w)
    ensures Taken(b, r, n) == Contents(b, r, w)[..n]
    ensures Contents(b, Advance(r, n), w) == Contents(b, r, w)[n..]
  {
  }

  /** Every block of n samples that passes the guard of putIn is stored without loss. */
  ghost predicate PutSafe(n: nat)
    requires n <= JITTER_SAMPLES
  {
    forall r: Index, w: Index :: Depth(r, w) <= MAX_FILL ==> Depth(r, Advance(w, n)) == Depth(r, w) + n
  }

  /** The guard protects blocks of up to 511 samples and no longer ones: a block of 512 can make a
      full buffer look empty. */
  lemma PutSafeIff(n: nat)
    requires n <= JITTER_SAMPLES
    ensures PutSafe(n) <==> n <= 511
  {
    if n <= 511 {
      forall r: Index, w: Index | Depth(r, w) <= MAX_FILL
        ensures Depth(r, Advance(w, n)) == Depth(r, w) + n
      {
        AppendDepth(r, w, n);
      }
    } else {
      var r: Index, w: Index := 1, MAX_FILL + 1;
      assert Depth(r, w) == MAX_FILL;
      AppendDepth(r, w, n);
    }
  }

  function Trim(depth: nat, target: nat): nat {
    if depth > target then depth - target else 0
  }

  /** Every block of n samples that passes the underrun test is read without overtaking the writer,
      for every target depth in range. */
  ghost predicate GetSafe(n: nat)
    requires n <= JITTER_SAMPLES
  {
    forall r: Index, w: Index, target: nat :: 512 <= target <= 8192 && n <= Depth(r, w) ==>
      var r1 := Advance(r, Trim(Depth(r, w), target));
      Depth(Advance(r1, n), w) == Depth(r1, w) - n
  }

  lemma GetSafeIff(n: nat)
    requires n <= JITTER_SAMPLES
    ensures GetSafe(n) <==> n <= 512
  {
    if n <= 512 {
      forall r: Index, w: Index, target: nat | 512 <= target <= 8192 && n <= Depth(r, w)
        ensures var r1 := Advance(r, Trim(Depth(r, w), target));
                Depth(Advance(r1, n), w) == Depth(r1, w) - n
      {
        var over := Trim(Depth(r, w), target);
      }
    } else {
      var r: Index, w: Index, target: nat := 0, n, 512;
      var r1 := Advance(r, Trim(Depth(r, w), target));
      assert r1 == n - 512 && Depth(r1, w) == 512;
      assert Depth(Advance(r1, n), w) >= 0;
    }
  }

  // ---- runs of the indices ----

  /** The write index after putIn of n samples. */
  function PutIndex(r: Index, w: Index, n: nat): Index
    requires n <= JITTER_SAMPLES
  {
    if Depth(r, w) <= MAX_FILL then Advance(w, n) else w
  }

  /** The read index after getOut plays f samples. */
  function GetIndex(r: Index, w: Index, f: nat, target: nat): Index
    requires f <= JITTER_SAMPLES
  {
    Advance(Advance(r, Trim(Depth(r, w), target)), f)
  }

  function PutMany(r: Index, w: Index, n: nat, k: nat): Index
    requires n <= JITTER_SAMPLES
    decreases k
  {
    if k == 0 then w else PutMany(r, PutIndex(r, w, n), n, k - 1)
  }

  lemma TimesOnce(k: nat, n: nat)
    requires k > 0
    ensures k * n == n + (k - 1) * n && (k - 1) * n >= 0
  {
  }

  lemma {:induction false} PutManyDepth(r: Index, w: Index, n: nat, k: nat)
    requires n <= JITTER_SAMPLES && Depth(r, w) + k * n <= MAX_FILL
    ensures Depth(r, PutMany(r, w, n, k)) == Depth(r, w) + k * n
    decreases k
  {
    if k > 0 {
      TimesOnce(k, n);
      AppendDepth(r, w, n);
      PutManyDepth(r, PutIndex(r, w, n), n, k - 1);
    }
  }

  /** How many blocks of n fit under the guard above the depths from `least` on, and the depth to
      start from: then the next block still passes the guard and does not fit. */
  lemma StartingDepth(n: nat, least: nat) returns (d: nat, k: nat)
    requires 512 <= n <= 1024 && least + 512 <= n
    ensures least <= d < least + 512 && d + k * n <= MAX_FILL < d + (k + 1) * n - 511
  {
    var room := MAX_FILL - least;
    k := room / n;
    var rest := room % n;
    assert room == k * n + rest;
    d := least + if rest <= 511 then rest else 511;
    assert (k + 1) * n == k * n + n;
  }

  /** A run from a flush to a full buffer that looks empty, for every block size from 512 on and
      whatever the target is: one put, one played request of up to 512 samples, k more puts, and then
      a put that passes the guard and is lost. */
  lemma OverflowReached(n: nat, target: nat) returns (f: nat, k: nat)
    requires 512 <= n <= 1024 && 512 <= target <= 8192
    ensures f <= 512
    ensures var w0 := PutIndex(0, 0, n);
            var r := GetIndex(0, w0, f, target);
            var w := PutMany(r, w0, n, k);
            && f <= Depth(0, w0) == n
            && Depth(r, w) <= MAX_FILL
            && Depth(r, PutIndex(r, w, n)) != Depth(r, w) + n
  {
    var left := if n < target then n else target;
    var d;
    d, k := StartingDepth(n, left - 512);
    f := left - d;
    var r := GetIndex(0, n, f, target);
    assert r == n - d && Depth(r, n) == d;
    PutManyDepth(r, n, n, k);
    var w := PutMany(r, n, n, k);
    assert (k + 1) * n == k * n + n;
    AppendDepth(r, w, n);
  }
}
