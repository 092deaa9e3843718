/** The class: a circular array and two indices, refining the queue of JitterState. */
module JitterBuffers {
  import opened Statistics
  import opened Samples
  import opened JitterRing
  import opened J = JitterState

  /** Copy `src` into `dst` from position `at` on. */
  method CopySamples(dst: array<real>, at: nat, src: seq<real>)
    requires at + |src| <= dst.Length
    modifies dst
    ensures dst[..] == old(dst[..at]) + src + old(dst[at + |src|..])
  {
    for i := 0 to |src|
      invariant dst[..at] == old(dst[..at])
      invariant dst[at..at + i] == src[..i]
      invariant dst[at + i..] == old(dst[at + i..])
    {
      dst[at + i] := src[i];
      assert dst[at + i + 1..] == old(dst[at + i + 1..]);
    }
  }

  class JitterBuffer {
    const myBuffer: array<real>
    const bufferStats: StreamTimeStats
    const m_depthFilter: PeakDetector
    var readIdx: int
    var writeIdx: int
    var targetDepth: int
    var numOverruns: int
    var numUnderruns: int
    var numPuts: int
    var nSigma: real
    var numGets: int
    var lastSequence: uint32
    var numDropped: int
    var numDups: int
    var m_filling: bool
    var m_fillDepth: int

    ghost predicate Valid()
      reads this, myBuffer, bufferStats, m_depthFilter
    {
      && myBuffer.Length == JITTER_SAMPLES
      && 0 <= readIdx <= JITTER_SAMPLES && 0 <= writeIdx <= JITTER_SAMPLES
      && bufferStats.windowSize >= 1.0
      && m_depthFilter.View().Valid()
    }

    /** The state as a queue. */
    ghost function View(): (v: Jitter)
      requires Valid()
      reads this, myBuffer, bufferStats, m_depthFilter
      ensures v.Valid()
    {
      Jitter(LineView(), targetDepth, nSigma, numGets, numDropped, numDups, numOverruns, numUnderruns,
             bufferStats.View(), m_depthFilter.View())
    }

    ghost function LineView(): Line
      requires Valid()
      reads this, myBuffer, bufferStats, m_depthFilter
    {
      Line(Contents(myBuffer[..], readIdx, writeIdx), lastSequence, m_filling, m_fillDepth, numPuts)
    }

    constructor (attack: real, release: real)
      requires 0.0 <= attack <= 1.0 && 0.0 <= release <= 1.0
      ensures Valid() && fresh(myBuffer) && fresh(bufferStats) && fresh(m_depthFilter)
      ensures View() == J.Flush(View(), 0)
      ensures View().stats == Stats(0.0, 0.0, 0.0, 20.0) && View().filter == Envelope(attack, release, 0.0, 0.0)
    {
      myBuffer := new real[JITTER_SAMPLES];
      bufferStats := new StreamTimeStats();
      m_depthFilter := new PeakDetector(attack, release);
      readIdx, writeIdx := 0, 0;
      numOverruns, numUnderruns, numPuts, numGets, numDropped, numDups := 0, 0, 0, 0, 0, 0;
      lastSequence, targetDepth, nSigma := 0, MIN_DEPTH, MIN_SIGMA;
      m_filling, m_fillDepth := true, 0;
      new;
      bufferStats.windowSize := 20.0;
    }

    method Flush(initialDepth: int)
      requires Valid()
      modifies this
      ensures Valid() && View() == J.Flush(old(View()), initialDepth)
    {
      ghost var stats, filter := bufferStats.View(), m_depthFilter.View();
      EmptyLine(initialDepth);
      ClearCounters();
      targetDepth := Unsigned(MIN_DEPTH + initialDepth);
      nSigma := MIN_SIGMA;
      assert bufferStats.View() == stats && m_depthFilter.View() == filter;
      assert View() == Jitter(LineView(), targetDepth, nSigma, 0, 0, 0, 0, 0, stats, filter);
    }

    method ClearCounters()
      requires Valid()
      modifies this`numOverruns, this`numUnderruns, this`numGets, this`numDropped, this`numDups
      ensures Valid() && LineView() == old(LineView())
      ensures numOverruns == numUnderruns == numGets == numDropped == numDups == 0
    {
      numOverruns, numUnderruns, numGets, numDropped, numDups := 0, 0, 0, 0, 0;
    }

    /** The assignments of `flush` that decide what is played next. */
    method EmptyLine(initialDepth: int)
      requires Valid()
      modifies this`readIdx, this`writeIdx, this`numPuts, this`lastSequence, this`m_filling, this`m_fillDepth
      ensures Valid() && LineView() == Line([], 0, true, initialDepth, 0)
    {
      readIdx, writeIdx := 0, 0;
      numPuts := 0;
      lastSequence := 0;
      m_filling := true;
      m_fillDepth := initialDepth;
    }

    method SetSmoothness(smooth: real)
      requires Valid()
      modifies this
      ensures Valid() && View() == J.SetSmoothness(old(View()), smooth)
    {
      Flush(Truncate(smooth * 20.0 * 512.0));
      nSigma := MIN_SIGMA + smooth * 100.0;
    }

    method CurrentDepth() returns (d: nat)
      requires Valid()
      ensures d == |LineView().queue|
    {
      if writeIdx >= readIdx {
        return writeIdx - readIdx;
      }
      return JITTER_SAMPLES - readIdx + writeIdx;
    }

    /** A block of any size up to the frame buffer keeps the indices in range; one that fits, as
        every block of up to 511 samples does, is appended to the queue. */
    method PutIn(buffer: seq<real>, seqNo: uint32)
      requires Valid() && |buffer| <= 1024
      modifies this, myBuffer
      ensures Valid()
      ensures readIdx == old(readIdx)
      ensures writeIdx == if seqNo == old(lastSequence) then old(writeIdx) else PutIndex(readIdx, old(writeIdx), |buffer|)
      ensures Fits(old(readIdx), old(writeIdx), |buffer|) ==> View() == J.PutIn(old(View()), buffer, seqNo)
      ensures |buffer| <= 511 ==> View() == J.PutIn(old(View()), buffer, seqNo)
    {
      var duplicate := CountPut(seqNo);
      if duplicate {
        return;
      }
      var d := CurrentDepth();
      if d > MAX_FILL {
        return;
      }
      AppendDepth(readIdx, writeIdx, |buffer|);
      AppendBuffer(buffer);
    }

    /** Sequence numbers and counters: true for a duplicate packet. */
    method CountPut(seqNo: uint32) returns (duplicate: bool)
      requires Valid()
      modifies this`lastSequence, this`numPuts, this`numDropped, this`numDups
      ensures Valid() && duplicate == (seqNo == old(lastSequence))
      ensures lastSequence == seqNo && numPuts == old(numPuts) + 1
      ensures numDropped == old(numDropped) + if Dropped(old(lastSequence), seqNo) < -1 then 1 else 0
      ensures numDups == old(numDups) + if Dropped(old(lastSequence), seqNo) == 0 then 1 else 0
    {
      var dropped := Dropped(lastSequence, seqNo);
      DroppedZero(lastSequence, seqNo);
      lastSequence := seqNo;
      numPuts := numPuts + 1;
      if dropped < -1 {
        numDropped := numDropped + 1;
      }
      if dropped == 0 {
        numDups := numDups + 1;
        return true;
      }
      return false;
    }

    method AppendBuffer(buffer: seq<real>)
      requires Valid() && |buffer| <= 1024
      modifies this`writeIdx, myBuffer
      ensures Valid() && writeIdx == Advance(old(writeIdx), |buffer|)
      ensures Fits(readIdx, old(writeIdx), |buffer|) ==>
                Contents(myBuffer[..], readIdx, writeIdx) == old(LineView()).queue + buffer
    {
      var frames := |buffer|;
      ghost var b := myBuffer[..];
      if JITTER_SAMPLES - writeIdx >= frames {
        CopySamples(myBuffer, writeIdx, buffer);
        writeIdx := writeIdx + frames;
      } else {
        var room := JITTER_SAMPLES - writeIdx;
        CopySamples(myBuffer, writeIdx, buffer[..room]);
        CopySamples(myBuffer, 0, buffer[room..]);
        writeIdx := frames - room;
      }
      assert myBuffer[..] == Stored(b, old(writeIdx), buffer);
      if Fits(readIdx, old(writeIdx), frames) {
        Append(b, readIdx, old(writeIdx), buffer);
      }
    }

    /** A request of any size that a mix buffer holds. One that does not overtake the writer, as none
        of up to 512 samples does, is served from the queue; for the others the contract says which
        cells are read and where the read index ends. */
    method GetOut(buffer: array<real>, frames: nat)
      requires Valid() && frames <= 1024 && frames <= buffer.Length && buffer != myBuffer
      modifies this, bufferStats, m_depthFilter, buffer
      ensures Valid() && writeIdx == old(writeIdx) && buffer[frames..] == old(buffer[frames..])
      ensures MIN_DEPTH <= targetDepth <= MAX_DEPTH
      ensures readIdx == if Plays(old(LineView()), frames) then GetIndex(old(readIdx), writeIdx, frames, targetDepth) else old(readIdx)
      ensures var s := old(View());
              if frames <= MIN_DEPTH || !Overtakes(s.line, frames, Measure(s).targetDepth) then
                View() == J.GetOut(s, frames).0 && buffer[..frames] == J.GetOut(s, frames).1
              else ReadsOver(Measure(s), old(readIdx), buffer[..frames])
    {
      MeasureDepth();
      DeliverBlock(buffer, frames);
    }

    /** What a block that overtakes the writer leaves. */
    ghost predicate ReadsOver(t: Jitter, r: Index, out: seq<real>)
      requires Valid() && |out| <= JITTER_SAMPLES
      reads this, myBuffer, bufferStats, m_depthFilter
    {
      t.Valid() && t.targetDepth >= 0 &&
      var over := Trim(|t.line.queue|, t.targetDepth);
      && out == Taken(myBuffer[..], Advance(r, over), |out|)
      && View() == t.(line := t.line.(filling := false, queue := Contents(myBuffer[..], readIdx, writeIdx)),
                      numOverruns := t.numOverruns + if over > 0 then 1 else 0)
    }

    /** Update the statistics and the dynamic target depth. */
    method MeasureDepth()
      requires Valid()
      modifies this`numGets, this`targetDepth, bufferStats, m_depthFilter
      ensures Valid() && View() == Measure(old(View()))
      ensures MIN_DEPTH <= targetDepth <= MAX_DEPTH
    {
      ghost var s := View();
      FilterStaysValid(s);
      numGets := numGets + 1;
      var d := CurrentDepth();
      bufferStats.Add(d as real);
      var deviation := nSigma * bufferStats.sigma;
      assert deviation == Deviation(s);
      var y := m_depthFilter.GetSample(deviation);
      SetTarget(y);
      MeasuredFields(s, View());
    }

    method SetTarget(y: real)
      requires y >= 0.0
      modifies this`targetDepth
      ensures targetDepth == DynamicTarget(y) && MIN_DEPTH <= targetDepth <= MAX_DEPTH
    {
      DynamicTargetInRange(y);
      targetDepth := Truncate(MIN_DEPTH as real + y);
      if targetDepth > MAX_DEPTH {
        targetDepth := MAX_DEPTH;
      }
    }

    method DeliverBlock(buffer: array<real>, frames: nat)
      requires Valid() && MIN_DEPTH <= targetDepth <= MAX_DEPTH
      requires frames <= 1024 && frames <= buffer.Length && buffer != myBuffer
      modifies this, buffer
      ensures Valid() && writeIdx == old(writeIdx) && buffer[frames..] == old(buffer[frames..])
      ensures targetDepth == old(targetDepth)
      ensures readIdx == if Plays(old(LineView()), frames) then GetIndex(old(readIdx), writeIdx, frames, targetDepth) else old(readIdx)
      ensures var s := old(View());
              if frames <= MIN_DEPTH || !Overtakes(s.line, frames, s.targetDepth) then
                View() == Deliver(s, frames).0 && buffer[..frames] == Deliver(s, frames).1
              else ReadsOver(s, old(readIdx), buffer[..frames])
    {
      var d := CurrentDepth();
      var silent := StaySilent(d, frames);
      if silent {
        CopySamples(buffer, 0, Zeros(frames));
        return;
      }
      PlayBlock(buffer, frames);
    }

    /** Trim, then read: the front of what is left, if it holds so much. */
    method PlayBlock(buffer: array<real>, frames: nat)
      requires Valid() && MIN_DEPTH <= targetDepth <= MAX_DEPTH
      requires frames <= 1024 && frames <= buffer.Length && buffer != myBuffer
      modifies this`readIdx, this`numOverruns, buffer
      ensures Valid() && buffer[frames..] == old(buffer[frames..])
      ensures var over := Trim(|old(LineView()).queue|, targetDepth);
              && readIdx == GetIndex(old(readIdx), writeIdx, frames, targetDepth)
              && buffer[..frames] == Taken(myBuffer[..], Advance(old(readIdx), over), frames)
              && numOverruns == old(numOverruns) + (if over > 0 then 1 else 0)
              && (over + frames <= |old(LineView()).queue| ==>
                    var q := old(LineView()).queue[over..];
                    LineView() == old(LineView()).(queue := q[frames..]) && buffer[..frames] == q[..frames])
    {
      SkipOver();
      ReadBlock(buffer, frames);
    }

    /** The prefill and underrun branches: true where zeros are played. */
    method StaySilent(d: nat, frames: nat) returns (silent: bool)
      requires Valid() && d == |LineView().queue|
      modifies this`m_filling, this`numUnderruns
      ensures Valid() && silent == !Plays(old(LineView()), frames)
      ensures var l := old(LineView());
              && LineView() == l.(filling := if Prefills(l) then true else if silent then numPuts > 0 else false)
              && numUnderruns == old(numUnderruns) + if silent && !Prefills(l) && numPuts > 0 then 1 else 0
    {
      if m_filling && d < m_fillDepth {
        return true;
      }
      m_filling := false;
      if d < frames {
        if numPuts > 0 {
          numUnderruns := numUnderruns + 1;
          m_filling := true;
        }
        return true;
      }
      return false;
    }

    /** Advance the read index over what is above the target depth. */
    method SkipOver()
      requires Valid() && MIN_DEPTH <= targetDepth <= MAX_DEPTH
      modifies this`readIdx, this`numOverruns
      ensures Valid()
      ensures var over := Trim(|old(LineView()).queue|, targetDepth);
              && over <= JITTER_SAMPLES && readIdx == Advance(old(readIdx), over)
              && LineView() == old(LineView()).(queue := old(LineView()).queue[over..])
              && numOverruns == old(numOverruns) + if over > 0 then 1 else 0
    {
      var d := CurrentDepth();
      var framesLeft := JITTER_SAMPLES - readIdx;
      var numOverBuf := d - targetDepth;
      Read(myBuffer[..], readIdx, writeIdx, Trim(d, targetDepth));
      if numOverBuf > 0 {
        numOverruns := numOverruns + 1;
        if framesLeft >= numOverBuf {
          readIdx := readIdx + numOverBuf;
        } else {
          readIdx := numOverBuf - framesLeft;
        }
      }
    }

    method ReadBlock(buffer: array<real>, frames: nat)
      requires Valid() && frames <= buffer.Length && frames <= JITTER_SAMPLES && buffer != myBuffer
      modifies this`readIdx, buffer
      ensures Valid() && readIdx == Advance(old(readIdx), frames) && buffer[frames..] == old(buffer[frames..])
      ensures buffer[..frames] == Taken(myBuffer[..], old(readIdx), frames)
      ensures frames <= |old(LineView()).queue| ==>
        && LineView() == old(LineView()).(queue := old(LineView()).queue[frames..])
        && buffer[..frames] == old(LineView()).queue[..frames]
    {
      var b := myBuffer[..];
      if frames <= |LineView().queue| {
        Read(b, readIdx, writeIdx, frames);
      }
      var framesLeft := JITTER_SAMPLES - readIdx;
      if framesLeft >= frames {
        CopySamples(buffer, 0, b[readIdx..readIdx + frames]);
        readIdx := readIdx + frames;
      } else {
        CopyTwo(buffer, b[readIdx..], b[..frames - framesLeft]);
        readIdx := frames - framesLeft;
      }
      assert myBuffer[..] == b;
    }
  }

  /** The block that wraps: some off the end of the array, some from its head. */
  method CopyTwo(dst: array<real>, first: seq<real>, second: seq<real>)
    requires |first| + |second| <= dst.Length
    modifies dst
    ensures dst[..] == (first + second) + old(dst[|first| + |second|..])
  {
    CopySamples(dst, 0, first);
    ghost var mid := dst[..];
    CopySamples(dst, |first|, second);
    assert mid[..|first|] == first;
  }

  lemma MeasuredFields(s: Jitter, t: Jitter)
    requires s.Valid()
    requires t == s.(numGets := s.numGets + 1, stats := t.stats, filter := t.filter, targetDepth := t.targetDepth)
    requires t.stats == AddSample(s.stats, |s.line.queue| as real)
    requires t.filter == MeasuredFilter(s) && t.targetDepth == DynamicTarget(t.filter.peak)
    ensures t == Measure(s)
  {
  }

  lemma DroppedZero(last: uint32, seqNo: uint32)
    ensures Dropped(last, seqNo) == 0 <==> last == seqNo
  {
    var d := last - seqNo;
    if d >= 0 {
      assert d % TWO32 == d;
    } else {
      assert d % TWO32 == d + TWO32;
    }
  }
}
