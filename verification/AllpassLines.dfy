/** The delay-line classes: one value overwritten in place and the indices advanced, refining the
    queue steps of Allpass. */
module AllpassLines {
  import opened Samples
  import opened Allpass

  /** A ring of |b| cells from index i on. */
  function Rotated(b: seq<real>, i: nat): (q: Delay)
    requires i < |b|
    ensures |q| == |b|
  {
    b[i..] + b[..i]
  }

  function NextIndex(i: nat, n: nat): nat {
    if i + 1 >= n then 0 else i + 1
  }

  lemma IndexWraps(i: nat, n: nat)
    requires i < n
    ensures (i + 1) % n == NextIndex(i, n)
  {
  }

  lemma Overwrite(b: seq<real>, i: nat, v: real)
    requires i < |b|
    ensures Rotated(b[i := v], NextIndex(i, |b|)) == Rotated(b, i)[1..] + [v]
    ensures b[i] == Rotated(b, i)[0]
  {
  }

  lemma StepIs(q: Delay, cell: Cell, x: real, v: real, q1: Delay, y: real)
    requires v == cell(q[0], x).0 && y == cell(q[0], x).1 && q1 == q[1..] + [v]
    ensures Step(q, cell, x) == (q1, y)
  {
  }

  class AllpassDelay {
    const gain: real
    const delayLine: array<real>
    var delayIndex: nat

    ghost predicate Valid()
      reads this
    {
      delayIndex < delayLine.Length
    }

    ghost function Queue(): Delay
      requires Valid()
      reads this, delayLine
    {
      Rotated(delayLine[..], delayIndex)
    }

    constructor (length: nat, gain: real)
      requires length >= 1
      ensures Valid() && this.gain == gain && Queue() == Cleared(length) && fresh(delayLine)
    {
      this.gain := gain;
      delayLine := new real[length](_ => 0.0);
      delayIndex := 0;
    }

    method GetSample(input: real) returns (delayOut: real)
      requires Valid()
      modifies this, delayLine
      ensures Valid() && (Queue(), delayOut) == Step(old(Queue()), DelayCell(gain), input)
    {
      ghost var b := delayLine[..];
      delayOut := delayLine[delayIndex];
      var delayIn := input + delayOut * gain;
      Overwrite(b, delayIndex, delayIn);
      delayLine[delayIndex] := delayIn;
      delayOut := delayOut + delayIn * (-1.0 * gain);
      IndexWraps(delayIndex, delayLine.Length);
      delayIndex := (delayIndex + 1) % delayLine.Length;
      assert delayLine[..] == b[old(delayIndex) := delayIn];
      StepIs(Rotated(b, old(delayIndex)), DelayCell(gain), input, delayIn, Queue(), delayOut);
    }
  }

  /** The index arithmetic the four-tap lines share. */
  function Active(length: nat): nat {
    if length == 0 then 1 else length
  }

  /** The `Allpass` of MVerb: the other update of the same filter. */
  class VerbAllpass {
    const buffer: array<real>
    var index: nat
    var length: nat
    var feedback: real

    ghost predicate Valid()
      reads this
    {
      Active(length) <= buffer.Length && index < Active(length)
    }

    ghost function Queue(): (q: Delay)
      requires Valid()
      reads this, buffer
      ensures |q| == Active(length)
    {
      Rotated(buffer[..Active(length)], index)
    }

    constructor (maxLength: nat)
      requires maxLength >= 1
      ensures Valid() && fresh(buffer) && length == maxLength - 1 && feedback == 0.5
      ensures Queue() == Cleared(Active(length))
    {
      buffer := new real[maxLength](_ => 0.0);
      index, length, feedback := 0, maxLength - 1, 0.5;
    }

    method Process(input: real) returns (output: real)
      requires Valid()
      modifies this`index, buffer
      ensures Valid() && (Queue(), output) == Step(old(Queue()), VerbCell(feedback), input)
    {
      ghost var b := buffer[..Active(length)];
      var bufout := buffer[index];
      var temp := input * -feedback;
      output := bufout + temp;
      var stored := input + (bufout + temp) * feedback;
      Overwrite(b, index, stored);
      buffer[index] := stored;
      assert buffer[..|b|] == b[index := stored];
      index := NextIndex(index, length);
      StepIs(Rotated(b, old(index)), VerbCell(feedback), input, stored, Queue(), output);
    }
  }

  /** How far a tap is behind the write position. */
  function Offset(tap: nat, write: nat, n: nat): nat
    requires tap < n && write < n
  {
    if tap >= write then tap - write else tap - write + n
  }

  /** Indices that advance together keep their distance. */
  lemma OffsetKept(tap: nat, write: nat, n: nat)
    requires tap < n && write < n
    ensures Offset(NextIndex(tap, n), NextIndex(write, n), n) == Offset(tap, write, n)
  {
  }

  /** `StaticAllpassFourTap`: the same line with three more indices. */
  class StaticAllpassFourTap {
    const buffer: array<real>
    var index: (nat, nat, nat, nat)
    var length: nat
    var feedback: real

    /** The indices are inside the part of the buffer in use. */
    ghost predicate Valid()
      reads this
    {
      var n := Active(length);
      && n <= buffer.Length
      && index.0 < n && index.1 < n && index.2 < n && index.3 < n
    }

    ghost function Queue(): (q: Delay)
      requires Valid()
      reads this, buffer
      ensures |q| == Active(length)
    {
      Rotated(buffer[..Active(length)], index.0)
    }

    constructor (maxLength: nat)
      requires maxLength >= 1
      ensures Valid() && buffer.Length == maxLength && length == maxLength - 1 && feedback == 0.5
      ensures Queue() == Cleared(Active(length)) && fresh(buffer)
    {
      buffer := new real[maxLength](_ => 0.0);
      index := (0, 0, 0, 0);
      length := maxLength - 1;
      feedback := 0.5;
    }

    method Process(input: real) returns (output: real)
      requires Valid()
      modifies this`index, buffer
      ensures Valid() && (Queue(), output) == Step(old(Queue()), VerbCell(feedback), input)
      ensures var n := Active(length);
              && Offset(index.1, index.0, n) == old(Offset(index.1, index.0, n))
              && Offset(index.2, index.0, n) == old(Offset(index.2, index.0, n))
              && Offset(index.3, index.0, n) == old(Offset(index.3, index.0, n))
    {
      var n := Active(length);
      ghost var b := buffer[..n];
      var bufout := buffer[index.0];
      var temp := input * -feedback;
      output := bufout + temp;
      var stored := input + (bufout + temp) * feedback;
      Overwrite(b, index.0, stored);
      OffsetKept(index.1, index.0, n);
      OffsetKept(index.2, index.0, n);
      OffsetKept(index.3, index.0, n);
      buffer[index.0] := stored;
      assert buffer[..n] == b[index.0 := stored];
      index := (NextIndex(index.0, length), NextIndex(index.1, length), NextIndex(index.2, length), NextIndex(index.3, length));
      StepIs(Rotated(b, old(index.0)), VerbCell(feedback), input, stored, Queue(), output);
    }

    /** A tap reads the queue at its fixed offset. */
    method GetIndex(which: int) returns (r: real)
      requires Valid()
      ensures var tap := if which == 1 then index.1 else if which == 2 then index.2 else if which == 3 then index.3 else index.0;
              r == Queue()[Offset(tap, index.0, Active(length))]
    {
      var tap := if which == 1 then index.1 else if which == 2 then index.2 else if which == 3 then index.3 else index.0;
      r := buffer[tap];
    }

    method SetIndex(index1: nat, index2: nat, index3: nat, index4: nat)
      requires Valid()
      requires var n := Active(length); index1 < n && index2 < n && index3 < n && index4 < n
      modifies this`index
      ensures Valid() && index == (index1, index2, index3, index4)
    {
      index := (index1, index2, index3, index4);
    }

    /** Zero everywhere, all taps at the front. */
    method Clear()
      modifies this`index, buffer
      ensures index == (0, 0, 0, 0)
      ensures Active(length) <= buffer.Length ==> Valid() && Queue() == Cleared(Active(length))
      ensures forall k :: 0 <= k < buffer.Length ==> buffer[k] == 0.0
    {
      for i := 0 to buffer.Length
        invariant forall k :: 0 <= k < i ==> buffer[k] == 0.0
      {
        buffer[i] := 0.0;
      }
      index := (0, 0, 0, 0);
    }

    /** Lengths above the buffer are cut to it, negative ones to zero; a line of length zero behaves
        as one of length one. The indices are inside the new length or not. */
    method SetLength(newLength: int)
      requires buffer.Length >= 1
      modifies this`length
      ensures length == if newLength >= buffer.Length then buffer.Length else if newLength < 0 then 0 else newLength
      ensures Active(length) <= buffer.Length
      ensures Valid() <==> var n := Active(length); index.0 < n && index.1 < n && index.2 < n && index.3 < n
    {
      var l := newLength;
      if l >= buffer.Length {
        l := buffer.Length;
      }
      if l < 0 {
        l := 0;
      }
      length := l;
    }

    /** What the callers do: clear the line before they resize it. */
    method ClearAndSetLength(newLength: int)
      requires buffer.Length >= 1
      modifies this`index, this`length, buffer
      ensures Valid()
      ensures length == if newLength >= buffer.Length then buffer.Length else if newLength < 0 then 0 else newLength
      ensures Queue() == Cleared(Active(length))
    {
      Clear();
      SetLength(newLength);
    }
  }

  /** `StaticDelayLineFourTap`; `StaticDelayLine` is the same line with one index. */
  class StaticDelayLineFourTap {
    const buffer: array<real>
    var index: (nat, nat, nat, nat)
    var length: nat

    ghost predicate Valid()
      reads this
    {
      var n := Active(length);
      && n <= buffer.Length
      && index.0 < n && index.1 < n && index.2 < n && index.3 < n
    }

    ghost function Queue(): (q: Delay)
      requires Valid()
      reads this, buffer
      ensures |q| == Active(length)
    {
      Rotated(buffer[..Active(length)], index.0)
    }

    constructor (maxLength: nat)
      requires maxLength >= 1
      ensures Valid() && buffer.Length == maxLength && length == maxLength - 1
      ensures Queue() == Cleared(Active(length)) && fresh(buffer)
    {
      buffer := new real[maxLength](_ => 0.0);
      index := (0, 0, 0, 0);
      length := maxLength - 1;
    }

    method Process(input: real) returns (output: real)
      requires Valid()
      modifies this`index, buffer
      ensures Valid() && (Queue(), output) == Step(old(Queue()), PlainCell(), input)
      ensures var n := Active(length);
              && Offset(index.1, index.0, n) == old(Offset(index.1, index.0, n))
              && Offset(index.2, index.0, n) == old(Offset(index.2, index.0, n))
              && Offset(index.3, index.0, n) == old(Offset(index.3, index.0, n))
    {
      var n := Active(length);
      ghost var b := buffer[..n];
      output := buffer[index.0];
      Overwrite(b, index.0, input);
      OffsetKept(index.1, index.0, n);
      OffsetKept(index.2, index.0, n);
      OffsetKept(index.3, index.0, n);
      buffer[index.0] := input;
      assert buffer[..n] == b[index.0 := input];
      index := (NextIndex(index.0, length), NextIndex(index.1, length), NextIndex(index.2, length), NextIndex(index.3, length));
    }
  }
}
