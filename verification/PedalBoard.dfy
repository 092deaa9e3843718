/** The pedal chain: a block of samples through the active effects by two alternating buffers, and
    the edits of the chain. */
module PedalBoard {
  import opened Samples

  type Block = seq<real>

  /** What an effect does to its state and a block; blocks keep their size. */
  type Process<!S> = (S, Block) -> (S, Block)

  ghost predicate KeepsSize<S(!new)>(process: Process<S>) {
    forall s: S, b: Block :: |process(s, b).1| == |b|
  }

  /** An effect on the board: its identity, its bypass switch and its state. */
  datatype Pedal<S> = Pedal(id: nat, bypass: bool, state: S)

  type Chain<S> = seq<Pedal<S>>

  /** A filter sample by sample, such as the DC removal at the output. */
  datatype Filter<!F> = Filter(state: F, step: (F, real) -> (F, real))

  function Filtered<F>(f: Filter<F>, b: Block): (r: (Filter<F>, Block))
    ensures |r.1| == |b|
    decreases |b|
  {
    if b == [] then (f, [])
    else
      var (state, y) := f.step(f.state, b[0]);
      var (g, ys) := Filtered(f.(state := state), b[1..]);
      (g, [y] + ys)
  }

  /** One sample: the step of the filter, whose state goes on. */
  lemma FilteredOne<F(!new)>(f: Filter<F>, x: real)
    ensures Filtered(f, [x]) == (f.(state := f.step(f.state, x).0), [f.step(f.state, x).1])
  {
    var (state, y) := f.step(f.state, x);
    var g := f.(state := state);
    assert [x][1..] == [] && Filtered(g, []) == (g, []);
    assert Filtered(f, [x]) == (Filtered(g, []).0, [y] + Filtered(g, []).1);
    assert [y] + [] == [y];
  }

  /** Two blocks, one after the other, are one: the state is carried from sample to sample and from block to
      block. */
  lemma {:induction false} FilteredAppend<F(!new)>(f: Filter<F>, a: Block, b: Block)
    ensures var (g, x) := Filtered(f, a);
            var (h, y) := Filtered(g, b);
            Filtered(f, a + b) == (h, x + y)
    decreases |a|
  {
    if a == [] {
      assert [] + b == b;
      assert [] + Filtered(f, b).1 == Filtered(f, b).1;
    } else {
      var (state, v) := f.step(f.state, a[0]);
      var g := f.(state := state);
      assert (a + b)[1..] == a[1..] + b;
      FilteredAppend(g, a[1..], b);
      var (h, x) := Filtered(g, a[1..]);
      var y := Filtered(h, b).1;
      assert ([v] + x) + y == [v] + (x + y);
    }
  }

  /** The meaning of the chain: the active effects applied in order, bypassed ones skipped. */
  function Through<S>(process: Process<S>, chain: Chain<S>, b: Block): (Chain<S>, Block)
    decreases |chain|
  {
    if chain == [] then ([], b)
    else if chain[0].bypass then
      var (rest, out) := Through(process, chain[1..], b);
      ([chain[0]] + rest, out)
    else
      var (state, c) := process(chain[0].state, b);
      var (rest, out) := Through(process, chain[1..], c);
      ([chain[0].(state := state)] + rest, out)
  }

  lemma {:induction false} ThroughSize<S(!new)>(process: Process<S>, chain: Chain<S>, b: Block)
    requires KeepsSize(process)
    ensures |Through(process, chain, b).0| == |chain| && |Through(process, chain, b).1| == |b|
    decreases |chain|
  {
    if chain != [] {
      ThroughSize(process, chain[1..], if chain[0].bypass then b else process(chain[0].state, b).1);
    }
  }

  /** Bypassed effects keep their state, and no effect changes its identity or its switch. */
  lemma {:induction false} BypassedKeepState<S(!new)>(process: Process<S>, chain: Chain<S>, b: Block, i: nat)
    requires KeepsSize(process) && i < |chain|
    ensures |Through(process, chain, b).0| == |chain|
    ensures var after := Through(process, chain, b).0[i];
            && after.id == chain[i].id && after.bypass == chain[i].bypass
            && (chain[i].bypass ==> after == chain[i])
    decreases |chain|
  {
    ThroughSize(process, chain, b);
    if i > 0 {
      BypassedKeepState(process, chain[1..], if chain[0].bypass then b else process(chain[0].state, b).1, i - 1);
    }
  }

  /** Two chains in a row are one: the boards compose. */
  lemma {:induction false} ThroughAppend<S(!new)>(process: Process<S>, c: Chain<S>, d: Chain<S>, b: Block)
    ensures var (c1, x) := Through(process, c, b);
            var (d1, y) := Through(process, d, x);
            Through(process, c + d, b) == (c1 + d1, y)
    decreases |c|
  {
    if c == [] {
      assert c + d == d;
      assert [] + Through(process, d, b).0 == Through(process, d, b).0;
    } else {
      assert (c + d)[1..] == c[1..] + d;
      var p := c[0];
      var q := if p.bypass then p else p.(state := process(p.state, b).0);
      var next := if p.bypass then b else process(p.state, b).1;
      ThroughAppend(process, c[1..], d, next);
      var (c1, x) := Through(process, c[1..], next);
      var d1 := Through(process, d, x).0;
      assert ([q] + c1) + d1 == [q] + (c1 + d1);
    }
  }

  /** One pedal: its effect on its state and the block, or nothing if it is bypassed. */
  lemma ThroughOne<S(!new)>(process: Process<S>, p: Pedal<S>, b: Block)
    ensures Through(process, [p], b) ==
      if p.bypass then ([p], b) else ([p.(state := process(p.state, b).0)], process(p.state, b).1)
  {
    assert [p][1..] == [];
    assert Through(process, [], b) == ([], b);
    assert [p] + [] == [p];
    if !p.bypass {
      var (state, c) := process(p.state, b);
      assert Through(process, [], c) == ([], c);
      assert [p.(state := state)] + [] == [p.(state := state)];
    }
  }

  /** One more pedal at the end of what has been processed. */
  lemma ThroughNext<S(!new)>(process: Process<S>, chain: Chain<S>, b: Block, i: nat)
    requires i < |chain|
    ensures var (c1, x) := Through(process, chain[..i], b);
            var p := chain[i];
            Through(process, chain[..i + 1], b) ==
              if p.bypass then (c1 + [p], x)
              else (c1 + [p.(state := process(p.state, x).0)], process(p.state, x).1)
  {
    var x := Through(process, chain[..i], b).1;
    var p := chain[i];
    assert chain[..i + 1] == chain[..i] + [p];
    ThroughAppend(process, chain[..i], [p], b);
    ThroughOne(process, p, x);
  }

  // ---- edits ----

  /** What the effect factory makes of a name: nothing, if it does not know it. */
  datatype Manufactured<S> = Unknown | Made(pedal: Pedal<S>)

  function Inserted<T>(s: seq<T>, idx: int, x: T): seq<T> {
    if idx < 0 || idx >= |s| then s + [x] else s[..idx] + [x] + s[idx..]
  }

  function Deleted<T>(s: seq<T>, idx: int): seq<T> {
    if 0 <= idx < |s| then s[..idx] + s[idx + 1..] else s
  }

  /** Whether movePedal does anything. The indices are compared as unsigned, so negative ones are
      too large. */
  predicate Moves(n: nat, from: int, to: int) {
    0 <= from < n && 0 <= to <= n && from != to
  }

  function Moved<T>(s: seq<T>, from: int, to: int): (r: seq<T>)
    ensures |r| == |s|
  {
    if !Moves(|s|, from, to) then s
    else
      var rest := s[..from] + s[from + 1..];
      if to == |s| then rest + [s[from]] else rest[..to] + [s[from]] + rest[to..]
  }

  /** Where the moved element ends up. */
  function Landing(n: nat, to: int): int {
    if to == n then n - 1 else to
  }

  lemma MovedPermutes<T>(s: seq<T>, from: int, to: int)
    ensures multiset(Moved(s, from, to)) == multiset(s)
  {
    if Moves(|s|, from, to) {
      var rest := s[..from] + s[from + 1..];
      assert s == s[..from] + [s[from]] + s[from + 1..];
      assert multiset(s) == multiset(rest) + multiset{s[from]};
      if to < |s| {
        assert rest == rest[..to] + rest[to..];
        assert multiset(rest) == multiset(rest[..to]) + multiset(rest[to..]);
      }
    }
  }

  /** The moved element is where it was sent, and the others keep their order. */
  lemma MovedKeepsOrder<T>(s: seq<T>, from: int, to: int)
    requires Moves(|s|, from, to)
    ensures var r, at := Moved(s, from, to), Landing(|s|, to);
            && r[at] == s[from]
            && r[..at] + r[at + 1..] == s[..from] + s[from + 1..]
  {
    var rest := s[..from] + s[from + 1..];
    if to < |s| {
      assert rest == rest[..to] + rest[to..];
    }
  }

  /** An insertion puts the new element at its place, or at the end for any other index, and moves those from
      there on by one. */
  lemma InsertedIs<T>(s: seq<T>, idx: int, x: T)
    ensures var r, at := Inserted(s, idx, x), if 0 <= idx < |s| then idx else |s|;
            && |r| == |s| + 1 && r[at] == x && r[..at] == s[..at] && r[at + 1..] == s[at..]
            && multiset(r) == multiset(s) + multiset{x}
  {
    var at := if 0 <= idx < |s| then idx else |s|;
    assert s == s[..at] + s[at..];
  }

  /** A deletion takes out one element and moves those behind it by one, or does nothing. */
  lemma DeletedIs<T>(s: seq<T>, idx: int)
    ensures var r := Deleted(s, idx);
            if 0 <= idx < |s| then
              && |r| == |s| - 1 && r[..idx] == s[..idx] && r[idx..] == s[idx + 1..]
              && multiset(s) == multiset(r) + multiset{s[idx]}
            else r == s
  {
    if 0 <= idx < |s| {
      assert s == s[..idx] + [s[idx]] + s[idx + 1..];
    }
  }

  /** An insertion is undone by deleting the same place. */
  lemma InsertThenDelete<T>(s: seq<T>, idx: int, x: T)
    ensures Deleted(Inserted(s, idx, x), if idx < 0 || idx >= |s| then |s| else idx) == s
  {
    if 0 <= idx < |s| {
      assert s == s[..idx] + s[idx..];
    }
  }

  /** Moving there and back is the identity exactly when the far end is a place on the board: after
      a move past the end there is nothing to move back. All elements are told apart. */
  lemma MoveBack<T(!new)>(s: seq<T>, a: int, b: int)
    requires Moves(|s|, a, b)
    requires forall i, j :: 0 <= i < j < |s| ==> s[i] != s[j]
    ensures Moved(Moved(s, a, b), b, a) == s <==> b < |s| || a == |s| - 1
  {
    var r := Moved(s, a, b);
    MovedKeepsOrder(s, a, b);
    if b < |s| {
      MovedThereAndBack(s, a, b);
    } else {
      assert r == s[..a] + s[a + 1..] + [s[a]];
      assert Moved(r, b, a) == r;
      if a == |s| - 1 {
        assert r == s;
      } else {
        assert r[a] == s[a + 1];
      }
    }
  }

  lemma MovedThereAndBack<T>(s: seq<T>, a: int, b: int)
    requires Moves(|s|, a, b) && b < |s|
    ensures Moved(Moved(s, a, b), b, a) == s
  {
    var rest := s[..a] + s[a + 1..];
    MovedKeepsOrder(s, a, b);
  }

  /** What the tuner makes of a block it listens to. */
  type Listen<!T> = (T, Block) -> T

  class Board<S(!new), F, T> {
    var chain: Chain<S>
    const process: Process<S>
    var dcRemoval: Filter<F>
    const listen: Listen<T>
    var tuner: T
    var tuning: bool
    var stable: bool

    constructor (process: Process<S>, dcRemoval: Filter<F>, listen: Listen<T>, tuner: T)
      ensures chain == [] && this.process == process && this.dcRemoval == dcRemoval && !tuning && stable
      ensures this.listen == listen && this.tuner == tuner
    {
      this.process := process;
      this.dcRemoval := dcRemoval;
      this.listen, this.tuner := listen, tuner;
      chain, tuning, stable := [], false, true;
    }

    method InsertPedal(idx: int, m: Manufactured<S>)
      modifies this`chain, this`stable
      ensures chain == (if m.Made? then Inserted(old(chain), idx, m.pedal) else old(chain)) && stable
    {
      stable := false;
      if m.Made? {
        if idx < 0 || idx >= |chain| {
          chain := chain + [m.pedal];
        } else {
          chain := chain[..idx] + [m.pedal] + chain[idx..];
        }
      }
      stable := true;
    }

    method DeletePedal(idx: int)
      modifies this`chain, this`stable
      ensures chain == Deleted(old(chain), idx) && stable
    {
      stable := false;
      if 0 <= idx < |chain| {
        chain := chain[..idx] + chain[idx + 1..];
      }
      stable := true;
    }

    method MovePedal(from: int, to: int)
      modifies this`chain, this`stable
      ensures chain == Moved(old(chain), from, to)
      ensures stable == (old(stable) || Moves(|old(chain)|, from, to))
    {
      if from < 0 || from >= |chain| || to < 0 || to > |chain| || from == to {
        return;
      }
      stable := false;
      var size := |chain|;
      var pedal := chain[from];
      chain := chain[..from] + chain[from + 1..];
      if to == size {
        chain := chain + [pedal];
      } else {
        chain := chain[..to] + [pedal] + chain[to..];
      }
      stable := true;
    }

    /** A block through the board. The input may be the output array itself. */
    method ProcessBlock(input: array<real>, output: array<real>, framesize: nat)
      requires KeepsSize(process) && framesize <= input.Length && framesize <= output.Length
      modifies this`chain, this`dcRemoval, this`tuner, output
      ensures output[framesize..] == old(output[framesize..])
      ensures tuning ==> output[..framesize] == Zeros(framesize)
                         && chain == old(chain) && dcRemoval == old(dcRemoval)
                         && tuner == listen(old(tuner), old(input[..framesize]))
      ensures !tuning ==> tuner == old(tuner)
      ensures !tuning ==>
        var (c, b) := Through(process, old(chain), old(input[..framesize]));
        var (f, out) := Filtered(old(dcRemoval), b);
        chain == c && dcRemoval == f && output[..framesize] == out
    {
      if tuning {
        tuner := listen(tuner, input[..framesize]);
        for i := 0 to framesize
          invariant chain == old(chain) && dcRemoval == old(dcRemoval)
          invariant tuner == listen(old(tuner), old(input[..framesize]))
          invariant forall k :: 0 <= k < i ==> output[k] == 0.0
          invariant output[framesize..] == old(output[framesize..])
        {
          output[i] := 0.0;
        }
        return;
      }
      var last := ThroughChain(input[..framesize]);
      RemoveDC(last, output, framesize);
    }

    /** The loop over the chain: each active effect from one buffer into the other, then the
        buffers change places. The last result is in the buffer that would be read next. */
    method ThroughChain(block: seq<real>) returns (inBuff: array<real>)
      requires KeepsSize(process)
      modifies this`chain
      ensures fresh(inBuff)
      ensures (chain, inBuff[..]) == Through(process, old(chain), block)
      ensures inBuff.Length == |block|
    {
      ghost var c0 := chain;
      var ping, pong := new real[|block|], new real[|block|];
      var outBuff := pong;
      inBuff := ping;
      CopyTo(block, inBuff);
      assert c0[..0] == [];
      for i := 0 to |chain|
        invariant |chain| == |c0| && fresh(inBuff) && fresh(outBuff) && inBuff != outBuff
        invariant inBuff.Length == outBuff.Length == |block|
        invariant chain[..i] == Through(process, c0[..i], block).0 && chain[i..] == c0[i..]
        invariant inBuff[..] == Through(process, c0[..i], block).1
      {
        ThroughNext(process, c0, block, i);
        assert chain[i] == chain[i..][0] == c0[i];
        ghost var done := chain[..i];
        if !chain[i].bypass {
          var (state, result) := process(chain[i].state, inBuff[..]);
          CopyTo(result, outBuff);
          chain := chain[i := chain[i].(state := state)];
          inBuff, outBuff := outBuff, inBuff;
        }
        assert chain[..i + 1] == done + [chain[i]];
        assert chain[i + 1..] == c0[i..][1..] == c0[i + 1..];
      }
      assert c0[..|c0|] == c0 && chain[..|chain|] == chain;
    }

    method CopyTo(src: seq<real>, dst: array<real>)
      requires |src| == dst.Length
      modifies dst
      ensures dst[..] == src
    {
      for i := 0 to |src|
        invariant dst[..i] == src[..i]
      {
        dst[i] := src[i];
      }
    }

    /** The DC filter's block loop. */
    method RemoveDC(input: array<real>, output: array<real>, framesize: nat)
      requires input.Length == framesize <= output.Length && input != output
      modifies this`dcRemoval, output
      ensures dcRemoval == Filtered(old(dcRemoval), old(input[..])).0
      ensures output[..framesize] == Filtered(old(dcRemoval), old(input[..])).1
      ensures output[framesize..] == old(output[framesize..])
    {
      ghost var xs := input[..];
      for i := 0 to framesize
        invariant input[..] == xs && output[framesize..] == old(output[framesize..])
        invariant Filtered(dcRemoval, xs[i..]).0 == Filtered(old(dcRemoval), xs).0
        invariant output[..i] + Filtered(dcRemoval, xs[i..]).1 == Filtered(old(dcRemoval), xs).1
      {
        var (state, y) := dcRemoval.step(dcRemoval.state, input[i]);
        ghost var rest := xs[i..];
        assert rest[0] == input[i] && rest[1..] == xs[i + 1..];
        ghost var ys := Filtered(dcRemoval.(state := state), rest[1..]).1;
        ghost var done := output[..i];
        dcRemoval := dcRemoval.(state := state);
        output[i] := y;
        assert output[..i + 1] + ys == done + ([y] + ys);
      }
    }

    /** While the chain is being edited the input passes through unchanged. */
    method DoProcess(input: array<real>, output: array<real>, framesize: nat)
      requires KeepsSize(process) && framesize <= input.Length && framesize <= output.Length
      modifies this`chain, this`dcRemoval, this`tuner, output
      ensures output[framesize..] == old(output[framesize..])
      ensures !stable ==> output[..framesize] == old(input[..framesize])
                          && chain == old(chain) && dcRemoval == old(dcRemoval) && tuner == old(tuner)
      ensures stable && tuning ==> output[..framesize] == Zeros(framesize)
                                   && chain == old(chain) && dcRemoval == old(dcRemoval)
                                   && tuner == listen(old(tuner), old(input[..framesize]))
      ensures stable && !tuning ==>
        var (c, b) := Through(process, old(chain), old(input[..framesize]));
        var (f, out) := Filtered(old(dcRemoval), b);
        chain == c && dcRemoval == f && tuner == old(tuner) && output[..framesize] == out
    {
      if stable {
        ProcessBlock(input, output, framesize);
      } else {
        var copy := input[..framesize];
        for i := 0 to framesize
          invariant chain == old(chain) && dcRemoval == old(dcRemoval) && tuner == old(tuner)
          invariant output[..i] == copy[..i] && output[framesize..] == old(output[framesize..])
        {
          output[i] := copy[i];
        }
      }
    }
  }
}
