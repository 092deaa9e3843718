/** What poll does with the answers of the operating system, and what a receiver makes of them over
    whole runs. */
module WsPolls {
  import opened Bytes
  import opened WsFrame
  import opened WsState
  import opened WsReceive
  import opened WsTransmit

  // ---- one poll ----

  /** The data of the answers of recv, up to the first that is not data or is empty. */
  function Taken(recvs: seq<Recv>): seq<ByteString> {
    if recvs != [] && recvs[0].Received? && recvs[0].data != [] then [recvs[0].data] + Taken(recvs[1..]) else []
  }

  /** Whether that first answer is an error or the end of the stream. */
  predicate Breaks(recvs: seq<Recv>) {
    recvs != [] &&
    match recvs[0]
    case RecvWouldBlock => false
    case RecvFailed => true
    case Received(data) => data == [] || Breaks(recvs[1..])
  }

  /** How many of n bytes the answers of send take. */
  function Out(n: nat, sents: seq<Sent>): (k: nat)
    ensures k <= n
    decreases |sents|
  {
    if n == 0 || sents == [] || !sents[0].Room? || sents[0].n == 0 then 0
    else if sents[0].n >= n then n
    else sents[0].n + Out(n - sents[0].n, sents[1..])
  }

  /** Whether send fails, or takes nothing, while some of n bytes are left. */
  predicate Refuses(n: nat, sents: seq<Sent>)
    decreases |sents|
  {
    n > 0 && sents != [] &&
    match sents[0]
    case SendWouldBlock => false
    case SendFailed => true
    case Room(k) => k == 0 || (k < n && Refuses(n - k, sents[1..]))
  }

  /** Every byte of those answers gets into the receive buffer, in order and behind what was there, and
      the socket is closed by exactly such an answer. */
  lemma {:induction false} ReceiveIs(s: Ws, recvs: seq<Recv>)
    ensures ReceiveAll(s, recvs) == s.(rx := s.rx + Concat(Taken(recvs)), ready := if Breaks(recvs) then CLOSED else s.ready)
    decreases |recvs|
  {
    if recvs != [] && recvs[0].Received? && recvs[0].data != [] {
      var data := recvs[0].data;
      ReceiveIs(s.(rx := s.rx + data), recvs[1..]);
      assert ([data] + Taken(recvs[1..]))[1..] == Taken(recvs[1..]);
      Assoc(s.rx, data, Concat(Taken(recvs[1..])));
    } else {
      assert s.rx + [] == s.rx;
    }
  }

  /** A socket after k bytes of its transmit buffer went out. */
  function Transmitted(s: Ws, k: nat, closed: bool): Ws
    requires k <= |s.tx|
  {
    s.(tx := s.tx[k..], accepted := s.accepted + s.tx[..k], ready := if closed then CLOSED else s.ready)
  }

  lemma TransmittedTwice(s: Ws, k: nat, j: nat, closed: bool)
    requires k + j <= |s.tx|
    ensures Transmitted(Transmitted(s, k, false), j, closed) == Transmitted(s, k + j, closed)
  {
    TwoCuts(s.accepted, s.tx, k, j);
  }

  lemma TransmittedNone(s: Ws, closed: bool)
    ensures Transmitted(s, 0, closed) == s.(ready := if closed then CLOSED else s.ready)
  {
    assert s.accepted + s.tx[..0] == s.accepted && s.tx[0..] == s.tx;
  }

  /** As many bytes as the answers of send take leave the transmit buffer, from its front. */
  lemma {:induction false} TransmitIs(s: Ws, sents: seq<Sent>)
    ensures TransmitAll(s, sents) == Transmitted(s, Out(|s.tx|, sents), Refuses(|s.tx|, sents))
    decreases |sents|
  {
    if s.tx != [] && sents != [] && sents[0].Room? && sents[0].n > 0 {
      var k := Min(sents[0].n, |s.tx|);
      var t := Transmitted(s, k, false);
      TransmitStep(s, sents);
      TransmitIs(t, sents[1..]);
      OutStep(|s.tx|, sents);
      TransmittedTwice(s, k, Out(|t.tx|, sents[1..]), Refuses(|t.tx|, sents[1..]));
    } else {
      TransmitStops(s, sents);
    }
  }

  lemma TransmitStep(s: Ws, sents: seq<Sent>)
    requires s.tx != [] && sents != [] && sents[0].Room? && sents[0].n > 0
    ensures TransmitAll(s, sents) == TransmitAll(Transmitted(s, Min(sents[0].n, |s.tx|), false), sents[1..])
  {
  }

  lemma TransmitStops(s: Ws, sents: seq<Sent>)
    requires s.tx == [] || sents == [] || !sents[0].Room? || sents[0].n == 0
    ensures TransmitAll(s, sents) == Transmitted(s, Out(|s.tx|, sents), Refuses(|s.tx|, sents))
  {
    TransmittedNone(s, Refuses(|s.tx|, sents));
  }

  lemma OutStep(n: nat, sents: seq<Sent>)
    requires n > 0 && sents != [] && sents[0].Room? && sents[0].n > 0
    ensures var k := Min(sents[0].n, n);
            Out(n, sents) == k + Out(n - k, sents[1..]) && Refuses(n, sents) == Refuses(n - k, sents[1..])
  {
  }

  lemma TwoCuts(a: ByteString, b: ByteString, k: nat, j: nat)
    requires k + j <= |b|
    ensures b[k..][j..] == b[k + j..] && (a + b[..k]) + b[k..][..j] == a + b[..k + j]
  {
    assert b[..k] + b[k..][..j] == b[..k + j];
    Assoc(a, b[..k], b[k..][..j]);
  }

  /** All that one poll does. */
  lemma PollIs(s: Ws, recvs: seq<Recv>, sents: seq<Sent>)
    requires s.ready != CLOSED
    ensures var t, k := Poll(s, recvs, sents), Out(|s.tx|, sents);
            && t == s.(rx := s.rx + Concat(Taken(recvs)), tx := s.tx[k..], accepted := s.accepted + s.tx[..k], ready := t.ready)
            && (t.ready == CLOSED || t.ready == s.ready)
            && (t.ready == CLOSED <==> Breaks(recvs) || Refuses(|s.tx|, sents) || (s.ready == CLOSING && k == |s.tx|))
  {
    ReceiveIs(s, recvs);
    TransmitIs(ReceiveAll(s, recvs), sents);
  }

  // ---- whole runs of a receiver ----

  /** The receiving side of a socket: all that a dispatch reads and what it delivers. */
  function Side(s: Ws): Ws {
    s.(tx := [], queued := [], accepted := [], ready := CLOSED)
  }

  lemma {:induction false} DispatchSide(s: Ws)
    ensures Side(Dispatch(s)) == Dispatch(Side(s))
    decreases |s.rx|
  {
    if !s.bad {
      var p := PeekFrame(s.rx);
      if p.Whole? {
        var t := Handle(s, p.frame).(rx := s.rx[p.size..]);
        HandleSide(s, p.frame);
        assert Side(t) == Handle(Side(s), p.frame).(rx := s.rx[p.size..]);
        assert Dispatch(s) == Dispatch(t) && Dispatch(Side(s)) == Dispatch(Side(t));
        DispatchSide(t);
      }
    }
  }

  lemma HandleSide(s: Ws, f: Frame)
    ensures Side(Handle(s, f)) == Handle(Side(s), f)
  {
  }

  /** The data that the polls of a run take from recv; a closed socket takes none. */
  function ArrivedIn(s: Ws, es: seq<Event>): seq<ByteString>
    decreases |es|
  {
    if es == [] then []
    else (if es[0].DoPoll? && s.ready != CLOSED then Taken(es[0].recvs) else []) + ArrivedIn(Step(s, es[0]), es[1..])
  }

  lemma StepSide(s: Ws, e: Event)
    ensures var a := if e.DoPoll? && s.ready != CLOSED then Taken(e.recvs) else [];
            Dispatch(Side(Step(s, e))) == Feed(Side(s), Concat(a))
  {
    assert s.rx + [] == s.rx;
    match e
    case DoSend(_, _) =>
    case DoClose =>
    case DoPoll(recvs, sents) =>
      if s.ready != CLOSED {
        PollIs(s, recvs, sents);
      }
    case DoDispatch =>
      DispatchSide(s);
      DispatchTwice(Side(s));
  }

  lemma DispatchTwice(s: Ws)
    ensures Dispatch(Dispatch(s)) == Dispatch(s)
  {
    ChunkingDoesNotMatter(s, [], []);
    assert s.rx + [] == s.rx && Dispatch(s).rx + [] == Dispatch(s).rx;
    assert s.(rx := s.rx + []) == s && Dispatch(s).(rx := Dispatch(s).rx + []) == Dispatch(s);
  }

  /** However polls, dispatches, sends and closes follow one another: what has been delivered once all is
      dispatched, what is left over, the partial message and the bad flag are those of a receiver that got
      exactly the bytes of the polls. */
  lemma {:induction false} PollsAreFeeds(s: Ws, es: seq<Event>)
    ensures Side(Dispatch(Run(s, es))) == Feed(Side(s), Concat(ArrivedIn(s, es)))
    decreases |es|
  {
    if es == [] {
      DispatchSide(s);
      assert Side(s).rx + [] == Side(s).rx;
    } else {
      var e, t := es[0], Step(s, es[0]);
      var a := if e.DoPoll? && s.ready != CLOSED then Taken(e.recvs) else [];
      var more := ArrivedIn(t, es[1..]);
      PollsAreFeeds(t, es[1..]);
      StepSide(s, e);
      DispatchThenFeed(Side(t), Concat(more));
      ChunkingDoesNotMatter(Side(s), Concat(a), Concat(more));
      ConcatAppend(a, more);
      assert Feed(Side(t), Concat(more)) == Feed(Feed(Side(s), Concat(a)), Concat(more));
    }
  }

  /** The same, as chunks. */
  lemma PollsAreChunks(s: Ws, es: seq<Event>)
    requires ArrivedIn(s, es) != []
    ensures Side(Dispatch(Run(s, es))) == FeedAll(Side(s), ArrivedIn(s, es))
  {
    PollsAreFeeds(s, es);
    AnyChunking(Side(s), ArrivedIn(s, es));
  }

  // ---- two sockets, each with its own run ----

  /** Whatever two programs do with their sockets: when the bytes that one has taken from the network are
      the first of those the other has handed to it, the messages it has delivered are the first of those
      requested, none altered, doubled, lost or out of order. */
  lemma TwoSockets(useMask: bool, es: seq<Event>, peerMask: bool, fs: seq<Event>)
    requires Concat(ArrivedIn(Fresh(peerMask), fs)) <= Run(Fresh(useMask), es).accepted
    ensures Dispatch(Run(Fresh(peerMask), fs)).delivered <= WholeMessages(Requested(es))
  {
    var arrived := Concat(ArrivedIn(Fresh(peerMask), fs));
    PollsAreFeeds(Fresh(peerMask), fs);
    FreshSide(peerMask, arrived);
    assert Concat([arrived]) == arrived + [] == arrived;
    AnyChunking(Fresh(peerMask), [arrived]);
    ArrivalsAreRequests(useMask, es, peerMask, arrived, [arrived]);
  }

  /** And when all of them have arrived and the sender is still OPEN, they are exactly those requested. */
  lemma TwoSocketsAll(useMask: bool, es: seq<Event>, peerMask: bool, fs: seq<Event>)
    requires var s := Run(Fresh(useMask), es);
             Concat(ArrivedIn(Fresh(peerMask), fs)) == s.accepted + s.tx && s.ready == OPEN
    ensures Dispatch(Run(Fresh(peerMask), fs)).delivered == WholeMessages(Requested(es))
  {
    var arrived := Concat(ArrivedIn(Fresh(peerMask), fs));
    PollsAreFeeds(Fresh(peerMask), fs);
    FreshSide(peerMask, arrived);
    assert Concat([arrived]) == arrived + [] == arrived;
    AnyChunking(Fresh(peerMask), [arrived]);
    EveryRequestArrives(useMask, es, peerMask, [arrived]);
  }

  lemma FreshSide(useMask: bool, a: ByteString)
    ensures Feed(Side(Fresh(useMask)), a) == Side(Feed(Fresh(useMask), a))
  {
    var s := Fresh(useMask).(rx := [] + a);
    DispatchSide(s);
    assert Side(s) == Side(Fresh(useMask)).(rx := [] + a);
  }

  /** A text in one answer of recv: taken, kept, and delivered by the next dispatch. */
  lemma PolledText(useMask: bool)
    ensures Run(Fresh(useMask), [DoPoll([Received([0x81, 0x01, 0x41]), RecvWouldBlock], [])]).rx == [0x81, 0x01, 0x41]
  {
    var recvs := [Received([0x81, 0x01, 0x41]), RecvWouldBlock];
    var e := DoPoll(recvs, []);
    PollIs(Fresh(useMask), recvs, []);
    assert recvs[1..] == [RecvWouldBlock] && Taken([RecvWouldBlock]) == [];
    assert Taken(recvs) == [[0x81, 0x01, 0x41]] && Taken(recvs)[1..] == [];
    assert Concat(Taken(recvs)) == [0x81, 0x01, 0x41] + [] == [0x81, 0x01, 0x41];
    assert [e][1..] == [] && Run(Fresh(useMask), [e]) == Run(Step(Fresh(useMask), e), []);
  }
}
