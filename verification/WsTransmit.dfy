/** The transmit side over whole runs, and two sockets back to back. */
module WsTransmit {
  import opened Bytes
  import opened WsFrame
  import opened WsState
  import opened WsReceive

  /** Bytes the socket took and bytes still buffered are the queued frames, in order; a close frame
      comes last or not at all; and it is there exactly when the state says so. */
  ghost predicate Accounted(s: Ws) {
    && s.accepted + s.tx == OutBytes(s.queued, s.useMask)
    && (forall i :: 0 <= i < |s.queued| - 1 ==> s.queued[i].Data?)
    && (s.ready == OPEN ==> forall i :: 0 <= i < |s.queued| ==> s.queued[i].Data?)
    && (s.ready == CLOSING ==> s.queued != [] && s.queued[|s.queued| - 1] == CloseFrame)
  }

  /** What a later state may differ in. */
  ghost predicate Later(s: Ws, t: Ws) {
    && s.useMask == t.useMask
    && s.ready.Rank() <= t.ready.Rank()
    && s.queued <= t.queued
    && s.accepted <= t.accepted
    && s.delivered <= t.delivered
    && (s.ready != OPEN ==> t.queued == s.queued)
  }

  lemma {:induction false} OutBytesAppend(q: seq<Out>, r: seq<Out>, useMask: bool)
    ensures OutBytes(q + r, useMask) == OutBytes(q, useMask) + OutBytes(r, useMask)
    decreases |q|
  {
    if q == [] {
      assert q + r == r;
    } else {
      assert (q + r)[1..] == q[1..] + r;
      OutBytesAppend(q[1..], r, useMask);
      Assoc(OutWire(q[0], useMask), OutBytes(q[1..], useMask), OutBytes(r, useMask));
    }
  }

  lemma QueueAccounted(s: Ws, o: Out)
    requires Accounted(s) && s.ready == OPEN
    ensures var t := Queue(s, o);
            t.accepted + t.tx == OutBytes(t.queued, t.useMask) && Later(s, t)
    ensures o.Data? ==> Accounted(Queue(s, o))
  {
    OutBytesAppend(s.queued, [o], s.useMask);
    assert OutBytes([o], s.useMask) == OutWire(o, s.useMask) + [];
    Assoc(s.accepted, s.tx, OutWire(o, s.useMask));
  }

  lemma CloseAccounted(s: Ws)
    requires Accounted(s)
    ensures Accounted(Close(s)) && Later(s, Close(s))
  {
    if s.ready == OPEN {
      QueueAccounted(s, CloseFrame);
    }
  }

  lemma HandleAccounted(s: Ws, f: Frame)
    requires Accounted(s)
    ensures Accounted(Handle(s, f)) && Later(s, Handle(s, f))
  {
    if f.opcode == PING && s.ready == OPEN {
      QueueAccounted(s, Data(PONG, f.payload));
    } else if IsClosing(f) {
      CloseAccounted(s);
    }
  }

  /** A step that queues nothing and moves bytes only from the buffer to the socket. */
  lemma SameQueue(s: Ws, t: Ws)
    requires Accounted(s)
    requires t.queued == s.queued && t.useMask == s.useMask && t.delivered == s.delivered
    requires t.accepted + t.tx == s.accepted + s.tx && s.accepted <= t.accepted
    requires t.ready == s.ready || t.ready == CLOSED
    ensures Accounted(t) && Later(s, t)
  {
  }

  lemma LaterTransitive(s: Ws, t: Ws, u: Ws)
    requires Later(s, t) && Later(t, u)
    ensures Later(s, u)
  {
  }

  lemma {:induction false} DispatchAccounted(s: Ws)
    requires Accounted(s)
    ensures Accounted(Dispatch(s)) && Later(s, Dispatch(s))
    decreases |s.rx|
  {
    if !s.bad {
      var p := PeekFrame(s.rx);
      if p.Whole? {
        var t := Handle(s, p.frame);
        var u := t.(rx := s.rx[p.size..]);
        HandleAccounted(s, p.frame);
        SameQueue(t, u);
        DispatchAccounted(u);
        LaterTransitive(s, t, u);
        LaterTransitive(s, u, Dispatch(u));
      } else if p.BadLength? {
        CloseAccounted(s);
        SameQueue(Close(s), Close(s).(bad := true));
        LaterTransitive(s, Close(s), Close(s).(bad := true));
      }
    }
  }

  /** The recv loop changes the receive buffer and, on an error, the state. */
  lemma {:induction false} ReceiveKeeps(s: Ws, recvs: seq<Recv>)
    ensures var t := ReceiveAll(s, recvs);
            t == s.(rx := t.rx, ready := t.ready) && s.rx <= t.rx && (t.ready == s.ready || t.ready == CLOSED)
    decreases |recvs|
  {
    if recvs != [] && recvs[0].Received? && recvs[0].data != [] {
      ReceiveKeeps(s.(rx := s.rx + recvs[0].data), recvs[1..]);
    }
  }

  /** The send loop moves bytes to the socket and, on an error, changes the state. */
  lemma {:induction false} TransmitKeeps(s: Ws, sents: seq<Sent>)
    ensures var t := TransmitAll(s, sents);
            && t == s.(tx := t.tx, accepted := t.accepted, ready := t.ready)
            && t.accepted + t.tx == s.accepted + s.tx && s.accepted <= t.accepted
            && (t.ready == s.ready || t.ready == CLOSED)
    decreases |sents|
  {
    if sents != [] && s.tx != [] && sents[0].Room? && sents[0].n > 0 {
      var k := Min(sents[0].n, |s.tx|);
      assert s.tx == s.tx[..k] + s.tx[k..];
      Assoc(s.accepted, s.tx[..k], s.tx[k..]);
      TransmitKeeps(s.(tx := s.tx[k..], accepted := s.accepted + s.tx[..k]), sents[1..]);
    }
  }

  lemma PollAccounted(s: Ws, recvs: seq<Recv>, sents: seq<Sent>)
    requires Accounted(s)
    ensures Accounted(Poll(s, recvs, sents)) && Later(s, Poll(s, recvs, sents))
  {
    if s.ready != CLOSED {
      ReceiveKeeps(s, recvs);
      TransmitKeeps(ReceiveAll(s, recvs), sents);
      SameQueue(s, Poll(s, recvs, sents));
    }
  }

  lemma StepAccounted(s: Ws, e: Event)
    requires Accounted(s)
    ensures Accounted(Step(s, e)) && Later(s, Step(s, e))
  {
    match e
    case DoSend(opcode, message) =>
      if s.ready == OPEN {
        QueueAccounted(s, Data(opcode, message));
      }
    case DoClose => CloseAccounted(s);
    case DoPoll(recvs, sents) => PollAccounted(s, recvs, sents);
    case DoDispatch => DispatchAccounted(s);
  }

  /** Whatever the program, the peer and the socket do, in any order. */
  lemma {:induction false} EveryRunAccounted(s: Ws, es: seq<Event>)
    requires Accounted(s)
    ensures Accounted(Run(s, es)) && Later(s, Run(s, es))
    decreases |es|
  {
    if es != [] {
      StepAccounted(s, es[0]);
      EveryRunAccounted(Step(s, es[0]), es[1..]);
    }
  }

  // ---- progress ----

  /** Whether the answers of send, one after the other, have room for n bytes. */
  predicate Enough(n: nat, sents: seq<Sent>)
    decreases |sents|
  {
    n == 0
    || (sents != [] && sents[0].Room? && sents[0].n > 0 && Enough(n - Min(sents[0].n, n), sents[1..]))
  }

  /** The transmit buffer empties exactly if the answers have room for it. */
  lemma {:induction false} EmptiedIff(s: Ws, sents: seq<Sent>)
    ensures TransmitAll(s, sents).tx == [] <==> Enough(|s.tx|, sents)
    decreases |sents|
  {
    if sents != [] && s.tx != [] && sents[0].Room? && sents[0].n > 0 {
      var k := Min(sents[0].n, |s.tx|);
      EmptiedIff(s.(tx := s.tx[k..], accepted := s.accepted + s.tx[..k]), sents[1..]);
    }
  }

  /** A poll that has room for the transmit buffer leaves every frame queued so far with the socket,
      and a closing socket closed. */
  lemma PollDelivers(s: Ws, recvs: seq<Recv>, sents: seq<Sent>)
    requires Accounted(s) && s.ready != CLOSED && Enough(|s.tx|, sents)
    ensures var t := Poll(s, recvs, sents);
            && t.tx == [] && t.queued == s.queued && t.accepted == OutBytes(s.queued, s.useMask)
            && (s.ready == CLOSING ==> t.ready == CLOSED)
  {
    var u := ReceiveAll(s, recvs);
    ReceiveKeeps(s, recvs);
    TransmitKeeps(u, sents);
    EmptiedIff(u, sents);
    var t := Poll(s, recvs, sents);
    assert t.accepted + [] == t.accepted;
  }

  // ---- from one socket to another ----

  predicate IsUser(o: Out) {
    o.Data? && (o.opcode == TEXT || o.opcode == BINARY)
  }

  /** The messages among the queued frames. */
  function UserSendings(q: seq<Out>): seq<Sending> {
    if q == [] then [] else UserSending(q[0]) + UserSendings(q[1..])
  }

  function Request(e: Event): seq<Sending> {
    if e.DoSend? && (e.opcode == TEXT || e.opcode == BINARY) then [Sending(e.opcode == BINARY, [e.message])] else []
  }

  /** The messages the program asked to send, whatever became of the request. */
  function Requested(es: seq<Event>): seq<Sending> {
    if es == [] then [] else Request(es[0]) + Requested(es[1..])
  }

  function UserSending(o: Out): seq<Sending> {
    if IsUser(o) then [Sending(o.opcode == BINARY, [o.message])] else []
  }

  lemma UserSendingsCons(o: Out, q: seq<Out>)
    ensures UserSendings([o] + q) == UserSending(o) + UserSendings(q)
  {
    assert ([o] + q)[1..] == q;
  }

  lemma {:induction false} UserSendingsAppend(q: seq<Out>, r: seq<Out>)
    ensures UserSendings(q + r) == UserSendings(q) + UserSendings(r)
    decreases |q|
  {
    if q == [] {
      assert q + r == r;
    } else {
      var o, rest := q[0], q[1..];
      assert q == [o] + rest && q + r == [o] + (rest + r);
      UserSendingsCons(o, rest);
      UserSendingsCons(o, rest + r);
      UserSendingsAppend(rest, r);
      Assoc(UserSending(o), UserSendings(rest), UserSendings(r));
    }
  }

  lemma {:induction false} RepliesAreNotUser(fs: seq<Frame>)
    ensures UserSendings(Replies(fs)) == []
    decreases |fs|
  {
    if fs != [] && !IsClosing(fs[0]) {
      RepliesAreNotUser(fs[1..]);
      if fs[0].opcode == PING {
        assert Replies(fs)[1..] == Replies(fs[1..]);
      } else {
        assert Replies(fs) == Replies(fs[1..]);
      }
    }
  }

  lemma DispatchUserSendings(s: Ws)
    ensures UserSendings(Dispatch(s).queued) == UserSendings(s.queued)
  {
    if !s.bad {
      DispatchMeaning(s);
      var fs := Parse(s.rx).frames;
      RepliesAreNotUser(fs);
      UserSendingsAppend(s.queued, Replies(fs));
      UserSendingsAppend(After(s, fs).queued, [CloseFrame]);
    }
  }

  lemma StepUserSendings(s: Ws, e: Event)
    ensures UserSendings(Step(s, e).queued)
            == UserSendings(s.queued) + if s.ready == OPEN then Request(e) else []
  {
    match e
    case DoSend(opcode, message) => UserSendingsAppend(s.queued, [Data(opcode, message)]);
    case DoClose => UserSendingsAppend(s.queued, [CloseFrame]);
    case DoPoll(recvs, sents) =>
      ReceiveKeeps(s, recvs);
      TransmitKeeps(ReceiveAll(s, recvs), sents);
    case DoDispatch => DispatchUserSendings(s);
  }

  /** The queued messages are the requested ones, up to some point; all of them while OPEN. */
  lemma {:induction false} QueuedIsRequested(s: Ws, es: seq<Event>)
    requires Accounted(s)
    ensures var t := Run(s, es);
            && UserSendings(t.queued) <= UserSendings(s.queued) + Requested(es)
            && (t.ready == OPEN ==> UserSendings(t.queued) == UserSendings(s.queued) + Requested(es))
    decreases |es|
  {
    if es != [] {
      var t := Step(s, es[0]);
      StepAccounted(s, es[0]);
      StepUserSendings(s, es[0]);
      EveryRunAccounted(t, es[1..]);
      if s.ready == OPEN {
        QueuedIsRequested(t, es[1..]);
        Assoc(UserSendings(s.queued), Request(es[0]), Requested(es[1..]));
      }
    }
  }

  /** The grammar's frame for a queued one. */
  function OutFrame(o: Out, useMask: bool): WireFrame {
    match o
    case Data(opcode, message) => Outgoing(opcode, message, useMask)
    case CloseFrame => WireFrame(true, 0, CLOSE, Len7, Key([0, 0, 0, 0]), [])
  }

  function OutFrames(q: seq<Out>, useMask: bool): seq<WireFrame> {
    if q == [] then [] else [OutFrame(q[0], useMask)] + OutFrames(q[1..], useMask)
  }

  lemma OutWireIsWire(o: Out, useMask: bool)
    ensures OutFrame(o, useMask).Valid() && Wire(OutFrame(o, useMask)) == OutWire(o, useMask)
  {
    match o
    case Data(opcode, message) => OutgoingValid(opcode, message, useMask);
    case CloseFrame =>
      var w := OutFrame(CloseFrame, useMask);
      assert HeaderBytes(w.Head()) == [0x88, 0x80];
  }

  lemma {:induction false} OutBytesIsWireAll(q: seq<Out>, useMask: bool)
    ensures AllValid(OutFrames(q, useMask)) && WireAll(OutFrames(q, useMask)) == OutBytes(q, useMask)
    decreases |q|
  {
    if q != [] {
      OutWireIsWire(q[0], useMask);
      OutBytesIsWireAll(q[1..], useMask);
      WireAllCons(OutFrame(q[0], useMask), OutFrames(q[1..], useMask));
    }
  }

  lemma {:induction false} QueuedDataFrames(q: seq<Out>, useMask: bool)
    ensures DataOnly(Meanings(OutFrames(q, useMask))) == AllFragments(UserSendings(q))
    decreases |q|
  {
    if q != [] {
      var w := OutFrame(q[0], useMask);
      var ws := OutFrames(q[1..], useMask);
      QueuedDataFrames(q[1..], useMask);
      assert ([w] + ws)[1..] == ws;
      DataOnlyCons(w.Meaning(), Meanings(ws));
      if IsUser(q[0]) {
        var s := Sending(q[0].opcode == BINARY, [q[0].message]);
        assert ([s] + UserSendings(q[1..]))[1..] == UserSendings(q[1..]);
        assert SendingFrames(s) == [w.Meaning()];
      } else {
        assert !IsData(w.Meaning());
        assert UserSendings(q) == UserSendings(q[1..]);
      }
    }
  }

  lemma DataOnlyCons(f: Frame, fs: seq<Frame>)
    ensures DataOnly([f] + fs) == (if IsData(f) then [f] else []) + DataOnly(fs)
  {
    assert ([f] + fs)[1..] == fs;
  }

  lemma {:induction false} UserSendingsWhole(q: seq<Out>)
    ensures forall i :: 0 <= i < |UserSendings(q)| ==> UserSendings(q)[i].parts != []
    decreases |q|
  {
    if q != [] {
      UserSendingsWhole(q[1..]);
    }
  }

  /** Everything one socket has queued, cut into any chunks, is delivered by another socket: its
      messages and nothing else, with no byte left over. */
  lemma PeerDelivers(q: seq<Out>, useMask: bool, peerMask: bool, chunks: seq<ByteString>)
    requires chunks != [] && Concat(chunks) == OutBytes(q, useMask)
    ensures var t := FeedAll(Fresh(peerMask), chunks);
            t.delivered == WholeMessages(UserSendings(q)) && t.rx == [] && t.partial == [] && !t.bad
  {
    OutBytesIsWireAll(q, useMask);
    QueuedDataFrames(q, useMask);
    UserSendingsWhole(q);
    Delivery(peerMask, UserSendings(q), OutFrames(q, useMask), chunks);
  }

  /** The same for a run: all of the bytes arrived, still OPEN: exactly the requested messages. */
  lemma EveryRequestArrives(useMask: bool, es: seq<Event>, peerMask: bool, chunks: seq<ByteString>)
    requires var s := Run(Fresh(useMask), es);
             chunks != [] && Concat(chunks) == s.accepted + s.tx && s.ready == OPEN
    ensures FeedAll(Fresh(peerMask), chunks).delivered == WholeMessages(Requested(es))
  {
    EveryRunAccounted(Fresh(useMask), es);
    QueuedIsRequested(Fresh(useMask), es);
    assert UserSendings([]) + Requested(es) == Requested(es);
    PeerDelivers(Run(Fresh(useMask), es).queued, useMask, peerMask, chunks);
  }

  lemma {:induction false} WholeMessagesPrefix(ss: seq<Sending>, tt: seq<Sending>)
    requires ss <= tt
    ensures WholeMessages(ss) <= WholeMessages(tt)
    decreases |ss|
  {
    if ss != [] {
      WholeMessagesPrefix(ss[1..], tt[1..]);
    }
  }

  lemma {:induction false} DeliveredGrows(s: Ws)
    ensures s.delivered <= Dispatch(s).delivered
  {
    if !s.bad {
      DispatchMeaning(s);
    }
  }

  /** At any moment of any run, whatever part of the accepted bytes has arrived, the peer has
      delivered the requested messages up to some point: none altered, doubled or out of order. */
  lemma ArrivalsAreRequests(useMask: bool, es: seq<Event>, peerMask: bool, arrived: ByteString, chunks: seq<ByteString>)
    requires arrived <= Run(Fresh(useMask), es).accepted
    requires chunks != [] && Concat(chunks) == arrived
    ensures FeedAll(Fresh(peerMask), chunks).delivered <= WholeMessages(Requested(es))
  {
    var s := Run(Fresh(useMask), es);
    EveryRunAccounted(Fresh(useMask), es);
    QueuedIsRequested(Fresh(useMask), es);
    assert UserSendings([]) + Requested(es) == Requested(es);
    PrefixDelivered(s.queued, useMask, peerMask, arrived, s.accepted + s.tx, chunks);
    WholeMessagesPrefix(UserSendings(s.queued), Requested(es));
  }

  lemma PrefixDelivered(q: seq<Out>, useMask: bool, peerMask: bool, arrived: ByteString, all: ByteString, chunks: seq<ByteString>)
    requires all == OutBytes(q, useMask) && arrived <= all
    requires chunks != [] && Concat(chunks) == arrived
    ensures FeedAll(Fresh(peerMask), chunks).delivered <= WholeMessages(UserSendings(q))
  {
    var peer, more := Fresh(peerMask), all[|arrived|..];
    AnyChunking(peer, chunks);
    var t := Feed(peer, arrived);
    ChunkingDoesNotMatter(peer, arrived, more);
    DeliveredGrows(t.(rx := t.rx + more));
    assert arrived + more == all && Concat([all]) == all + [];
    AnyChunking(peer, [all]);
    PeerDelivers(q, useMask, peerMask, [all]);
  }
}
