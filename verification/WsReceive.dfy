/** What a WebSocket receiver makes of a byte stream, however the stream is cut into chunks. */
module WsReceive {
  import opened Bytes
  import opened WsFrame
  import opened WsState

  /** Bytes arrive and are dispatched. */
  function Feed(s: Ws, a: ByteString): Ws {
    Dispatch(s.(rx := s.rx + a))
  }

  function FeedAll(s: Ws, chunks: seq<ByteString>): Ws
    decreases |chunks|
  {
    if chunks == [] then s else FeedAll(Feed(s, chunks[0]), chunks[1..])
  }

  // ---- chunking ----

  lemma HandleRx(s: Ws, f: Frame, rx: ByteString)
    ensures Handle(s.(rx := rx), f) == Handle(s, f).(rx := rx)
  {
  }

  /** One round of the dispatch loop does not see bytes that come later. */
  lemma RoundThenFeed(s: Ws, b: ByteString)
    requires !s.bad && PeekFrame(s.rx).Whole?
    ensures var p := PeekFrame(s.rx);
            Feed(s, b) == Feed(Handle(s, p.frame).(rx := s.rx[p.size..]), b)
  {
    var p := PeekFrame(s.rx);
    PeekStable(s.rx, b);
    HandleRx(s, p.frame, s.rx + b);
    assert (s.rx + b)[p.size..] == s.rx[p.size..] + b;
  }

  lemma {:induction false} DispatchThenFeed(s: Ws, b: ByteString)
    ensures Feed(Dispatch(s), b) == Feed(s, b)
    decreases |s.rx|
  {
    if !s.bad {
      var p := PeekFrame(s.rx);
      if p.Whole? {
        RoundThenFeed(s, b);
        DispatchThenFeed(Handle(s, p.frame).(rx := s.rx[p.size..]), b);
      } else if p.BadLength? {
        PeekStable(s.rx, b);
      }
    }
  }

  /** For every state, two chunks dispatched one after the other give the same callbacks, leftover
      bytes, partial message, transmit buffer, ready state and bad flag as both at once. */
  lemma ChunkingDoesNotMatter(s: Ws, a: ByteString, b: ByteString)
    ensures Feed(Feed(s, a), b) == Feed(s, a + b)
  {
    DispatchThenFeed(s.(rx := s.rx + a), b);
    assert s.rx + a + b == s.rx + (a + b);
  }

  /** The same for any number of chunks. */
  lemma {:induction false} AnyChunking(s: Ws, chunks: seq<ByteString>)
    requires chunks != []
    ensures FeedAll(s, chunks) == Feed(s, Concat(chunks))
    decreases |chunks|
  {
    if |chunks| == 1 {
      assert Concat(chunks) == chunks[0];
    } else {
      AnyChunking(Feed(s, chunks[0]), chunks[1..]);
      ChunkingDoesNotMatter(s, chunks[0], Concat(chunks[1..]));
    }
  }

  // ---- the stream as frames ----

  /** The frames a byte string starts with, what is left over, and whether the leftover starts
      with a refused length. */
  datatype Parsed = Parsed(frames: seq<Frame>, rest: ByteString, bad: bool)

  function Parse(rx: ByteString): Parsed
    decreases |rx|
  {
    match PeekFrame(rx)
    case NeedMore => Parsed([], rx, false)
    case BadLength => Parsed([], rx, true)
    case Whole(f, n) => var p := Parse(rx[n..]); p.(frames := [f] + p.frames)
  }

  ghost predicate AllValid(ws: seq<WireFrame>) {
    forall i :: 0 <= i < |ws| ==> ws[i].Valid()
  }

  ghost function WireAll(ws: seq<WireFrame>): ByteString
    requires AllValid(ws)
  {
    if ws == [] then [] else Wire(ws[0]) + WireAll(ws[1..])
  }

  function Meanings(ws: seq<WireFrame>): (fs: seq<Frame>)
    ensures |fs| == |ws|
  {
    if ws == [] then [] else [ws[0].Meaning()] + Meanings(ws[1..])
  }

  /** Any wire frames, followed by less than a frame, parse to their meanings and that remainder. */
  lemma {:induction false} ParseWireAll(ws: seq<WireFrame>, rest: ByteString)
    requires AllValid(ws) && PeekFrame(rest).NeedMore?
    ensures Parse(WireAll(ws) + rest) == Parsed(Meanings(ws), rest, false)
    decreases |ws|
  {
    if ws == [] {
      assert [] + rest == rest;
    } else {
      ParseWireAll(ws[1..], rest);
      ParseCons(ws[0], WireAll(ws[1..]) + rest);
      Assoc(Wire(ws[0]), WireAll(ws[1..]), rest);
    }
  }

  lemma ParseCons(w: WireFrame, more: ByteString)
    requires w.Valid()
    ensures var p := Parse(more);
            Parse(Wire(w) + more) == Parsed([w.Meaning()] + p.frames, p.rest, p.bad)
  {
    PeekWire(w, more);
    assert (Wire(w) + more)[|Wire(w)|..] == more;
  }

  lemma Glue<T>(s: seq<T>, n: nat, a: seq<T>, b: seq<T>, c: seq<T>)
    requires n <= |s| && s[..n] == a && s[n..] == b + c
    ensures s == (a + b) + c
  {
    assert s == s[..n] + s[n..];
  }

  lemma WireAllCons(w: WireFrame, ws: seq<WireFrame>)
    requires w.Valid() && AllValid(ws)
    ensures AllValid([w] + ws) && WireAll([w] + ws) == Wire(w) + WireAll(ws)
    ensures Meanings([w] + ws) == [w.Meaning()] + Meanings(ws)
  {
    assert ([w] + ws)[1..] == ws;
  }

  /** Every byte string is wire frames followed by a remainder that holds no complete frame. */
  lemma {:induction false} ParseIsWireAll(rx: ByteString) returns (ws: seq<WireFrame>)
    ensures AllValid(ws) && Meanings(ws) == Parse(rx).frames
    ensures rx == WireAll(ws) + Parse(rx).rest && !PeekFrame(Parse(rx).rest).Whole?
    decreases |rx|
  {
    ws := [];
    var p := PeekFrame(rx);
    if p.Whole? {
      var w := WirePeek(rx);
      var tail := ParseIsWireAll(rx[p.size..]);
      ws := [w] + tail;
      WireAllCons(w, tail);
      ParseWhole(rx);
      Glue(rx, p.size, Wire(w), WireAll(tail), Parse(rx).rest);
    }
  }

  lemma ParseWhole(rx: ByteString)
    requires PeekFrame(rx).Whole?
    ensures var p, q := PeekFrame(rx), Parse(rx[PeekFrame(rx).size..]);
            Parse(rx) == Parsed([p.frame] + q.frames, q.rest, q.bad)
  {
  }

  function HandleAll(s: Ws, fs: seq<Frame>): (t: Ws)
    ensures t.rx == s.rx && t.bad == s.bad && t.useMask == s.useMask
    decreases |fs|
  {
    if fs == [] then s else HandleAll(Handle(s, fs[0]), fs[1..])
  }

  lemma {:induction false} HandleAllRx(s: Ws, fs: seq<Frame>, rx: ByteString)
    ensures HandleAll(s.(rx := rx), fs) == HandleAll(s, fs).(rx := rx)
    decreases |fs|
  {
    if fs != [] {
      HandleAllRx(Handle(s, fs[0]), fs[1..], rx);
    }
  }

  lemma {:induction false} DispatchIsHandleAll(s: Ws)
    requires !s.bad
    ensures var p := Parse(s.rx);
            var t := HandleAll(s, p.frames).(rx := p.rest);
            Dispatch(s) == if p.bad then Close(t).(bad := true) else t
    decreases |s.rx|
  {
    var p := PeekFrame(s.rx);
    if p.Whole? {
      var t := Handle(s, p.frame).(rx := s.rx[p.size..]);
      DispatchIsHandleAll(t);
      var fs := Parse(t.rx).frames;
      assert ([p.frame] + fs)[1..] == fs;
      HandleAllRx(Handle(s, p.frame), fs, t.rx);
    }
  }

  // ---- the meaning of a frame sequence ----

  /** The messages completed by a frame sequence that continues a partial message, and what is
      left of the last one (section 5.4 of RFC 6455). */
  function Reassemble(partial: ByteString, fs: seq<Frame>): (seq<ByteString>, ByteString)
    decreases |fs|
  {
    if fs == [] then ([], partial)
    else if !IsData(fs[0]) then Reassemble(partial, fs[1..])
    else if fs[0].fin then
      var (ms, left) := Reassemble([], fs[1..]);
      ([partial + fs[0].payload] + ms, left)
    else Reassemble(partial + fs[0].payload, fs[1..])
  }

  /** One PONG for each PING before the first closing frame, and a close frame for that one. */
  function Replies(fs: seq<Frame>): seq<Out>
    decreases |fs|
  {
    if fs == [] then []
    else if IsClosing(fs[0]) then [CloseFrame]
    else (if fs[0].opcode == PING then [Data(PONG, fs[0].payload)] else []) + Replies(fs[1..])
  }

  function OutBytes(q: seq<Out>, useMask: bool): ByteString {
    if q == [] then [] else OutWire(q[0], useMask) + OutBytes(q[1..], useMask)
  }

  ghost predicate HasClosing(fs: seq<Frame>) {
    exists i :: 0 <= i < |fs| && IsClosing(fs[i])
  }

  /** The state that a frame sequence leads to, said without its steps. */
  ghost function After(s: Ws, fs: seq<Frame>): Ws {
    var (ms, left) := Reassemble(s.partial, fs);
    var t := s.(delivered := s.delivered + ms, partial := left);
    if s.ready != OPEN then t
    else t.(queued := s.queued + Replies(fs), tx := s.tx + OutBytes(Replies(fs), s.useMask),
            ready := if HasClosing(fs) then CLOSING else OPEN)
  }

  lemma AfterNothing(s: Ws)
    ensures After(s, []) == s
  {
    assert s.delivered + [] == s.delivered && s.queued + [] == s.queued && s.tx + [] == s.tx;
  }

  lemma AfterClosed(s: Ws, fs: seq<Frame>)
    requires fs != [] && s.ready != OPEN
    ensures After(s, fs) == After(Handle(s, fs[0]), fs[1..])
  {
    if IsData(fs[0]) && fs[0].fin {
      var m := s.partial + fs[0].payload;
      var ms := Reassemble([], fs[1..]).0;
      assert s.delivered + ([m] + ms) == (s.delivered + [m]) + ms;
    }
  }

  lemma HasClosingCons(fs: seq<Frame>)
    requires fs != []
    ensures HasClosing(fs) <==> IsClosing(fs[0]) || HasClosing(fs[1..])
  {
    if HasClosing(fs[1..]) {
      var i :| 0 <= i < |fs[1..]| && IsClosing(fs[1..][i]);
      assert IsClosing(fs[i + 1]);
    }
    if HasClosing(fs) {
      var i :| 0 <= i < |fs| && IsClosing(fs[i]);
      assert i > 0 ==> IsClosing(fs[1..][i - 1]);
    }
  }

  lemma OutBytesCons(o: Out, r: seq<Out>, useMask: bool)
    ensures OutBytes([o] + r, useMask) == OutWire(o, useMask) + OutBytes(r, useMask)
  {
    assert ([o] + r)[1..] == r;
  }

  lemma RepliesCons(s: Ws, pong: Out, r: seq<Out>)
    ensures s.queued + ([pong] + r) == (s.queued + [pong]) + r
    ensures s.tx + OutBytes([pong] + r, s.useMask) == (s.tx + OutWire(pong, s.useMask)) + OutBytes(r, s.useMask)
  {
    OutBytesCons(pong, r, s.useMask);
    Assoc(s.queued, [pong], r);
    Assoc(s.tx, OutWire(pong, s.useMask), OutBytes(r, s.useMask));
  }

  lemma AfterOpen(s: Ws, fs: seq<Frame>)
    requires fs != [] && s.ready == OPEN
    ensures After(s, fs) == After(Handle(s, fs[0]), fs[1..])
  {
    var f, rest := fs[0], fs[1..];
    HasClosingCons(fs);
    if IsData(f) {
      AfterClosed(s.(ready := CLOSED), fs);
      assert [] + Replies(rest) == Replies(rest);
    } else if f.opcode == PING {
      RepliesCons(s, Data(PONG, f.payload), Replies(rest));
    } else if f.opcode == PONG {
      assert [] + Replies(rest) == Replies(rest);
    } else {
      RepliesCons(s, CloseFrame, []);
      assert [CloseFrame] + [] == [CloseFrame];
    }
  }

  lemma {:induction false} HandleAllIsAfter(s: Ws, fs: seq<Frame>)
    ensures HandleAll(s, fs) == After(s, fs)
    decreases |fs|
  {
    if fs == [] {
      AfterNothing(s);
    } else {
      HandleAllIsAfter(Handle(s, fs[0]), fs[1..]);
      if s.ready == OPEN {
        AfterOpen(s, fs);
      } else {
        AfterClosed(s, fs);
      }
    }
  }

  /** A dispatch delivers the reassembled messages of the frames it holds, answers each PING
      before the first closing frame with one PONG in order while OPEN, and keeps what is left. */
  lemma DispatchMeaning(s: Ws)
    requires !s.bad
    ensures var p := Parse(s.rx);
            var t := After(s, p.frames).(rx := p.rest);
            Dispatch(s) == if p.bad then Close(t).(bad := true) else t
  {
    DispatchIsHandleAll(s);
    HandleAllIsAfter(s, Parse(s.rx).frames);
  }

  // ---- reassembly against its own reference ----

  function DataOnly(fs: seq<Frame>): seq<Frame>
    decreases |fs|
  {
    if fs == [] then [] else (if IsData(fs[0]) then [fs[0]] else []) + DataOnly(fs[1..])
  }

  function Payloads(fs: seq<Frame>): ByteString {
    if fs == [] then [] else fs[0].payload + Payloads(fs[1..])
  }

  function Fins(fs: seq<Frame>): nat {
    if fs == [] then 0 else (if fs[0].fin then 1 else 0) + Fins(fs[1..])
  }

  /** Control frames, wherever they are interleaved, change no message. */
  lemma {:induction false} ControlFramesAreInvisible(partial: ByteString, fs: seq<Frame>)
    ensures Reassemble(partial, fs) == Reassemble(partial, DataOnly(fs))
    decreases |fs|
  {
    if fs != [] {
      var rest := DataOnly(fs[1..]);
      if IsData(fs[0]) {
        assert DataOnly(fs)[1..] == rest;
        if fs[0].fin {
          ControlFramesAreInvisible([], fs[1..]);
        } else {
          ControlFramesAreInvisible(partial + fs[0].payload, fs[1..]);
        }
      } else {
        assert DataOnly(fs) == rest;
        ControlFramesAreInvisible(partial, fs[1..]);
      }
    }
  }

  /** No payload byte is lost, doubled or moved, and each FIN ends exactly one message. */
  lemma {:induction false} ReassemblyConserves(partial: ByteString, fs: seq<Frame>)
    ensures var (ms, left) := Reassemble(partial, fs);
            && Concat(ms) + left == partial + Payloads(DataOnly(fs))
            && |ms| == Fins(DataOnly(fs))
    decreases |fs|
  {
    if fs == [] {
    } else if !IsData(fs[0]) {
      ReassemblyConserves(partial, fs[1..]);
      assert DataOnly(fs) == DataOnly(fs[1..]);
    } else {
      assert DataOnly(fs)[1..] == DataOnly(fs[1..]);
      if fs[0].fin {
        ReassemblyConserves([], fs[1..]);
        var ms := Reassemble([], fs[1..]).0;
        var first := partial + fs[0].payload;
        assert ([first] + ms)[1..] == ms;
        Assoc(first, Concat(ms), Reassemble([], fs[1..]).1);
        Assoc(partial, fs[0].payload, Payloads(DataOnly(fs[1..])));
      } else {
        ReassemblyConserves(partial + fs[0].payload, fs[1..]);
        Assoc(partial, fs[0].payload, Payloads(DataOnly(fs[1..])));
      }
    }
  }

  /** The data frames of a message sent in fragments: the opcode on the first, FIN on the last. */
  function Fragments(parts: seq<Message>, opcode: byte): (fs: seq<Frame>)
    ensures |fs| == |parts|
  {
    if parts == [] then []
    else [Frame(|parts| == 1, opcode, parts[0])] + Fragments(parts[1..], CONTINUATION)
  }

  /** A message as its sender knows it: TEXT or BINARY, cut into one or more parts. */
  datatype Sending = Sending(binary: bool, parts: seq<Message>)

  function SendingFrames(s: Sending): seq<Frame> {
    Fragments(s.parts, if s.binary then BINARY else TEXT)
  }

  function AllFragments(ss: seq<Sending>): seq<Frame> {
    if ss == [] then [] else SendingFrames(ss[0]) + AllFragments(ss[1..])
  }

  function WholeMessages(ss: seq<Sending>): (ms: seq<ByteString>)
    ensures |ms| == |ss|
  {
    if ss == [] then [] else [Concat(ss[0].parts)] + WholeMessages(ss[1..])
  }

  lemma {:induction false} FragmentsReassemble(partial: ByteString, parts: seq<Message>, opcode: byte, more: seq<Frame>)
    requires parts != [] && (opcode == TEXT || opcode == BINARY || opcode == CONTINUATION)
    ensures Reassemble(partial, Fragments(parts, opcode) + more)
            == var (ms, left) := Reassemble([], more); ([partial + Concat(parts)] + ms, left)
    decreases |parts|
  {
    var first := Frame(|parts| == 1, opcode, parts[0]);
    var tail := Fragments(parts[1..], CONTINUATION);
    Assoc([first], tail, more);
    assert ([first] + (tail + more))[1..] == tail + more;
    if |parts| == 1 {
      assert tail + more == more;
      assert Concat(parts) == parts[0];
    } else {
      FragmentsReassemble(partial + parts[0], parts[1..], CONTINUATION, more);
      Assoc(partial, parts[0], Concat(parts[1..]));
    }
  }

  /** Fragmented messages, one after the other, come out whole. */
  lemma {:induction false} AllFragmentsReassemble(ss: seq<Sending>)
    requires forall i :: 0 <= i < |ss| ==> ss[i].parts != []
    ensures Reassemble([], AllFragments(ss)) == (WholeMessages(ss), [])
    decreases |ss|
  {
    if ss != [] {
      AllFragmentsReassemble(ss[1..]);
      var s := ss[0];
      FragmentsReassemble([], s.parts, if s.binary then BINARY else TEXT, AllFragments(ss[1..]));
      assert [] + Concat(s.parts) == Concat(s.parts);
    }
  }

  /** End to end: any messages, in any fragments, with any control frames between the fragments,
      each frame in any length form, masked or not, the bytes in any chunks: the receiver delivers
      exactly those messages in order, keeps nothing, and answers as Replies says. */
  lemma Delivery(useMask: bool, ss: seq<Sending>, ws: seq<WireFrame>, chunks: seq<ByteString>)
    requires forall i :: 0 <= i < |ss| ==> ss[i].parts != []
    requires AllValid(ws) && DataOnly(Meanings(ws)) == AllFragments(ss)
    requires chunks != [] && Concat(chunks) == WireAll(ws)
    ensures var t := FeedAll(Fresh(useMask), chunks);
            && t.delivered == WholeMessages(ss)
            && t.rx == [] && t.partial == [] && !t.bad
            && t.queued == Replies(Meanings(ws)) && t.tx == OutBytes(t.queued, useMask)
            && t.ready == if HasClosing(Meanings(ws)) then CLOSING else OPEN
  {
    var fs := Meanings(ws);
    AnyChunking(Fresh(useMask), chunks);
    assert [] + Concat(chunks) == WireAll(ws) + [];
    ParseWireAll(ws, []);
    var s := Fresh(useMask).(rx := WireAll(ws));
    assert WireAll(ws) + [] == WireAll(ws);
    DispatchMeaning(s);
    ControlFramesAreInvisible([], fs);
    AllFragmentsReassemble(ss);
  }

  // ---- what the receiver does not refuse ----

  lemma DeliveredCount(s: Ws, fs: seq<Frame>)
    ensures |HandleAll(s, fs).delivered| == |s.delivered| + Fins(DataOnly(fs))
    ensures s.delivered <= HandleAll(s, fs).delivered
  {
    HandleAllIsAfter(s, fs);
    ReassemblyConserves(s.partial, fs);
  }

  /** Frames behind a closing one reach no callback if and only if no data frame among them is a last
      one; section 5.5.1 of RFC 6455 has none follow. */
  lemma SilentAfterCloseIff(s: Ws, f: Frame, fs: seq<Frame>)
    requires IsClosing(f)
    ensures HandleAll(s, [f] + fs).delivered == s.delivered <==> Fins(DataOnly(fs)) == 0
  {
    assert ([f] + fs)[1..] == fs;
    DeliveredCount(Handle(s, f), fs);
  }

  /** CLOSE and then a text: the text is delivered to a socket that is closing. */
  lemma TextAfterClose(useMask: bool)
    ensures var t := HandleAll(Fresh(useMask), [Frame(true, CLOSE, []), Frame(true, TEXT, [0x41])]);
            t.delivered == [[0x41]] && t.ready == CLOSING
  {
    var text := Frame(true, TEXT, [0x41]);
    var s := Handle(Fresh(useMask), Frame(true, CLOSE, []));
    var fs := [Frame(true, CLOSE, []), text];
    assert fs[1..] == [text] && [text][1..] == [];
    assert HandleAll(s, [text]) == HandleAll(Handle(s, text), []);
    assert [] + [0x41 as byte] == [0x41];
  }

  /** A last TEXT or BINARY frame is delivered as it is if and only if nothing of an unfinished message
      is there; otherwise it is taken for the end of that one. */
  lemma OwnPayloadIff(s: Ws, f: Frame)
    requires f.fin && (f.opcode == TEXT || f.opcode == BINARY)
    ensures Handle(s, f).delivered == s.delivered + [f.payload] <==> s.partial == []
  {
    var t := Handle(s, f);
    assert t.delivered[|s.delivered|] == s.partial + f.payload;
    assert (s.delivered + [f.payload])[|s.delivered|] == f.payload;
    if s.partial != [] {
      assert |s.partial + f.payload| > |f.payload|;
    } else {
      assert s.partial + f.payload == f.payload;
    }
  }

  /** An unfinished text and then a whole binary message: one message, of both. */
  lemma MessagesRunTogether(useMask: bool)
    ensures HandleAll(Fresh(useMask), [Frame(false, TEXT, [0x41]), Frame(true, BINARY, [0x42])]).delivered == [[0x41, 0x42]]
  {
    var first, second := Frame(false, TEXT, [0x41]), Frame(true, BINARY, [0x42]);
    var s := Handle(Fresh(useMask), first);
    assert [first, second][1..] == [second] && [second][1..] == [];
    assert s.partial == [] + [0x41] == [0x41];
    assert HandleAll(s, [second]) == HandleAll(Handle(s, second), []);
    assert [0x41 as byte] + [0x42] == [0x41, 0x42];
  }

  // ---- what frames do, by their numbers ----

  /** Opcodes 0, 1 and 2 carry data, 9 is answered, 10 is ignored, and 8 and all others are answered with a
      close. */
  lemma OpcodeMeaning(s: Ws, f: Frame)
    ensures IsData(f) <==> f.opcode == 0 || f.opcode == 1 || f.opcode == 2
    ensures f.opcode == 9 && s.ready == OPEN ==>
      var t := Handle(s, f); t.queued == s.queued + [Data(0xa, f.payload)] && t == s.(queued := t.queued, tx := t.tx)
    ensures f.opcode == 10 ==> Handle(s, f) == s
    ensures IsClosing(f) <==> f.opcode > 10 || 3 <= f.opcode <= 8
    ensures IsClosing(f) && s.ready == OPEN ==>
      var t := Handle(s, f); t.ready == CLOSING && t.tx == s.tx + [0x88, 0x80, 0, 0, 0, 0] && t.delivered == s.delivered
  {
  }

  /** The frames before the first closing one. */
  function BeforeClosing(fs: seq<Frame>): seq<Frame> {
    if fs == [] || IsClosing(fs[0]) then [] else [fs[0]] + BeforeClosing(fs[1..])
  }

  /** The payloads of the PINGs among some frames. */
  function PingPayloads(fs: seq<Frame>): seq<ByteString> {
    if fs == [] then [] else (if fs[0].opcode == 9 then [fs[0].payload] else []) + PingPayloads(fs[1..])
  }

  /** The payloads of the PONGs among what is queued. */
  function PongPayloads(q: seq<Out>): seq<ByteString> {
    if q == [] then [] else (if q[0].Data? && q[0].opcode == 0xa then [q[0].message] else []) + PongPayloads(q[1..])
  }

  /** Each PING before the first closing frame has one PONG with its payload, in their order; and there is one
      close frame if there is a closing one, and nothing else. */
  lemma {:induction false} PongsForPings(fs: seq<Frame>)
    ensures PongPayloads(Replies(fs)) == PingPayloads(BeforeClosing(fs))
    ensures |Replies(fs)| == |PingPayloads(BeforeClosing(fs))| + if |BeforeClosing(fs)| < |fs| then 1 else 0
    decreases |fs|
  {
    if fs != [] && !IsClosing(fs[0]) {
      var rest := Replies(fs[1..]);
      PongsForPings(fs[1..]);
      assert BeforeClosing(fs)[1..] == BeforeClosing(fs[1..]);
      if fs[0].opcode == PING {
        assert ([Data(PONG, fs[0].payload)] + rest)[1..] == rest;
      } else {
        assert [] + rest == rest;
      }
    } else if fs != [] {
      assert [CloseFrame][1..] == [];
    }
  }
}
