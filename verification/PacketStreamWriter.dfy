/** The writer thread's queue: client calls and worker wake-ups in any order. Each call and each
    wake-up is one step. */
module PacketStreamWriter {
  import opened Bytes
  import R = Recording

  /** Both the worker's file position and the client's own count are held against it. */
  const FILE_LIMIT: nat := 1_500_000_000

  /** `file` is what the file holds; `accepted` records the writes that were taken. A stream whose
      fail bit is set writes nothing. */
  datatype Writer = Writer(writing: bool, isOpen: bool, failed: bool, sizeCount: nat, queue: seq<ByteString>,
                           file: ByteString, accepted: seq<ByteString>)

  /** A new session on a writer that is idle. */
  function Opened(): Writer {
    Writer(true, true, false, 0, [], [], [])
  }

  function AfterClose(w: Writer): Writer {
    w.(writing := false)
  }

  function AfterWrite(w: Writer, b: ByteString): Writer {
    if !w.writing then w
    else
      var t := w.(queue := w.queue + [b], accepted := w.accepted + [b], sizeCount := w.sizeCount + |b|);
      if t.sizeCount > FILE_LIMIT then AfterClose(t) else t
  }

  /** The worker, woken by a notification or for no reason: drain, then close if told to. */
  function AfterWake(w: Writer): Writer {
    var t := w.(queue := [], file := if w.isOpen && !w.failed then w.file + Concat(w.queue) else w.file);
    var u := if t.isOpen && !t.failed && |t.file| > FILE_LIMIT then t.(writing := false) else t;
    if !u.writing then u.(isOpen := false) else u
  }

  /** A refused opening. */
  function AfterRefusal(w: Writer): Writer {
    w.(failed := true)
  }

  datatype Event = DoWrite(data: ByteString) | DoClose | DoWake

  function Step(w: Writer, e: Event): Writer {
    match e
    case DoWrite(data) => AfterWrite(w, data)
    case DoClose => AfterClose(w)
    case DoWake => AfterWake(w)
  }

  function Run(w: Writer, es: seq<Event>): Writer
    decreases |es|
  {
    if es == [] then w else Run(Step(w, es[0]), es[1..])
  }

  /** The writes a client attempts in a run. */
  function Attempted(es: seq<Event>): seq<ByteString> {
    if es == [] then [] else (if es[0].DoWrite? then [es[0].data] else []) + Attempted(es[1..])
  }

  class PacketStream {
    var m_writing: bool
    var isOpen: bool
    var failed: bool
    var m_sizeCount: nat
    var m_queue: seq<ByteString>
    var outfile: ByteString
    ghost var accepted: seq<ByteString>

    ghost function View(): Writer
      reads this
    {
      Writer(m_writing, isOpen, failed, m_sizeCount, m_queue, outfile, accepted)
    }

    constructor ()
      ensures !m_writing && !isOpen && !failed && m_queue == []
    {
      m_writing, isOpen, failed, m_sizeCount, m_queue, outfile, accepted := false, false, false, 0, [], [], [];
    }

    /** `good` is whether the operating system opens the file. Reopening before the worker has
        closed fails and leaves its mark on the stream; so does a file that cannot be opened. */
    method Open(good: bool) returns (ok: bool)
      modifies this
      ensures ok == (!old(m_writing) && !old(isOpen) && good)
      ensures ok && old(m_queue) == [] ==> View() == Opened()
      ensures !ok ==> View() == if old(m_writing) then old(View()) else AfterRefusal(old(View()))
    {
      if m_writing {
        return false;
      }
      if isOpen || !good {
        failed := true;
        return false;
      }
      isOpen, failed, outfile := true, false, [];
      m_writing := true;
      m_sizeCount := 0;
      accepted := [];
      return m_writing;
    }

    method Close() returns (ok: bool)
      modifies this`m_writing
      ensures ok && View() == Step(old(View()), DoClose)
    {
      m_writing := false;
      return true;
    }

    method Write(buffer: ByteString) returns (ok: bool)
      modifies this
      ensures View() == Step(old(View()), DoWrite(buffer)) && ok == old(m_writing)
    {
      if !m_writing {
        return false;
      }
      m_queue := m_queue + [buffer];
      accepted := accepted + [buffer];
      m_sizeCount := m_sizeCount + |buffer|;
      if m_sizeCount > FILE_LIMIT {
        ok := Close();
        return;
      }
      return true;
    }

    /** The body of the worker's loop after a wait. */
    method WorkerWake()
      modifies this
      ensures View() == Step(old(View()), DoWake)
    {
      ghost var q, start := m_queue, outfile;
      while m_queue != []
        invariant isOpen == old(isOpen) && failed == old(failed) && m_writing == old(m_writing) && m_sizeCount == old(m_sizeCount)
        invariant accepted == old(accepted)
        invariant outfile + (if isOpen && !failed then Concat(m_queue) else [])
                  == start + (if isOpen && !failed then Concat(q) else [])
        decreases |m_queue|
      {
        var buff := m_queue[0];
        if isOpen && !failed {
          outfile := outfile + buff;
        }
        m_queue := m_queue[1..];
      }
      assert outfile + [] == outfile && start + [] == start;
      assert outfile == if isOpen && !failed then start + Concat(q) else start;
      if isOpen && !failed && |outfile| > FILE_LIMIT {
        m_writing := false;
      }
      if !m_writing {
        isOpen := false;
      }
    }
  }

  // ---- every interleaving ----

  /** File bytes and then queued chunks are the accepted writes in order, the file is open while
      anything may still come, and the size count is of what was accepted. */
  ghost predicate Faithful(w: Writer) {
    && w.file + Concat(w.queue) == Concat(w.accepted)
    && (w.writing ==> w.isOpen)
    && (!w.isOpen ==> w.queue == [])
    && !w.failed
    && (w.writing ==> |Concat(w.accepted)| <= FILE_LIMIT)
    && w.sizeCount == |Concat(w.accepted)|
  }

  lemma StepFaithful(w: Writer, e: Event)
    requires Faithful(w)
    ensures Faithful(Step(w, e))
    ensures Step(w, e).accepted == w.accepted + if w.writing && e.DoWrite? then [e.data] else []
  {
    if e.DoWrite? {
      ConcatSnoc(w.queue, e.data);
      ConcatSnoc(w.accepted, e.data);
      assert w.file + (Concat(w.queue) + e.data) == (w.file + Concat(w.queue)) + e.data;
    } else {
      assert w.accepted + [] == w.accepted;
      assert w.file + [] == w.file;
      assert (w.file + Concat(w.queue)) + [] == w.file + Concat(w.queue);
    }
  }

  /** On every run, spurious wake-ups included. */
  lemma {:induction false} RunFaithful(w: Writer, es: seq<Event>)
    requires Faithful(w)
    ensures Faithful(Run(w, es))
    decreases |es|
  {
    if es != [] {
      StepFaithful(w, es[0]);
      RunFaithful(Step(w, es[0]), es[1..]);
    }
  }

  lemma {:induction false} NoneAfterClosing(w: Writer, es: seq<Event>)
    requires Faithful(w) && !w.writing
    ensures Run(w, es).accepted == w.accepted && !Run(w, es).writing
    decreases |es|
  {
    if es != [] {
      StepFaithful(w, es[0]);
      NoneAfterClosing(Step(w, es[0]), es[1..]);
    }
  }

  /** What is accepted are the attempted writes up to some point, and no more once the session has
      stopped writing. */
  lemma {:induction false} AcceptedIsPrefix(w: Writer, es: seq<Event>)
    requires Faithful(w)
    ensures w.accepted <= Run(w, es).accepted <= w.accepted + Attempted(es)
    decreases |es|
  {
    if es == [] {
      assert w.accepted + [] == w.accepted;
    } else if w.writing {
      var t := Step(w, es[0]);
      StepFaithful(w, es[0]);
      AcceptedIsPrefix(t, es[1..]);
      assert w.accepted + Attempted(es) == t.accepted + Attempted(es[1..]);
    } else {
      NoneAfterClosing(w, es);
    }
  }

  /** A closing call before a write, or more bytes than the limit, is what can make a write fail. */
  predicate ClosesLast(es: seq<Event>) {
    forall i, j :: 0 <= i < j < |es| && es[i].DoClose? ==> !es[j].DoWrite?
  }

  lemma {:induction false} NothingAttempted(es: seq<Event>)
    requires forall j :: 0 <= j < |es| ==> !es[j].DoWrite?
    ensures Attempted(es) == []
    decreases |es|
  {
    if es != [] {
      NothingAttempted(es[1..]);
    }
  }

  lemma {:induction false} AllAccepted(w: Writer, es: seq<Event>)
    requires Faithful(w) && w.writing && ClosesLast(es)
    requires |Concat(w.accepted + Attempted(es))| <= FILE_LIMIT
    ensures Run(w, es).accepted == w.accepted + Attempted(es)
    decreases |es|
  {
    if es == [] {
      assert w.accepted + [] == w.accepted;
    } else {
      var e, rest := es[0], es[1..];
      var t := Step(w, e);
      StepFaithful(w, e);
      assert w.accepted + Attempted(es) == t.accepted + Attempted(rest);
      ConcatAppend(t.accepted, Attempted(rest));
      if e.DoClose? {
        forall j | 0 <= j < |rest|
          ensures !rest[j].DoWrite?
        {
          assert es[j + 1] == rest[j];
        }
        NothingAttempted(rest);
        NoneAfterClosing(t, rest);
      } else {
        if e.DoWake? {
          assert |t.file| <= |Concat(t.accepted)|;
        }
        assert t.writing;
        assert ClosesLast(rest) by {
          forall i, j | 0 <= i < j < |rest| && rest[i].DoClose?
            ensures !rest[j].DoWrite?
          {
            assert es[i + 1] == rest[i] && es[j + 1] == rest[j];
          }
        }
        AllAccepted(t, rest);
      }
    }
  }

  /** Reopening before the worker has drained the queue of a closed session is refused and loses what
      is still in the queue: the file gets to hold the accepted writes exactly if nothing is. */
  lemma RefusalLosesQueue(w: Writer)
    requires Faithful(w) && w.isOpen && !w.writing
    ensures var t := AfterWake(AfterRefusal(w));
            && !t.isOpen && t.queue == [] && t.file == w.file
            && (t.file == Concat(w.accepted) <==> Concat(w.queue) == [])
  {
    var q := Concat(w.queue);
    assert |w.file + q| == |w.file| + |q|;
    assert w.file + [] == w.file;
  }

  /** One chunk written, closed, reopened too soon: the file stays empty. */
  lemma ReopenedTooSoon()
    ensures var w := Run(Opened(), [DoWrite([7]), DoClose]);
            w.accepted == [[7]] && AfterWake(AfterRefusal(w)).file == []
  {
    var es := [DoWrite([7]), DoClose];
    var w := Step(Step(Opened(), DoWrite([7])), DoClose);
    assert es[1..] == [DoClose] && [DoClose][1..] == [];
    assert Concat([[7 as byte]]) == [7];
    assert Run(Opened(), es) == Run(Step(Opened(), DoWrite([7])), [DoClose]);
    assert Run(Step(Opened(), DoWrite([7])), [DoClose]) == Run(w, []);
  }

  /** The write that takes a session over the size limit is accepted, and is its last. */
  lemma LimitStops(w: Writer, data: ByteString, es: seq<Event>)
    requires Faithful(w) && w.writing
    ensures var t := AfterWrite(w, data);
            && t.accepted == w.accepted + [data]
            && (t.writing <==> |Concat(t.accepted)| <= 1_500_000_000)
            && (!t.writing ==> Run(t, es).accepted == t.accepted)
  {
    StepFaithful(w, DoWrite(data));
    if !AfterWrite(w, data).writing {
      NoneAfterClosing(AfterWrite(w, data), es);
    }
  }

  // ---- when the file is closed ----

  /** Some wake-up comes after a close. */
  predicate WokenAfterClose(es: seq<Event>, closed: bool)
    decreases |es|
  {
    es != [] && ((closed && es[0].DoWake?) || WokenAfterClose(es[1..], closed || es[0].DoClose?))
  }

  lemma {:induction false} StaysClosed(w: Writer, es: seq<Event>)
    requires !w.writing && !w.isOpen
    ensures !Run(w, es).isOpen
    decreases |es|
  {
    if es != [] {
      StaysClosed(Step(w, es[0]), es[1..]);
    }
  }

  lemma StillOpen(w: Writer, e: Event)
    requires Faithful(w) && w.writing && |Concat(Step(w, e).accepted)| <= FILE_LIMIT
    ensures Step(w, e).isOpen && Step(w, e).writing == !e.DoClose?
  {
    StepFaithful(w, e);
    assert |Step(w, e).file| <= |Concat(Step(w, e).accepted)|;
  }

  lemma AttemptedStep(w: Writer, es: seq<Event>)
    requires Faithful(w) && w.writing && es != []
    ensures w.accepted + Attempted(es) == Step(w, es[0]).accepted + Attempted(es[1..])
  {
    StepFaithful(w, es[0]);
    Assoc(w.accepted, if es[0].DoWrite? then [es[0].data] else [], Attempted(es[1..]));
  }

  lemma ConcatLonger(a: seq<ByteString>, b: seq<ByteString>)
    ensures |Concat(a)| <= |Concat(a + b)|
  {
    ConcatAppend(a, b);
  }

  /** Within the size limit the worker closes the file exactly if it is woken after a close. */
  lemma {:induction false} ClosedIffWoken(w: Writer, es: seq<Event>)
    requires Faithful(w) && w.isOpen
    requires w.writing ==> |Concat(w.accepted + Attempted(es))| <= FILE_LIMIT
    ensures !Run(w, es).isOpen <==> WokenAfterClose(es, !w.writing)
    decreases |es|
  {
    if es != [] {
      var e, rest := es[0], es[1..];
      var t := Step(w, e);
      StepFaithful(w, e);
      if w.writing {
        AttemptedStep(w, es);
        ConcatLonger(t.accepted, Attempted(rest));
        StillOpen(w, e);
        ClosedIffWoken(t, rest);
      } else if e.DoWake? {
        StaysClosed(t, rest);
      } else {
        ClosedIffWoken(t, rest);
      }
    }
  }

  // ---- a whole recording ----

  /** The client's writes of one recording, with any wake-ups among them, a close after them and a
      wake-up after that; the session stayed within the limit. Then the worker has drained the queue
      and closed the file, and the reader gives back the metadata and every record in order. */
  lemma RecordingRoundTrip(es: seq<Event>, metadata: ByteString, rs: seq<R.Record>, stack: ByteString)
    requires Attempted(es) == R.SessionWrites(metadata, rs) && ClosesLast(es) && WokenAfterClose(es, false)
    requires |Concat(R.SessionWrites(metadata, rs))| <= FILE_LIMIT
    requires |stack| == R.BUFFER_SIZE && |metadata| < R.BUFFER_SIZE && 0 !in metadata
    requires rs != [] && forall i :: 0 <= i < |rs| ==> rs[i].Valid()
    ensures !Run(Opened(), es).isOpen && Run(Opened(), es).queue == []
    ensures var o := R.ReadOpen(Run(Opened(), es).file, stack);
            o.Playing? && o.metadata == metadata && [o.first] + R.ReadPackets(o.rest) == rs
  {
    var w := Run(Opened(), es);
    assert [] + Attempted(es) == Attempted(es);
    AllAccepted(Opened(), es);
    ClosedIffWoken(Opened(), es);
    RunFaithful(Opened(), es);
    assert w.file + [] == w.file;
    R.FileRoundTrip(metadata, rs, stack);
  }

  /** Without the limit, and at any moment of the session: the file holds the first bytes of the
      recording, so that by CutRecording only an incomplete last record can be missing from what
      the file holds. */
  lemma FileIsPrefix(es: seq<Event>)
    ensures Run(Opened(), es).file <= Concat(Attempted(es))
  {
    var w := Run(Opened(), es);
    RunFaithful(Opened(), es);
    AcceptedIsPrefix(Opened(), es);
    assert [] + Attempted(es) == Attempted(es);
    ConcatPrefix(w.accepted, Attempted(es));
  }

  lemma ConcatPrefix(a: seq<ByteString>, b: seq<ByteString>)
    requires a <= b
    ensures Concat(a) <= Concat(b)
  {
    assert b == a + b[|a|..];
    ConcatAppend(a, b[|a|..]);
  }

  /** Read at any moment of a session, a file that already holds its metadata yields exactly the
      records that are completely in it. */
  lemma AnyMoment(es: seq<Event>, metadata: ByteString, rs: seq<R.Record>)
    requires Attempted(es) <= R.SessionWrites(metadata, rs)
    requires forall i :: 0 <= i < |rs| ==> rs[i].Valid()
    requires |Run(Opened(), es).file| >= |R.MetadataBytes(metadata)|
    ensures var f := Run(Opened(), es).file[|R.MetadataBytes(metadata)|..];
            var k := |R.ReadPackets(f)|;
            R.ReadPackets(f) <= rs && R.Complete(rs, f, k)
  {
    var file, m := Run(Opened(), es).file, R.MetadataBytes(metadata);
    FileIsPrefix(es);
    ConcatPrefix(Attempted(es), R.SessionWrites(metadata, rs));
    R.SessionWritesBytes(metadata, rs);
    R.CutFront(m, R.RecordsBytes(rs), file);
    R.CutRecording(rs, file[|m|..]);
  }
}
