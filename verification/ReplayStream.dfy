/** The class `ReplayStream`: records go out through the packet writer, and are read back from a
    stream with a position and a fail bit. */
module ReplayStream {
  import opened Bytes
  import R = Recording
  import W = PacketStreamWriter

  class Recorder {
    const outfile: W.PacketStream

    constructor ()
      ensures fresh(outfile) && !outfile.m_writing
    {
      outfile := new W.PacketStream();
    }

    /** Open the file and queue the metadata, unless a recording is running. */
    method WriteOpen(good: bool, metadata: ByteString) returns (recording: bool)
      modifies outfile
      ensures recording == (old(outfile.m_writing) || (!old(outfile.isOpen) && good))
      ensures old(outfile.m_writing) ==> outfile.View() == old(outfile.View())
      ensures recording && !old(outfile.m_writing) && old(outfile.m_queue) == [] ==>
        outfile.View() == W.Run(W.Opened(), Writes(R.MetadataWrites(metadata)))
    {
      if outfile.m_writing {
        return true;
      }
      var ok := outfile.Open(good);
      if !ok {
        return false;
      }
      ghost var w := outfile.View();
      var count := BE(|metadata| + 1, 2);
      ok := outfile.Write(count);
      ok := outfile.Write(metadata + [0]);
      RunTwo(w, count, metadata + [0]);
      return true;
    }

    method WritePacket(timeStamp: nat, packet: ByteString) returns (ok: bool)
      modifies outfile
      ensures ok == old(outfile.m_writing)
      ensures ok ==> outfile.View() == W.Run(old(outfile.View()), Writes(R.RecordWrites(R.Record(timeStamp, packet))))
      ensures !ok ==> outfile.View() == old(outfile.View())
    {
      if !outfile.m_writing {
        return false;
      }
      ghost var w := outfile.View();
      var stamp, count := BE(timeStamp, 8), BE(|packet|, 2);
      ok := outfile.Write(stamp);
      ok := outfile.Write(count);
      ok := outfile.Write(packet);
      RunThree(w, stamp, count, packet);
      return true;
    }
  }

  /** Writes with no wake-up among them. */
  function Writes(bs: seq<ByteString>): seq<W.Event> {
    if bs == [] then [] else [W.DoWrite(bs[0])] + Writes(bs[1..])
  }

  lemma RunOne(w: W.Writer, b: ByteString, bs: seq<ByteString>)
    ensures W.Run(w, Writes([b] + bs)) == W.Run(W.Step(w, W.DoWrite(b)), Writes(bs))
  {
    assert ([b] + bs)[1..] == bs;
    assert ([W.DoWrite(b)] + Writes(bs))[1..] == Writes(bs);
  }

  lemma RunTwo(w: W.Writer, a: ByteString, b: ByteString)
    ensures W.Run(w, Writes([a, b])) == W.Step(W.Step(w, W.DoWrite(a)), W.DoWrite(b))
  {
    assert [a, b] == [a] + [b] && [b] == [b] + [];
    RunOne(w, a, [b]);
    RunOne(W.Step(w, W.DoWrite(a)), b, []);
  }

  lemma RunThree(w: W.Writer, a: ByteString, b: ByteString, c: ByteString)
    ensures W.Run(w, Writes([a, b, c])) == W.Step(W.Step(W.Step(w, W.DoWrite(a)), W.DoWrite(b)), W.DoWrite(c))
  {
    assert [a, b, c] == [a] + [b, c];
    RunOne(w, a, [b, c]);
    RunTwo(W.Step(w, W.DoWrite(a)), b, c);
  }

  class Replayer {
    var infile: ByteString
    var isOpen: bool
    var pos: nat
    var good: bool
    var timeStamp: nat
    var packet: ByteString
    var metadata: ByteString

    ghost predicate Valid()
      reads this
    {
      pos <= |infile|
    }

    /** What is left of the file. */
    ghost function Left(): ByteString
      requires Valid()
      reads this
    {
      infile[pos..]
    }

    constructor ()
      ensures Valid() && !isOpen
    {
      infile, isOpen, pos, good, timeStamp, packet, metadata := [], false, 0, true, 0, [], [];
    }

    /** `istream::read`: all n bytes, or the fail bit and what there was. */
    method Read(n: nat) returns (b: ByteString)
      requires Valid()
      modifies this`pos, this`good
      ensures Valid()
      ensures old(good) && n <= |old(Left())| ==> good && b == old(Left())[..n] && Left() == old(Left())[n..]
      ensures !(old(good) && n <= |old(Left())|) ==> !good
    {
      if !good {
        return [];
      }
      if n <= |infile| - pos {
        b := infile[pos..pos + n];
        pos := pos + n;
      } else {
        b := infile[pos..];
        pos := |infile|;
        good := false;
      }
    }

    /** Time stamp and count of a record, if the file holds so much. */
    method ReadRecordHead() returns (cnt: nat)
      requires Valid()
      modifies this`pos, this`good, this`timeStamp
      ensures Valid() && good == (old(good) && |old(Left())| >= 10)
      ensures good ==> timeStamp == FromBE(old(Left())[..8]) && cnt == FromBE(old(Left())[8..10]) && Left() == old(Left())[10..]
    {
      ghost var f := Left();
      var stamp := Read(8);
      timeStamp := FromBE(stamp);
      var two := Read(2);
      cnt := FromBE(two);
      assert good ==> stamp == f[..8] && two == f[8..10] && Left() == f[10..];
    }

    /** True exactly where the format holds a whole record, which is then the current packet. */
    method ReadPacket() returns (ok: bool)
      requires Valid()
      modifies this`pos, this`good, this`timeStamp, this`packet
      ensures Valid()
      ensures ok == (isOpen && old(good) && R.ReadPacket(old(Left())).GotRecord?)
      ensures ok ==> good && R.ReadPacket(old(Left())) == R.GotRecord(R.Record(timeStamp, packet), Left())
    {
      if !isOpen {
        return false;
      }
      ghost var f := Left();
      var cnt := ReadRecordHead();
      if good && cnt > 0 && cnt < R.MESSAGE_SIZE {
        var bytes := Read(cnt);
        if good {
          packet := bytes;
          assert bytes == f[10..10 + cnt] && Left() == f[10 + cnt..];
          return true;
        }
      }
      return false;
    }

    method Close()
      modifies this`isOpen, this`metadata
      ensures !isOpen && metadata == []
    {
      metadata := [];
      isOpen := false;
    }

    /** The metadata off the top of the file: false where its length is missing or too large. */
    method ReadMetadata(stack: ByteString) returns (ok: bool, ghost cnt: nat)
      requires Valid() && good && |stack| == R.BUFFER_SIZE
      modifies this`pos, this`good, this`metadata
      ensures Valid()
      ensures var f := old(Left());
              && (|f| >= 2 ==> cnt == FromBE(f[..2]))
              && ok == (|f| >= 2 && cnt <= R.BUFFER_SIZE)
              && (ok ==> good == (|f| >= 2 + cnt))
              && (ok && good ==> Left() == f[2 + cnt..] && metadata == R.CString(f[2..2 + cnt] + stack[cnt..]))
    {
      ghost var f := Left();
      var two := Read(2);
      if !good {
        return false, 0;
      }
      var n := FromBE(two);
      if n > R.BUFFER_SIZE {
        return false, n;
      }
      var text := Read(n);
      if good {
        metadata := R.CString(text + stack[n..]);
        assert text == f[2..2 + n] && Left() == f[2 + n..];
      }
      return true, n;
    }

    /** Open a file: true where playing starts. `stack` is what the text buffer held before. */
    method ReadOpen(file: ByteString, stack: ByteString) returns (playing: bool)
      requires |stack| == R.BUFFER_SIZE
      modifies this
      ensures Valid() && playing == R.ReadOpen(file, stack).Playing? && isOpen == playing
      ensures playing ==> good && R.ReadOpen(file, stack) == R.Playing(metadata, R.Record(timeStamp, packet), Left())
    {
      infile, isOpen, pos, good := file, true, 0, true;
      assert Left() == file;
      ghost var cnt;
      playing, cnt := ReadMetadata(stack);
      if playing {
        playing := ReadPacket();
      }
      if !playing {
        Close();
      }
    }
  }
}
