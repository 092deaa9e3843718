/** The recording format: metadata and time-stamped packets, and the reader that undoes it. */
module Recording {
  import opened Bytes

  /** The size of the packed message struct: header and audio buffer. */
  const MESSAGE_SIZE: nat := 14428

  const BUFFER_SIZE: nat := 2048

  /** A packet with the time it was recorded. */
  datatype Record = Record(timeStamp: nat, packet: ByteString)
  {
    predicate Valid() {
      timeStamp < 0x1_0000_0000_0000_0000 && 0 < |packet| < MESSAGE_SIZE
    }
  }

  // ---- writing ----

  /** The writes of writeOpen: the length with the terminator in 16 bits, then text and terminator. */
  function MetadataWrites(metadata: ByteString): seq<ByteString> {
    [BE(|metadata| + 1, 2), metadata + [0]]
  }

  /** The writes of writePacket. */
  function RecordWrites(r: Record): seq<ByteString> {
    [BE(r.timeStamp, 8), BE(|r.packet|, 2), r.packet]
  }

  function RecordsWrites(rs: seq<Record>): seq<ByteString> {
    if rs == [] then [] else RecordWrites(rs[0]) + RecordsWrites(rs[1..])
  }

  function SessionWrites(metadata: ByteString, rs: seq<Record>): seq<ByteString> {
    MetadataWrites(metadata) + RecordsWrites(rs)
  }

  function RecordBytes(r: Record): ByteString {
    BE(r.timeStamp, 8) + BE(|r.packet|, 2) + r.packet
  }

  function RecordsBytes(rs: seq<Record>): ByteString {
    if rs == [] then [] else RecordBytes(rs[0]) + RecordsBytes(rs[1..])
  }

  function MetadataBytes(metadata: ByteString): ByteString {
    BE(|metadata| + 1, 2) + (metadata + [0])
  }

  lemma ConcatThree(a: ByteString, b: ByteString, c: ByteString)
    ensures Concat([a, b, c]) == a + b + c
  {
    assert [a, b, c][1..] == [b, c] && [b, c][1..] == [c] && [c][1..] == [];
    assert Concat([c]) == c + [] && Concat([b, c]) == b + (c + []);
  }

  lemma {:induction false} RecordsWritesBytes(rs: seq<Record>)
    ensures Concat(RecordsWrites(rs)) == RecordsBytes(rs)
    decreases |rs|
  {
    if rs != [] {
      var r := rs[0];
      ConcatAppend(RecordWrites(r), RecordsWrites(rs[1..]));
      ConcatThree(BE(r.timeStamp, 8), BE(|r.packet|, 2), r.packet);
      RecordsWritesBytes(rs[1..]);
    }
  }

  lemma SessionWritesBytes(metadata: ByteString, rs: seq<Record>)
    ensures Concat(SessionWrites(metadata, rs)) == MetadataBytes(metadata) + RecordsBytes(rs)
  {
    ConcatAppend(MetadataWrites(metadata), RecordsWrites(rs));
    RecordsWritesBytes(rs);
    var a, b := BE(|metadata| + 1, 2), metadata + [0];
    assert [a, b][1..] == [b] && [b][1..] == [];
    assert Concat([b]) == b + [] == b;
  }

  // ---- reading ----

  datatype ReadResult = NoRecord | GotRecord(record: Record, rest: ByteString)

  /** `readPacket` at the front of what is left of the file. */
  function ReadPacket(f: ByteString): (r: ReadResult)
    ensures r.GotRecord? ==> |r.rest| < |f| && r.record.Valid()
  {
    if |f| < 10 then NoRecord
    else
      Pow256Values();
      var cnt := FromBE(f[8..10]);
      if 0 < cnt < MESSAGE_SIZE && 10 + cnt <= |f|
      then GotRecord(Record(FromBE(f[..8]), f[10..10 + cnt]), f[10 + cnt..])
      else NoRecord
  }

  /** Every record that can be read, one after the other. */
  function ReadPackets(f: ByteString): seq<Record>
    decreases |f|
  {
    match ReadPacket(f)
    case NoRecord => []
    case GotRecord(r, rest) => [r] + ReadPackets(rest)
  }

  /** Text up to the first NUL byte; all of the buffer if it has none. */
  function CString(b: ByteString): (s: ByteString)
    ensures 0 !in s && |s| <= |b| && s == b[..|s|]
    ensures |s| < |b| ==> b[|s|] == 0
  {
    if b == [] || b[0] == 0 then [] else [b[0]] + CString(b[1..])
  }

  datatype OpenResult = Corrupt | ReadError | Playing(metadata: ByteString, first: Record, rest: ByteString)

  /** `readOpen` on the bytes of a file; `stack` is what the uninitialised text buffer holds. */
  function ReadOpen(f: ByteString, stack: ByteString): OpenResult
    requires |stack| == BUFFER_SIZE
  {
    if |f| < 2 then ReadError
    else
      var cnt := FromBE(f[..2]);
      if cnt > BUFFER_SIZE then Corrupt
      else if |f| < 2 + cnt then ReadError
      else
        match ReadPacket(f[2 + cnt..])
        case NoRecord => ReadError
        case GotRecord(r, rest) => Playing(CString(f[2..2 + cnt] + stack[cnt..]), r, rest)
  }

  // ---- the reader undoes the writer ----

  lemma Header10(a: ByteString, b: ByteString, c: ByteString, d: ByteString)
    requires |a| == 8 && |b| == 2
    ensures var f := (a + b + c) + d;
            && |f| == 10 + |c| + |d| && f[..8] == a && f[8..10] == b
            && f[10..10 + |c|] == c && f[10 + |c|..] == d
  {
  }

  /** A record is read back from in front of anything exactly if its time stamp fits 64 bits and
      its packet is neither empty nor as large as a full message. */
  lemma ReadWritten(r: Record, tail: ByteString)
    ensures ReadPacket(RecordBytes(r) + tail) == GotRecord(r, tail) <==> r.Valid()
  {
    if r.Valid() {
      var a, b := BE(r.timeStamp, 8), BE(|r.packet|, 2);
      Pow256Values();
      BERoundTrip(r.timeStamp, 8);
      BERoundTrip(|r.packet|, 2);
      Header10(a, b, r.packet, tail);
    }
  }

  /** Any records, then anything: those records are read back, then what the rest holds. */
  lemma {:induction false} ReadAllWritten(rs: seq<Record>, tail: ByteString)
    requires forall i :: 0 <= i < |rs| ==> rs[i].Valid()
    ensures ReadPackets(RecordsBytes(rs) + tail) == rs + ReadPackets(tail)
    decreases |rs|
  {
    if rs == [] {
      assert [] + tail == tail;
    } else {
      ReadAllWritten(rs[1..], tail);
      ReadNext(rs[0], RecordsBytes(rs[1..]) + tail);
      Assoc(RecordBytes(rs[0]), RecordsBytes(rs[1..]), tail);
      Assoc([rs[0]], rs[1..], ReadPackets(tail));
      assert rs == [rs[0]] + rs[1..];
    }
  }

  lemma ReadNext(r: Record, more: ByteString)
    requires r.Valid()
    ensures ReadPackets(RecordBytes(r) + more) == [r] + ReadPackets(more)
  {
    ReadWritten(r, more);
  }

  /** A record cut anywhere before its end is not read. */
  lemma CutRecord(r: Record, f: ByteString)
    requires r.Valid() && f <= RecordBytes(r) && f != RecordBytes(r)
    ensures ReadPackets(f) == []
  {
    if |f| >= 10 {
      var b := BE(|r.packet|, 2);
      Header10(BE(r.timeStamp, 8), b, r.packet, []);
      assert RecordBytes(r) + [] == RecordBytes(r);
      assert f[8..10] == RecordBytes(r)[8..10] == b;
      Pow256Values();
      BERoundTrip(|r.packet|, 2);
    }
  }

  /** k records are completely there, and no more. */
  ghost predicate Complete(rs: seq<Record>, f: ByteString, k: nat) {
    k <= |rs| && RecordsBytes(rs[..k]) <= f
    && (k < |rs| ==> |f| < |RecordsBytes(rs[..k])| + |RecordBytes(rs[k])|)
  }

  /** A recording cut anywhere loses no complete record: what is read back is exactly the records
      whose bytes are all there. */
  lemma {:induction false} CutRecording(rs: seq<Record>, f: ByteString)
    requires forall i :: 0 <= i < |rs| ==> rs[i].Valid()
    requires f <= RecordsBytes(rs)
    ensures ReadPackets(f) <= rs && Complete(rs, f, |ReadPackets(f)|)
    decreases |rs|
  {
    if rs != [] {
      var r, rest := rs[0], RecordsBytes(rs[1..]);
      var n := |RecordBytes(r)|;
      if |f| < n {
        CutRecord(r, f);
      } else {
        CutFront(RecordBytes(r), rest, f);
        CutRecording(rs[1..], f[n..]);
        ReadNext(r, f[n..]);
        OneMoreRecord(rs, f[n..], ReadPackets(f[n..]));
      }
    }
  }

  lemma OneMoreRecord(rs: seq<Record>, g: ByteString, p: seq<Record>)
    requires rs != [] && p <= rs[1..] && Complete(rs[1..], g, |p|)
    ensures [rs[0]] + p <= rs && Complete(rs, RecordBytes(rs[0]) + g, |[rs[0]] + p|)
  {
    CompleteCons(rs, g, |p|);
    assert rs == [rs[0]] + rs[1..];
  }

  lemma CompleteCons(rs: seq<Record>, g: ByteString, k: nat)
    requires rs != [] && Complete(rs[1..], g, k)
    ensures Complete(rs, RecordBytes(rs[0]) + g, k + 1)
  {
    assert rs[..k + 1][1..] == rs[1..][..k];
  }

  lemma CutFront(a: ByteString, b: ByteString, f: ByteString)
    requires f <= a + b && |f| >= |a|
    ensures f == a + f[|a|..] && f[|a|..] <= b
  {
    assert f == (a + b)[..|f|];
  }

  // ---- metadata ----

  lemma {:induction false} CStringStops(s: ByteString, tail: ByteString)
    requires 0 !in s
    ensures CString(s + [0] + tail) == s
    decreases |s|
  {
    var b := s + [0] + tail;
    if s == [] {
      assert b[0] == 0;
    } else {
      assert b[0] == s[0] && s[0] in s;
      assert b[1..] == s[1..] + [0] + tail;
      CStringStops(s[1..], tail);
    }
  }

  lemma OpenSlices(metadata: ByteString, tail: ByteString)
    ensures var f := MetadataBytes(metadata) + tail;
            && |f| >= 2 && f[..2] == BE(|metadata| + 1, 2)
            && |f| >= 2 + |metadata| + 1 && f[2..2 + |metadata| + 1] == metadata + [0]
            && f[2 + |metadata| + 1..] == tail
  {
  }

  lemma OpenShort(metadata: ByteString, rs: seq<Record>, stack: ByteString)
    requires |stack| == BUFFER_SIZE && rs != [] && rs[0].Valid() && |metadata| < BUFFER_SIZE
    ensures ReadOpen(MetadataBytes(metadata) + RecordsBytes(rs), stack)
            == Playing(CString(metadata + [0] + stack[|metadata| + 1..]), rs[0], RecordsBytes(rs[1..]))
  {
    OpenSlices(metadata, RecordsBytes(rs));
    Pow256Values();
    BERoundTrip(|metadata| + 1, 2);
    ReadWritten(rs[0], RecordsBytes(rs[1..]));
  }

  /** Opening a recording gives back its metadata exactly if that is shorter than the buffer and
      holds no NUL byte, whatever the stack held. */
  lemma MetadataIff(metadata: ByteString, rs: seq<Record>, stack: ByteString)
    requires |stack| == BUFFER_SIZE && rs != [] && rs[0].Valid()
    ensures (var o := ReadOpen(MetadataBytes(metadata) + RecordsBytes(rs), stack);
             o.Playing? && o.metadata == metadata)
            <==> |metadata| < BUFFER_SIZE && 0 !in metadata
  {
    if |metadata| < BUFFER_SIZE {
      OpenShort(metadata, rs, stack);
      if 0 !in metadata {
        CStringStops(metadata, stack[|metadata| + 1..]);
      }
    } else if |metadata| == BUFFER_SIZE {
      OpenSlices(metadata, RecordsBytes(rs));
      Pow256Values();
      BERoundTrip(|metadata| + 1, 2);
    }
  }

  /** A recording without records cannot be opened. */
  lemma EmptyRecording(metadata: ByteString, stack: ByteString)
    requires |stack| == BUFFER_SIZE && |metadata| < BUFFER_SIZE
    ensures ReadOpen(MetadataBytes(metadata), stack) == ReadError
  {
    OpenSlices(metadata, []);
    assert MetadataBytes(metadata) + [] == MetadataBytes(metadata);
    Pow256Values();
    BERoundTrip(|metadata| + 1, 2);
  }

  /** The whole file: metadata, the first record, and then all the others. */
  lemma FileRoundTrip(metadata: ByteString, rs: seq<Record>, stack: ByteString)
    requires |stack| == BUFFER_SIZE && |metadata| < BUFFER_SIZE && 0 !in metadata
    requires rs != [] && forall i :: 0 <= i < |rs| ==> rs[i].Valid()
    ensures var o := ReadOpen(Concat(SessionWrites(metadata, rs)), stack);
            o.Playing? && o.metadata == metadata && [o.first] + ReadPackets(o.rest) == rs
  {
    SessionWritesBytes(metadata, rs);
    OpenShort(metadata, rs, stack);
    CStringStops(metadata, stack[|metadata| + 1..]);
    ReadAllWritten(rs[1..], []);
    assert RecordsBytes(rs[1..]) + [] == RecordsBytes(rs[1..]);
    assert rs == [rs[0]] + rs[1..];
  }

  /** A file: the text "{}" as metadata, and a packet of one byte at time 258. */
  lemma FileExample()
    ensures MetadataBytes([0x7b, 0x7d]) == [0, 3, 0x7b, 0x7d, 0]
    ensures RecordBytes(Record(258, [0xaa])) == [0, 0, 0, 0, 0, 0, 1, 2] + [0, 1] + [0xaa]
  {
    ByteNat(1);
    ByteNat(2);
    ByteNat(3);
    assert BE(3, 2) == [0, 3] && BE(1, 2) == [0, 1];
    assert BE(258, 8) == [0, 0, 0, 0, 0, 0, 1, 2];
  }
}
