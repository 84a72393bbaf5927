/** Messages on a stream socket: each one is sent as a four-byte big-endian length and a body, and
    the reader alternates between a header and a body until something stops it. */
module Framing {
  import opened Wrappers
  import opened Words
  import opened Wire
  import opened ChatMessages

  const HEADER_SIZE := 4

  function BigEndian(n: nat, width: nat): (bs: Bytes)
    ensures |bs| == width
  {
    if width == 0 then [] else BigEndian(n / 256, width - 1) + [n % 256]
  }

  function FromBigEndian(bs: Bytes): nat {
    if bs == [] then 0 else 256 * FromBigEndian(bs[..|bs| - 1]) + bs[|bs| - 1]
  }

  lemma BigEndianStep(n: nat, width: nat)
    ensures BigEndian(n, width) == if width == 0 then [] else BigEndian(n / 256, width - 1) + [n % 256]
  {
  }

  lemma FromBigEndianStep(bs: Bytes)
    ensures FromBigEndian(bs) == if bs == [] then 0 else 256 * FromBigEndian(bs[..|bs| - 1]) + bs[|bs| - 1]
  {
  }

  lemma SerializeIsLonger(m: Message)
    ensures |m.sender| <= |Serialize(m)| && |m.receiver| <= |Serialize(m)| && |m.content| <= |Serialize(m)|
  {
  }

  function Frame(m: Message): Bytes {
    BigEndian(|Serialize(m)|, HEADER_SIZE) + Serialize(m)
  }

  function Stream(ms: seq<Message>): Bytes {
    if ms == [] then [] else Frame(ms[0]) + Stream(ms[1..])
  }

  /** The size of a frame is an int. */
  predicate Sendable(m: Message) {
    HEADER_SIZE + |Serialize(m)| < 0x8000_0000
  }

  /** Why a reader stopped: the stream ended, the length of a frame was zero, or a body was malformed. */
  datatype Ending = Closed | Silent | Malformed

  /** What a reader delivered, why it stopped, and the bytes from the frame on at which it did. */
  datatype Reading = Reading(messages: seq<Message>, ending: Ending, rest: Bytes)

  function Read(stream: Bytes): Reading
    decreases |stream|
  {
    if |stream| < HEADER_SIZE then Reading([], Closed, stream)
    else
      var size := FromBigEndian(stream[..HEADER_SIZE]);
      var end := HEADER_SIZE + size;
      if size == 0 then Reading([], Silent, stream)
      else if |stream| < end then Reading([], Closed, stream)
      else match Parse(DEFAULT, stream[HEADER_SIZE..end])
           case None => Reading([], Malformed, stream)
           case Some(m) =>
             var later := Read(stream[end..]);
             later.(messages := [m] + later.messages)
  }

  // ---- What a reader makes of any bytes ----

  lemma ReadStep(s: Bytes)
    ensures |s| < HEADER_SIZE ==> Read(s) == Reading([], Closed, s)
    ensures |s| >= HEADER_SIZE ==>
      var end := HEADER_SIZE + FromBigEndian(s[..HEADER_SIZE]);
      && (end == HEADER_SIZE ==> Read(s) == Reading([], Silent, s))
      && (|s| < end ==> Read(s) == Reading([], Closed, s))
      && (HEADER_SIZE < end <= |s| ==>
        var body, later := Parse(DEFAULT, s[HEADER_SIZE..end]), Read(s[end..]);
        && (body.None? ==> Read(s) == Reading([], Malformed, s))
        && (body.Some? ==> Read(s) == later.(messages := [body.value] + later.messages)))
  {
  }

  /** Reading does not depend on how much of the stream has arrived: what was delivered stays, a
      reader that stopped before the end of the stream stays stopped whatever follows, and one that
      ran out of bytes goes on from the frame it was in. */
  lemma {:induction false} ReadingResumes(x: Bytes, y: Bytes)
    ensures Read(x).ending.Closed? ==>
      Read(x + y) == (var later := Read(Read(x).rest + y); later.(messages := Read(x).messages + later.messages))
    ensures !Read(x).ending.Closed? ==> Read(x + y) == Read(x).(rest := Read(x).rest + y)
    decreases |x|
  {
    hide Parse, FromBigEndian, Read;
    ReadStep(x);
    ReadStep(x + y);
    if |x| >= HEADER_SIZE {
      assert (x + y)[..HEADER_SIZE] == x[..HEADER_SIZE];
      var end := HEADER_SIZE + FromBigEndian(x[..HEADER_SIZE]);
      if HEADER_SIZE < end <= |x| {
        assert (x + y)[HEADER_SIZE..end] == x[HEADER_SIZE..end];
        assert (x + y)[end..] == x[end..] + y;
        ReadingResumes(x[end..], y);
      }
    }
  }

  // ---- Reading back what was sent ----

  lemma {:induction false} ReadBackSize(n: nat)
    requires n < TWO_32
    ensures FromBigEndian(BigEndian(n, HEADER_SIZE)) == n
  {
    FromBigEndianOf(n, 4, TWO_32);
  }

  lemma {:induction false} FromBigEndianOf(n: nat, width: nat, limit: nat)
    requires n < limit == Power256(width)
    ensures FromBigEndian(BigEndian(n, width)) == n
  {
    assert limit == if width == 0 then 1 else 256 * Power256(width - 1);
    hide Power256, BigEndian, FromBigEndian;
    var all := BigEndian(n, width);
    BigEndianStep(n, width);
    FromBigEndianStep(all);
    if width > 0 {
      FromBigEndianOf(n / 256, width - 1, limit / 256);
      assert all[..width - 1] == BigEndian(n / 256, width - 1);
    }
  }

  function Power256(k: nat): nat {
    if k == 0 then 1 else 256 * Power256(k - 1)
  }

  /** A message that is all defaults has an empty body, and one with a string too long for a parser
      is refused; any other can be delivered. */
  predicate Deliverable(m: Message) {
    m != DEFAULT && Fits(m)
  }

  lemma EmptyIffDefault(m: Message)
    ensures |Serialize(m)| == 0 <==> m == DEFAULT
  {
  }

  lemma ReadFrame(m: Message, rest: Bytes)
    requires Sendable(m)
    ensures Deliverable(m) ==> Read(Frame(m) + rest) == (var r := Read(rest); r.(messages := [m] + r.messages))
    ensures m == DEFAULT ==> Read(Frame(m) + rest) == Reading([], Silent, Frame(m) + rest)
    ensures m != DEFAULT && !Fits(m) ==> Read(Frame(m) + rest) == Reading([], Malformed, Frame(m) + rest)
  {
    hide Parse, FromBigEndian, BigEndian, Varint;
    var all, body := Frame(m) + rest, Serialize(m);
    var header := BigEndian(|body|, HEADER_SIZE);
    EmptyIffDefault(m);
    ReadBackSize(|body|);
    assert all[..HEADER_SIZE] == header;
    assert all[HEADER_SIZE..HEADER_SIZE + |body|] == body;
    assert all[HEADER_SIZE + |body|..] == rest;
    ReadableIffFits(m);
  }

  /** The messages before the first that cannot be delivered. */
  function DeliverablePrefix(ms: seq<Message>): (k: nat)
    ensures k <= |ms|
    ensures forall i :: 0 <= i < k ==> Deliverable(ms[i])
    ensures k < |ms| ==> !Deliverable(ms[k])
  {
    if ms == [] || !Deliverable(ms[0]) then 0 else 1 + DeliverablePrefix(ms[1..])
  }

  predicate AllSendable(ms: seq<Message>) {
    forall i :: 0 <= i < |ms| ==> Sendable(ms[i])
  }

  predicate AllDeliverable(ms: seq<Message>) {
    forall i :: 0 <= i < |ms| ==> Deliverable(ms[i])
  }

  lemma {:induction false} ReadStream(ms: seq<Message>, rest: Bytes)
    requires AllSendable(ms) && AllDeliverable(ms)
    ensures Read(Stream(ms) + rest) == (var r := Read(rest); r.(messages := ms + r.messages))
    decreases ms
  {
    hide Frame, Read, Deliverable, Sendable;
    if ms == [] {
      assert Stream(ms) + rest == rest;
    } else {
      assert Stream(ms) + rest == Frame(ms[0]) + (Stream(ms[1..]) + rest);
      ReadFrame(ms[0], Stream(ms[1..]) + rest);
      ReadStream(ms[1..], rest);
    }
  }

  lemma StreamStep(ms: seq<Message>)
    ensures Stream(ms) == if ms == [] then [] else Frame(ms[0]) + Stream(ms[1..])
  {
  }

  lemma {:induction false} StreamAppend(a: seq<Message>, b: seq<Message>)
    ensures Stream(a + b) == Stream(a) + Stream(b)
  {
    hide Frame, Stream;
    StreamStep(a);
    if a == [] {
      assert a + b == b;
    } else {
      var ab := a + b;
      StreamStep(ab);
      assert ab[0] == a[0] && ab[1..] == a[1..] + b;
      StreamAppend(a[1..], b);
      assert Frame(a[0]) + (Stream(a[1..]) + Stream(b)) == Frame(a[0]) + Stream(a[1..]) + Stream(b);
    }
  }

  /** What a reader delivers of any list of messages: those before the first that is all defaults or
      too long, where it stops for good. */
  lemma ReadAnyStream(ms: seq<Message>)
    requires AllSendable(ms)
    ensures
      var r, k := Read(Stream(ms)), DeliverablePrefix(ms);
      && r.messages == ms[..k]
      && r.rest == Stream(ms[k..])
      && r.ending == if k == |ms| then Closed else if ms[k] == DEFAULT then Silent else Malformed
  {
    hide Frame, Stream, Read, Sendable, Deliverable, DeliverablePrefix;
    var k := DeliverablePrefix(ms);
    var good, others := ms[..k], ms[k..];
    assert ms == good + others;
    StreamAppend(good, others);
    ReadStream(good, Stream(others));
    ReadOnFrom(others);
  }

  lemma ReadOnFrom(ms: seq<Message>)
    requires AllSendable(ms)
    requires ms != [] ==> !Deliverable(ms[0])
    ensures Read(Stream(ms)) ==
      Reading([], if ms == [] then Closed else if ms[0] == DEFAULT then Silent else Malformed, Stream(ms))
  {
    hide Frame, Parse, Sendable;
    if ms != [] {
      ReadFrame(ms[0], Stream(ms[1..]));
    }
  }

  /** The round trip over a stream, exactly: a list of messages arrives whole and in order if and
      only if each of them is not all defaults and not too long. */
  lemma StreamRoundTrip(ms: seq<Message>)
    requires AllSendable(ms)
    ensures Read(Stream(ms)).messages == ms <==> AllDeliverable(ms)
    ensures AllDeliverable(ms) ==> Read(Stream(ms)) == Reading(ms, Closed, [])
  {
    hide Read, Sendable, Deliverable;
    ReadAnyStream(ms);
    var k := DeliverablePrefix(ms);
    if k == |ms| {
      assert ms[..k] == ms && ms[k..] == [];
    }
  }

  /** After a frame of length zero nothing is delivered any more, whatever follows it. */
  lemma StopsAtEmptyFrame(ms: seq<Message>, later: Bytes)
    requires AllSendable(ms) && AllDeliverable(ms)
    ensures Read(Stream(ms) + Frame(DEFAULT) + later).messages == ms
    ensures Read(Stream(ms) + Frame(DEFAULT) + later).ending == Silent
  {
    hide Read, Deliverable;
    ReadFrame(DEFAULT, later);
    ReadStream(ms, Frame(DEFAULT) + later);
    assert Stream(ms) + Frame(DEFAULT) + later == Stream(ms) + (Frame(DEFAULT) + later);
  }

  /** A stream that breaks off anywhere delivers a prefix of what was sent, and no whole frame is lost:
      what is left over is the beginning of the next frame. */
  lemma {:induction false} CutStream(ms: seq<Message>, cut: nat)
    requires AllSendable(ms) && AllDeliverable(ms)
    requires cut <= |Stream(ms)|
    ensures
      var r := Read(Stream(ms)[..cut]);
      && r.ending == Closed
      && r.messages <= ms
      && Stream(r.messages) + r.rest == Stream(ms)[..cut]
      && (|r.messages| < |ms| ==> |r.rest| < |Frame(ms[|r.messages|])|)
    decreases ms
  {
    hide Frame, Read, Fits, Sendable;
    if ms == [] {
      ReadNothing();
      assert Stream(ms)[..cut] == [];
    } else {
      var first, others := Frame(ms[0]), Stream(ms[1..]);
      if cut < |first| {
        assert Stream(ms)[..cut] == first[..cut];
        BrokenFrame(ms[0], first[..cut]);
      } else {
        var part := others[..cut - |first|];
        assert Stream(ms)[..cut] == first + part;
        ReadFrame(ms[0], part);
        CutStream(ms[1..], cut - |first|);
        StreamOfOneMore(ms[0], Read(part).messages, Read(part).rest);
      }
    }
  }

  lemma ReadNothing()
    ensures Read([]) == Reading([], Closed, [])
  {
  }

  lemma StreamOfOneMore(m: Message, ms: seq<Message>, rest: Bytes)
    ensures Stream([m] + ms) + rest == Frame(m) + (Stream(ms) + rest)
  {
    hide Frame;
    assert ([m] + ms)[1..] == ms;
  }

  lemma BrokenFrame(m: Message, part: Bytes)
    requires Sendable(m) && part <= Frame(m) && |part| < |Frame(m)|
    requires m != DEFAULT
    ensures Read(part) == Reading([], Closed, part)
  {
    hide Parse, FromBigEndian, BigEndian, Serialize;
    if |part| >= HEADER_SIZE {
      assert part[..HEADER_SIZE] == BigEndian(|Serialize(m)|, HEADER_SIZE);
      ReadBackSize(|Serialize(m)|);
    }
  }

  // ---- The client ----

  function Shifted(n: nat, bytes: nat): nat {
    if bytes == 0 then n else Shifted(n / 256, bytes - 1)
  }

  lemma {:induction false} BigEndianAt(n: nat, width: nat, i: nat)
    requires i < width
    ensures BigEndian(n, width)[width - 1 - i] == Shifted(n, i) % 256
  {
    if i > 0 {
      BigEndianAt(n / 256, width - 1, i - 1);
    }
  }

  /** The length of the body, lowest byte last. */
  method WriteHeader(buffer: array<byte>, bodySize: nat)
    requires buffer.Length >= HEADER_SIZE
    modifies buffer
    ensures buffer[..] == BigEndian(bodySize, HEADER_SIZE) + old(buffer[HEADER_SIZE..])
  {
    for i := 0 to 4
      invariant forall k :: 4 - i <= k < 4 ==> buffer[k] == BigEndian(bodySize, 4)[k]
      invariant buffer[HEADER_SIZE..] == old(buffer[HEADER_SIZE..])
    {
      BigEndianAt(bodySize, 4, i);
      buffer[3 - i] := Shifted(bodySize, i) % 256;
    }
  }

  class ChatClient {
    /** The bytes that have been written to the socket, and those it will give before it ends. */
    var sent: Bytes
    var incoming: Bytes
    var writeBuf: array<byte>
    var readBuf: array<byte>
    /** The messages handed on, and why reading stopped, once it has. */
    var received: seq<Message>
    var stopped: Option<Ending>

    constructor (incoming: Bytes)
      ensures this.incoming == incoming && sent == [] && received == [] && stopped == None
    {
      this.incoming, sent, received, stopped := incoming, [], [], None;
      writeBuf, readBuf := new byte[0], new byte[0];
    }

    /** One frame goes out, whatever the message is. */
    method AsyncWrite(message: ChatMessage)
      requires Sendable(message.Value())
      modifies this`sent, this`writeBuf
      ensures sent == old(sent) + Frame(message.Value())
    {
      ghost var m := message.Value();
      SerializeIsLonger(m);
      var size := message.ByteSizeLong();
      writeBuf := new byte[HEADER_SIZE + size];
      var end := message.InternalSerialize(writeBuf, HEADER_SIZE);
      assert writeBuf[..end] == writeBuf[..];
      assert writeBuf[..][HEADER_SIZE..] == Serialize(m);
      WriteHeader(writeBuf, writeBuf.Length - HEADER_SIZE);
      sent := sent + writeBuf[..];
    }

    /** Fill the read buffer from the socket, or find that the stream has ended. */
    method Fill() returns (ok: bool)
      modifies this`incoming, readBuf
      ensures ok == (|old(incoming)| >= readBuf.Length)
      ensures ok ==> readBuf[..] == old(incoming)[..readBuf.Length] && incoming == old(incoming)[readBuf.Length..]
    {
      if |incoming| < readBuf.Length {
        incoming := [];
        return false;
      }
      forall i | 0 <= i < readBuf.Length {
        readBuf[i] := incoming[i];
      }
      incoming := incoming[readBuf.Length..];
      ok := true;
    }

    /** From here to the end of reading: what is delivered and why it stops. */
    method ReadHeader()
      requires stopped == None
      modifies this`readBuf, this`incoming, this`received, this`stopped
      ensures received == old(received) + Read(old(incoming)).messages
      ensures stopped == Some(Read(old(incoming)).ending)
      decreases |incoming|
    {
      hide Parse, FromBigEndian;
      readBuf := new byte[HEADER_SIZE];
      var ok := Fill();
      if ok {
        var bodySize: nat := 0;
        assert readBuf[..] == old(incoming)[..HEADER_SIZE];
        ghost var header := readBuf[..];
        FromBigEndianStep(readBuf[..0]);
        for j := 0 to readBuf.Length
          modifies {}
          invariant readBuf[..] == header
          invariant bodySize == FromBigEndian(readBuf[..j])
        {
          bodySize := bodySize * 256 + readBuf[j];
          FromBigEndianStep(readBuf[..j + 1]);
          assert readBuf[..j + 1][..j] == readBuf[..j];
        }
        assert readBuf[..readBuf.Length] == readBuf[..];
        if bodySize > 0 {
          ReadBody(bodySize, old(incoming));
        } else {
          stopped := Some(Silent);
        }
      } else {
        stopped := Some(Closed);
      }
    }

    method ReadBody(bodySize: nat, ghost stream: Bytes)
      requires stopped == None && bodySize > 0
      requires |stream| >= HEADER_SIZE && bodySize == FromBigEndian(stream[..HEADER_SIZE])
      requires incoming == stream[HEADER_SIZE..]
      modifies this`readBuf, this`incoming, this`received, this`stopped
      ensures received == old(received) + Read(stream).messages
      ensures stopped == Some(Read(stream).ending)
      decreases |incoming|
    {
      hide Parse, FromBigEndian;
      readBuf := new byte[bodySize];
      var ok := Fill();
      if ok {
        assert readBuf[..] == stream[HEADER_SIZE..HEADER_SIZE + bodySize];
        assert incoming == stream[HEADER_SIZE + bodySize..];
        var message := new ChatMessage();
        var parsed := message.ParseFromArray(readBuf[..]);
        if parsed {
          received := received + [message.Value()];
          ReadHeader();
        } else {
          stopped := Some(Malformed);
        }
      } else {
        stopped := Some(Closed);
      }
    }
  }
}
