/** Length-prefixed packets over a byte stream, as OpenVPN runs over TCP. */
module Framing {
  import opened Bytes

  const MAX_PACKET: nat := 65_535

  datatype Error = TooLarge | EmptyFrame | EndOfStream

  /** What a read gets, and the part of the stream it leaves. */
  datatype Read = Got(packet: seq<byte>, rest: seq<byte>) | Refused(error: Error, rest: seq<byte>)

  function Frame(payload: seq<byte>): seq<byte>
    requires |payload| <= MAX_PACKET
  {
    U16(|payload|) + payload
  }

  /** Two bytes that say how many follow, the more significant first. */
  predicate IsFrame(frame: seq<byte>, payload: seq<byte>)
  {
    |frame| == 2 + |payload| && (frame[0] as int) * 256 + frame[1] == |payload| && frame[2..] == payload
  }

  lemma FrameIs(payload: seq<byte>)
    requires |payload| <= MAX_PACKET
    ensures IsFrame(Frame(payload), payload)
  {
    hide U16;
    U16BigEndian(|payload|);
  }

  /** Reading from `stream`, after which it ends. */
  function ReadFrame(stream: seq<byte>): Read
  {
    if |stream| < 2 then Refused(EndOfStream, [])
    else
      var size := FromU16(stream[..2]);
      if size == 0 then Refused(EmptyFrame, stream[2..])
      else if |stream| < 2 + size then Refused(EndOfStream, [])
      else Got(stream[2..2 + size], stream[2 + size..])
  }

  /** The two ends of a connection: what one has written and the other has not yet read. */
  class Connection {
    var bytes: seq<byte>

    constructor ()
      ensures bytes == []
    {
      bytes := [];
    }

    method WritePacket(payload: seq<byte>) returns (ok: bool)
      modifies this
      ensures ok <==> |payload| <= MAX_PACKET
      ensures bytes == old(bytes) + if ok then Frame(payload) else []
      ensures ok ==> IsFrame(bytes[|old(bytes)|..], payload)
    {
      if |payload| > MAX_PACKET {
        return false;
      }
      var frame := U16(|payload|);
      frame := frame + payload;
      bytes := bytes + frame;
      FrameIs(payload);
      return true;
    }

    method ReadPacket() returns (read: Read)
      modifies this
      ensures read == ReadFrame(old(bytes)) && bytes == read.rest
    {
      if |bytes| < 2 {
        bytes := [];
        return Refused(EndOfStream, []);
      }
      var length := bytes[..2];
      bytes := bytes[2..];
      var size := FromU16(length);
      if size == 0 {
        return Refused(EmptyFrame, bytes);
      }
      if |bytes| < size {
        bytes := [];
        return Refused(EndOfStream, []);
      }
      var payload := bytes[..size];
      bytes := bytes[size..];
      return Got(payload, bytes);
    }
  }

  /** A frame reads back exactly when it is not empty; the bytes after it are untouched either way. */
  lemma FrameReadsBack(payload: seq<byte>, rest: seq<byte>)
    requires |payload| <= MAX_PACKET
    ensures ReadFrame(Frame(payload) + rest)
         == if payload == [] then Refused(EmptyFrame, rest) else Got(payload, rest)
  {
    hide U16, FromU16;
    var stream := Frame(payload) + rest;
    U16RoundTrip(|payload|);
    assert stream[..2] == U16(|payload|);
    assert stream[2..] == payload + rest;
    assert stream[2..2 + |payload|] == payload && stream[2 + |payload|..] == rest;
  }

  function Frames(packets: seq<seq<byte>>): seq<byte>
    requires forall p :: p in packets ==> |p| <= MAX_PACKET
  {
    if packets == [] then []
    else
      assert packets[0] in packets;
      Frame(packets[0]) + Frames(packets[1..])
  }

  /** All packets read before the first refusal, which is also returned. */
  function ReadAll(stream: seq<byte>): (seq<seq<byte>>, Read)
    decreases |stream|
  {
    match ReadFrame(stream)
    case Got(packet, rest) =>
      var (packets, last) := ReadAll(rest);
      ([packet] + packets, last)
    case refused => ([], refused)
  }

  /** Any sequence of nonempty packets is read back identically, then the stream ends. */
  lemma {:induction false} PacketsReadBack(packets: seq<seq<byte>>)
    requires forall p :: p in packets ==> 1 <= |p| <= MAX_PACKET
    ensures ReadAll(Frames(packets)) == (packets, Refused(EndOfStream, []))
    decreases |packets|
  {
    hide Frame, ReadFrame;
    if packets == [] {
      NothingToRead();
    } else {
      assert packets[0] in packets;
      FrameReadsBack(packets[0], Frames(packets[1..]));
      PacketsReadBack(packets[1..]);
      assert [packets[0]] + packets[1..] == packets;
    }
  }

  lemma NothingToRead()
    ensures ReadAll([]) == ([], Refused(EndOfStream, []))
  {
  }

  /** A frame cut anywhere is refused. */
  lemma CutFrameRefused(payload: seq<byte>, n: nat)
    requires 1 <= |payload| <= MAX_PACKET && n < |Frame(payload)|
    ensures ReadFrame(Frame(payload)[..n]) == Refused(EndOfStream, [])
  {
    hide U16, FromU16;
    U16RoundTrip(|payload|);
    if n >= 2 { assert Frame(payload)[..n][..2] == U16(|payload|); }
  }
}
