/** OpenVPN packets: what the control and data channels put on the wire, and the parser. */
module Packets {
  import opened Bytes
  import opened Options

  const HARD_RESET_CLIENT_V2: byte := 7
  const HARD_RESET_SERVER_V2: byte := 8
  const CONTROL_V1: byte := 4
  const ACK_V1: byte := 5
  const DATA_V1: byte := 6
  const DATA_V2: byte := 9
  const SID_SIZE: nat := 8
  const MAX_ACKS: nat := 4

  type SessionId = s: seq<byte> | |s| == SID_SIZE witness seq(SID_SIZE, _ => 0)

  datatype Packet = Packet(opcode: byte, sessionId: seq<byte>, packetId: u32, header: seq<byte>, payload: seq<byte>)

  /** `Panics` stands for the slice past the end of an acknowledgement cut short. */
  datatype Parsed = Parsed(packet: Packet) | Rejected | Panics

  predicate IsData(opcode: byte)
  {
    opcode == DATA_V1 || opcode == DATA_V2
  }

  function ParseData(raw: seq<byte>, opcode: byte): Parsed
  {
    var n := if opcode == DATA_V2 then 8 else 5;
    if |raw| < n then Rejected
    else Parsed(Packet(opcode, [], 0, raw[..n], raw[n..]))
  }

  /** Where the packet id, or the end of an acknowledgement, is expected. */
  function AfterAcks(count: byte): nat
  {
    10 + (count as int) * 4 + if count > 0 then SID_SIZE else 0
  }

  function ParseControl(raw: seq<byte>, opcode: byte): Parsed
  {
    if |raw| < 10 || |raw| < 10 + (raw[9] as int) * 4 then Rejected
    else
      var offset := AfterAcks(raw[9]);
      if opcode == ACK_V1 then
        if offset > |raw| then Panics
        else Parsed(Packet(opcode, raw[1..9], 0, [], raw[offset..]))
      else if |raw| < offset + 4 then Rejected
      else Parsed(Packet(opcode, raw[1..9], FromU32(raw[offset..offset + 4]), [], raw[offset + 4..]))
  }

  function Parse(raw: seq<byte>): Parsed
  {
    if raw == [] then Rejected
    else
      var opcode := raw[0] / 8;
      if IsData(opcode) then ParseData(raw, opcode) else ParseControl(raw, opcode)
  }

  // ---------------------------------------------------------------- encoders

  function Ids(ids: seq<u32>): (bytes: seq<byte>)
    ensures |bytes| == 4 * |ids|
  {
    if ids == [] then [] else U32(ids[0]) + Ids(ids[1..])
  }

  /** An acknowledgement record: how many ids, the ids, and the peer's session id unless there are none. */
  function AckRecord(ids: seq<u32>, remote: SessionId): seq<byte>
    requires |ids| < 256
  {
    [|ids|] + Ids(ids) + if ids == [] then [] else remote
  }

  function EncodeAcks(acked: seq<u32>, remote: SessionId): seq<byte>
  {
    AckRecord(if |acked| < MAX_ACKS then acked else acked[..MAX_ACKS], remote)
  }

  /** Any packet with a packet id: resets and control messages, with any key id in the low bits. */
  function Message(opcode: byte, key: nat, sid: SessionId, acks: seq<byte>, id: u32, payload: seq<byte>): seq<byte>
    requires opcode < 32 && key < 8
  {
    [opcode * 8 + key] + sid + acks + U32(id) + payload
  }

  function ControlMessage(sid: SessionId, acked: seq<u32>, remote: SessionId, id: u32, payload: seq<byte>): seq<byte>
  {
    Message(CONTROL_V1, 0, sid, EncodeAcks(acked, remote), id, payload)
  }

  function AckMessage(sid: SessionId, acked: seq<u32>, remote: SessionId): seq<byte>
  {
    [ACK_V1 * 8] + sid + EncodeAcks(acked, remote)
  }

  function ResetMessage(sid: SessionId): seq<byte>
  {
    [HARD_RESET_CLIENT_V2 * 8] + sid + [0] + U32(0)
  }

  function DataHeader(aead: bool, key: nat, peer: u32): seq<byte>
  {
    if aead then [DATA_V2 * 8 + key % 8] + U32(peer)[1..4] else [DATA_V1 * 8 + key % 8]
  }

  function DataMessage(aead: bool, key: nat, peer: u32, counter: u32, body: seq<byte>): seq<byte>
  {
    DataHeader(aead, key, peer) + U32(counter) + body
  }

  // ---------------------------------------------------------------- round trips

  lemma MessageFields(head: byte, sid: SessionId, ids: seq<u32>, remote: SessionId, rest: seq<byte>)
    requires |ids| < 256
    ensures var raw := [head] + sid + AckRecord(ids, remote) + rest;
            var offset := AfterAcks(|ids|);
            && |raw| == offset + |rest| && raw[0] == head && raw[1..9] == sid && raw[9] == |ids|
            && raw[offset..] == rest
  {
    hide U32, Ids;
    var raw := [head] + sid + AckRecord(ids, remote) + rest;
    assert raw == ([head] + sid + AckRecord(ids, remote)) + rest;
    assert raw[9] == AckRecord(ids, remote)[0];
  }

  lemma MessageRoundTrip(
    opcode: byte, key: nat, sid: SessionId, ids: seq<u32>, remote: SessionId, id: u32, payload: seq<byte>)
    requires opcode < 32 && key < 8 && !IsData(opcode) && opcode != ACK_V1 && |ids| < 256
    ensures Parse(Message(opcode, key, sid, AckRecord(ids, remote), id, payload))
         == Parsed(Packet(opcode, sid, id, [], payload))
  {
    hide U32, AckRecord, FromU32;
    var rest := U32(id) + payload;
    var raw := Message(opcode, key, sid, AckRecord(ids, remote), id, payload);
    var offset := AfterAcks(|ids|);
    assert raw == [opcode * 8 + key] + sid + AckRecord(ids, remote) + rest;
    MessageFields(opcode * 8 + key, sid, ids, remote, rest);
    U32RoundTrip(id);
    assert raw[offset..offset + 4] == rest[..4] == U32(id);
    assert raw[offset + 4..] == rest[4..] == payload;
  }

  lemma ControlRoundTrip(sid: SessionId, acked: seq<u32>, remote: SessionId, id: u32, payload: seq<byte>)
    ensures Parse(ControlMessage(sid, acked, remote, id, payload)) == Parsed(Packet(CONTROL_V1, sid, id, [], payload))
  {
    hide Parse, AckRecord, Message;
    MessageRoundTrip(CONTROL_V1, 0, sid, if |acked| < MAX_ACKS then acked else acked[..MAX_ACKS], remote, id, payload);
  }

  lemma ResetRoundTrip(sid: SessionId)
    ensures Parse(ResetMessage(sid)) == Parsed(Packet(HARD_RESET_CLIENT_V2, sid, 0, [], []))
  {
    hide Parse, U32;
    MessageRoundTrip(HARD_RESET_CLIENT_V2, 0, sid, [], sid, 0, []);
    assert AckRecord([], sid) == [0];
    assert ResetMessage(sid) == Message(HARD_RESET_CLIENT_V2, 0, sid, [0], 0, []);
  }

  lemma AckRoundTrip(sid: SessionId, acked: seq<u32>, remote: SessionId)
    ensures Parse(AckMessage(sid, acked, remote)) == Parsed(Packet(ACK_V1, sid, 0, [], []))
  {
    hide U32, AckRecord, FromU32;
    var ids := if |acked| < MAX_ACKS then acked else acked[..MAX_ACKS];
    var raw := AckMessage(sid, acked, remote);
    MessageFields(ACK_V1 * 8, sid, ids, remote, []);
    assert raw == raw + [];
  }

  lemma DataRoundTrip(aead: bool, key: nat, peer: u32, counter: u32, body: seq<byte>)
    ensures Parse(DataMessage(aead, key, peer, counter, body))
         == Parsed(Packet(if aead then DATA_V2 else DATA_V1, [], 0, DataHeader(aead, key, peer) + U32(counter), body))
  {
    hide U32;
    var header := DataHeader(aead, key, peer) + U32(counter);
    var raw := DataMessage(aead, key, peer, counter, body);
    assert raw == header + body;
    assert raw[..|header|] == header && raw[|header|..] == body;
  }

  /** The header carries the low 24 bits of the peer id. */
  lemma DataHeaderPeer(key: nat, peer: u32)
    ensures FromU32([0] + DataHeader(true, key, peer)[1..]) == peer % 0x100_0000
  {
    hide U32, Word;
    var b := U32(peer);
    assert DataHeader(true, key, peer)[1..] == b[1..4];
    assert [0] + b[1..4] == [0, b[1], b[2], b[3]];
    U32RoundTrip(peer);
    WordLow(b[0], b[1], b[2], b[3]);
    LowWord(peer, b[0], Word(0, b[1], b[2], b[3]));
  }

  // ---------------------------------------------------------------- the bytes on the wire

  /** The word at a place, most significant byte first. */
  function WordAt(raw: seq<byte>, at: nat): u32
    requires at + 4 <= |raw|
  {
    (raw[at] as int) * 0x100_0000 + (raw[at + 1] as int) * 0x1_0000 + (raw[at + 2] as int) * 0x100 + raw[at + 3]
  }

  /** The ids that a packet acknowledges, and the session they belong to if there are any. */
  datatype Acks = Acks(ids: seq<u32>, remote: seq<byte>)

  function ReadIds(raw: seq<byte>, at: nat, count: nat): (ids: seq<u32>)
    requires at + 4 * count <= |raw|
    ensures |ids| == count && forall k :: 0 <= k < count ==> ids[k] == WordAt(raw, at + 4 * k)
  {
    seq(count, k requires 0 <= k < count => WordAt(raw, at + 4 * k))
  }

  /** A count after opcode and session id, so many words, and the peer's session id unless the count is zero. */
  function ReadAcks(raw: seq<byte>): Option<Acks>
  {
    if |raw| < 10 then None
    else if raw[9] == 0 then Some(Acks([], []))
    else
      var end := 10 + 4 * (raw[9] as int);
      if |raw| < end + 8 then None else Some(Acks(ReadIds(raw, 10, raw[9]), raw[end..end + 8]))
  }

  predicate Acknowledges(raw: seq<byte>, id: u32, remote: SessionId)
  {
    ReadAcks(raw).Some? && id in ReadAcks(raw).value.ids && ReadAcks(raw).value.remote == remote
  }

  /** Opcode 4 or 5 above three zero bits, the sender's session id, and at most the first four ids of the list. */
  predicate Headed(raw: seq<byte>, opcode: byte, sid: SessionId, acked: seq<u32>, remote: SessionId)
  {
    && |raw| >= 10 && raw[0] as int == opcode * 8 && raw[1..9] == sid
    && ReadAcks(raw) == Some(if acked == [] then Acks([], [])
                             else if |acked| < 4 then Acks(acked, remote) else Acks(acked[..4], remote))
  }

  predicate IsControl(
    raw: seq<byte>, sid: SessionId, acked: seq<u32>, remote: SessionId, id: u32, payload: seq<byte>)
  {
    var at := |raw| - |payload|;
    && Headed(raw, 4, sid, acked, remote)
    && at == 14 + 4 * (raw[9] as int) + (if raw[9] == 0 then 0 else 8)
    && WordAt(raw, at - 4) == id && raw[at..] == payload
  }

  predicate IsAck(raw: seq<byte>, sid: SessionId, acked: seq<u32>, remote: SessionId)
  {
    Headed(raw, 5, sid, acked, remote) && |raw| == 10 + 4 * (raw[9] as int) + (if raw[9] == 0 then 0 else 8)
  }

  lemma WordAtIs(before: seq<byte>, id: u32, after: seq<byte>)
    ensures WordAt(before + U32(id) + after, |before|) == id
  {
    var b := U32(id);
    BigEndian(id, b);
    hide U32, FromU32;
    var raw := before + b + after;
    assert raw[|before|] == b[0] && raw[|before| + 1] == b[1] && raw[|before| + 2] == b[2] && raw[|before| + 3] == b[3];
  }

  lemma WordAtShifts(raw: seq<byte>, more: seq<byte>, at: nat)
    requires at + 4 <= |raw|
    ensures WordAt(raw + more, at) == WordAt(raw, at)
  {
  }

  lemma {:induction false} IdsReadBack(before: seq<byte>, ids: seq<u32>, after: seq<byte>)
    ensures ReadIds(before + Ids(ids) + after, |before|, |ids|) == ids
    decreases |ids|
  {
    hide U32, WordAt;
    var raw := before + Ids(ids) + after;
    if ids != [] {
      var first, more := before + U32(ids[0]), ids[1..];
      var rest := Ids(more) + after;
      assert raw == first + Ids(more) + after;
      assert raw == before + U32(ids[0]) + rest;
      WordAtIs(before, ids[0], rest);
      IdsReadBack(first, more, after);
      IdsFollow(raw, |before|, ids[0], more);
    }
  }

  lemma IdsFollow(raw: seq<byte>, at: nat, id: u32, more: seq<u32>)
    requires at + 4 + 4 * |more| <= |raw|
    requires WordAt(raw, at) == id && ReadIds(raw, at + 4, |more|) == more
    ensures ReadIds(raw, at, |more| + 1) == [id] + more
  {
    hide WordAt;
    var ids := ReadIds(raw, at, |more| + 1);
    forall k | 0 < k < |ids|
      ensures ids[k] == more[k - 1]
    {
      assert at + 4 * k == at + 4 + 4 * (k - 1);
      assert ReadIds(raw, at + 4, |more|)[k - 1] == WordAt(raw, at + 4 + 4 * (k - 1));
    }
  }

  /** The record of every packet reads back as the ids and the session it was made from. */
  lemma AcksReadBack(head: byte, sid: SessionId, ids: seq<u32>, remote: SessionId, rest: seq<byte>)
    requires |ids| < 256
    ensures ReadAcks([head] + sid + AckRecord(ids, remote) + rest) == Some(Acks(ids, if ids == [] then [] else remote))
  {
    hide Ids, ReadIds;
    MessageFields(head, sid, ids, remote, rest);
    var raw := [head] + sid + AckRecord(ids, remote) + rest;
    if ids != [] {
      var before, end := [head] + sid + [|ids|], 10 + 4 * |ids|;
      assert raw == before + Ids(ids) + (remote + rest);
      IdsReadBack(before, ids, remote + rest);
      assert raw[end..end + 8] == remote;
    }
  }

  /** At most four ids are sent, from the front of the list. */
  lemma EncodeAcksIs(acked: seq<u32>, remote: SessionId) returns (ids: seq<u32>)
    ensures |ids| < 256 && EncodeAcks(acked, remote) == AckRecord(ids, remote)
    ensures ids == if |acked| < 4 then acked else acked[..4]
  {
    ids := if |acked| < MAX_ACKS then acked else acked[..MAX_ACKS];
    assert |acked| == MAX_ACKS ==> acked[..MAX_ACKS] == acked;
  }

  lemma ControlLayout(sid: SessionId, acked: seq<u32>, remote: SessionId, id: u32, payload: seq<byte>)
    ensures IsControl(ControlMessage(sid, acked, remote, id, payload), sid, acked, remote, id, payload)
  {
    hide U32, AckRecord, EncodeAcks, WordAt, ReadAcks;
    var ids := EncodeAcksIs(acked, remote);
    var front, rest := [CONTROL_V1 * 8] + sid + AckRecord(ids, remote), U32(id) + payload;
    var raw := ControlMessage(sid, acked, remote, id, payload);
    assert raw == front + rest && raw == front + U32(id) + payload;
    AcksReadBack(CONTROL_V1 * 8, sid, ids, remote, rest);
    MessageFields(CONTROL_V1 * 8, sid, ids, remote, rest);
    WordAtIs(front, id, payload);
  }

  lemma AckLayout(sid: SessionId, acked: seq<u32>, remote: SessionId)
    ensures IsAck(AckMessage(sid, acked, remote), sid, acked, remote)
  {
    hide AckRecord, EncodeAcks, ReadAcks;
    var ids := EncodeAcksIs(acked, remote);
    var raw := AckMessage(sid, acked, remote);
    assert raw == [ACK_V1 * 8] + sid + AckRecord(ids, remote) + [];
    AcksReadBack(ACK_V1 * 8, sid, ids, remote, []);
    MessageFields(ACK_V1 * 8, sid, ids, remote, []);
  }

  lemma ResetLayout(sid: SessionId)
    ensures ResetMessage(sid) == [56] + sid + [0, 0, 0, 0, 0]
  {
    hide U32, FromU32;
    BigEndian(0, [0, 0, 0, 0]);
    assert [0] + U32(0) == [0, 0, 0, 0, 0];
  }

  /** Opcode 9 with three bytes of the peer id, or opcode 6 without; then the counter and the body. */
  lemma DataLayout(aead: bool, key: nat, peer: u32, counter: u32, body: seq<byte>)
    ensures var raw, at := DataMessage(aead, key, peer, counter, body), if aead then 4 else 1;
            && |raw| == at + 4 + |body| && WordAt(raw, at) == counter && raw[at + 4..] == body
            && raw[0] as int == (if aead then 72 else 48) + key % 8
            && (aead ==> (raw[1] as int) * 0x1_0000 + (raw[2] as int) * 0x100 + raw[3] == peer % 0x100_0000)
  {
    var header, b := DataHeader(aead, key, peer), U32(peer);
    BigEndian(peer, b);
    LowWord(peer, b[0], (b[1] as int) * 0x1_0000 + (b[2] as int) * 0x100 + b[3]);
    hide U32, FromU32, WordAt;
    WordAtIs(header, counter, body);
    assert aead ==> header[1] == b[1] && header[2] == b[2] && header[3] == b[3];
  }

  /** The parser fails only on an acknowledgement cut inside the peer's session id. */
  lemma PanicsIff(raw: seq<byte>)
    ensures Parse(raw) == Panics
       <==> && |raw| >= 10 && raw[0] / 8 == ACK_V1 && raw[9] > 0
            && 10 + raw[9] * 4 <= |raw| < 10 + raw[9] * 4 + SID_SIZE
  {
    hide FromU32;
  }

  // ---------------------------------------------------------------- acknowledgements to send

  function RecordAck(acked: seq<u32>, id: u32): seq<u32>
  {
    if id in acked then acked
    else if |acked| < MAX_ACKS then [id] + acked
    else [id] + acked[..MAX_ACKS - 1]
  }

  predicate AcksOk(acked: seq<u32>)
  {
    |acked| <= MAX_ACKS && forall i, j :: 0 <= i < j < |acked| ==> acked[i] != acked[j]
  }

  function RecordAcks(acked: seq<u32>, ids: seq<u32>): seq<u32>
  {
    if ids == [] then acked else RecordAck(RecordAcks(acked, ids[..|ids| - 1]), ids[|ids| - 1])
  }

  /** Over any run the list stays short and free of duplicates, and holds the id just received. */
  lemma {:induction false} AcksStayOk(acked: seq<u32>, ids: seq<u32>)
    requires AcksOk(acked)
    ensures AcksOk(RecordAcks(acked, ids))
    ensures ids != [] ==> ids[|ids| - 1] in RecordAcks(acked, ids)
    ensures forall id :: id in RecordAcks(acked, ids) ==> id in acked || id in ids
  {
    if ids != [] { AcksStayOk(acked, ids[..|ids| - 1]); }
  }

  /** An id on the list moves back by at most one place for each that is recorded. */
  lemma {:induction false} AckStays(acked: seq<u32>, place: nat, ids: seq<u32>) returns (now: nat)
    requires AcksOk(acked) && place < |acked| && place + |ids| < MAX_ACKS
    ensures now <= place + |ids| && now < |RecordAcks(acked, ids)| && RecordAcks(acked, ids)[now] == acked[place]
  {
    if ids == [] {
      now := place;
    } else {
      var n := |ids| - 1;
      AcksStayOk(acked, ids[..n]);
      now := AckStays(acked, place, ids[..n]);
      if ids[n] !in RecordAcks(acked, ids[..n]) { now := now + 1; }
    }
  }

  /** An id that was not on the list when it was recorded is still on it when three more have been. */
  lemma NewIdStays(acked: seq<u32>, id: u32, ids: seq<u32>)
    requires AcksOk(acked) && id !in acked && |ids| < MAX_ACKS
    ensures id in RecordAcks(RecordAck(acked, id), ids)
  {
    assert RecordAck(acked, id)[0] == id;
    var now := AckStays(RecordAck(acked, id), 0, ids);
  }
}
