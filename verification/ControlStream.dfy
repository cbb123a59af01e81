/** The control channel end to end: a byte stream cut, numbered, sent, parsed and put back together. */
module ControlStream {
  import opened Bytes
  import opened Packets
  import Reorder

  const MAX_CONTROL_PAYLOAD: nat := 1184

  function Chunks(data: seq<byte>): seq<seq<byte>>
  {
    if data == [] then []
    else if |data| <= MAX_CONTROL_PAYLOAD then [data]
    else [data[..MAX_CONTROL_PAYLOAD]] + Chunks(data[MAX_CONTROL_PAYLOAD..])
  }

  /** Cutting keeps the stream, leaves no empty packet, and fills every packet but the last. */
  lemma {:induction false} ChunksRejoin(data: seq<byte>)
    ensures var chunks := Chunks(data);
            && Flatten(chunks) == data
            && (forall k :: 0 <= k < |chunks| ==> 1 <= |chunks[k]| <= MAX_CONTROL_PAYLOAD)
            && (forall k :: 0 <= k < |chunks| - 1 ==> |chunks[k]| == MAX_CONTROL_PAYLOAD)
  {
    if data != [] {
      if |data| <= MAX_CONTROL_PAYLOAD {
        assert Flatten([data]) == data + Flatten([]);
      } else {
        ChunksRejoin(data[MAX_CONTROL_PAYLOAD..]);
        assert Chunks(data)[1..] == Chunks(data[MAX_CONTROL_PAYLOAD..]);
      }
    }
  }

  // ---------------------------------------------------------------- the sending end

  /** What sending reads and changes, and the packets sent. */
  datatype Sender = Sender(sid: SessionId, remote: SessionId, nextId: u32, acked: seq<u32>, wire: seq<seq<byte>>)

  function SendControl(s: Sender, payload: seq<byte>): Sender
  {
    s.(nextId := Reorder.Successor(s.nextId),
       wire := s.wire + [ControlMessage(s.sid, s.acked, s.remote, s.nextId, payload)])
  }

  function SendEach(s: Sender, payloads: seq<seq<byte>>): Sender
    decreases |payloads|
  {
    if payloads == [] then s else SendEach(SendControl(s, payloads[0]), payloads[1..])
  }

  function SendAck(s: Sender, id: u32): Sender
  {
    var acked := RecordAck(s.acked, id);
    s.(acked := acked, wire := s.wire + [AckMessage(s.sid, acked, s.remote)])
  }

  /** TLS output to send, a packet from the peer to acknowledge, or some other packet to send. */
  datatype Op = Flush(data: seq<byte>) | Ack(id: u32) | Post(raw: seq<byte>)

  function Perform(s: Sender, op: Op): Sender
  {
    match op
    case Flush(data) => SendEach(s, Chunks(data))
    case Ack(id) => SendAck(s, id)
    case Post(raw) => s.(wire := s.wire + [raw])
  }

  function RunSender(s: Sender, ops: seq<Op>): Sender
  {
    if ops == [] then s else Perform(RunSender(s, ops[..|ops| - 1]), ops[|ops| - 1])
  }

  /** The chunks and the bytes that a run sends. */
  function ChunksOf(op: Op): seq<seq<byte>>
  {
    match op
    case Flush(data) => Chunks(data)
    case _ => []
  }

  function AllChunks(ops: seq<Op>): seq<seq<byte>>
  {
    if ops == [] then [] else AllChunks(ops[..|ops| - 1]) + ChunksOf(ops[|ops| - 1])
  }

  function AllData(ops: seq<Op>): seq<byte>
  {
    if ops == [] then []
    else AllData(ops[..|ops| - 1]) + DataOf(ops[|ops| - 1])
  }

  function DataOf(op: Op): seq<byte>
  {
    match op
    case Flush(data) => data
    case _ => []
  }

  lemma {:induction false} AllChunksRejoin(ops: seq<Op>)
    ensures Flatten(AllChunks(ops)) == AllData(ops)
  {
    if ops != [] {
      var n := |ops| - 1;
      AllChunksRejoin(ops[..n]);
      FlattenConcat(AllChunks(ops[..n]), ChunksOf(ops[n]));
      match ops[n]
      case Flush(data) => ChunksRejoin(data);
      case _ =>
    }
  }

  // ---------------------------------------------------------------- what is acknowledged

  /** The last packet on the wire acknowledges this id. */
  predicate LastAcknowledges(s: Sender, id: u32)
  {
    s.wire != [] && Acknowledges(s.wire[|s.wire| - 1], id, s.remote)
  }

  lemma AckSent(s: Sender, id: u32)
    requires AcksOk(s.acked)
    ensures LastAcknowledges(SendAck(s, id), id)
  {
    hide AckMessage, ReadAcks;
    var acked := RecordAck(s.acked, id);
    AckLayout(s.sid, acked, s.remote);
    assert |acked| < 4 || acked[..4] == acked;
  }

  /** A sender goes on from another: what was sent stays sent, and its list is in order if the other's was. */
  predicate GoesOn(s: Sender, s': Sender)
  {
    s.wire <= s'.wire && s.sid == s'.sid && s.remote == s'.remote && (AcksOk(s.acked) ==> AcksOk(s'.acked))
  }

  lemma {:induction false} SendEachGoesOn(s: Sender, payloads: seq<seq<byte>>)
    ensures GoesOn(s, SendEach(s, payloads))
    decreases |payloads|
  {
    hide ControlMessage, AcksOk;
    if payloads != [] { SendEachGoesOn(SendControl(s, payloads[0]), payloads[1..]); }
  }

  lemma PerformGoesOn(s: Sender, op: Op)
    ensures GoesOn(s, Perform(s, op))
  {
    hide Chunks, SendEach, AckMessage;
    if op.Flush? { SendEachGoesOn(s, Chunks(op.data)); }
  }

  lemma {:induction false} RunGoesOn(s: Sender, ops: seq<Op>, k: nat)
    requires k <= |ops|
    ensures GoesOn(RunSender(s, ops[..k]), RunSender(s, ops))
    decreases |ops|
  {
    hide Perform, AcksOk;
    if k == |ops| {
      assert ops[..k] == ops;
    } else {
      var n := |ops| - 1;
      RunGoesOn(s, ops[..n], k);
      assert ops[..n][..k] == ops[..k];
      PerformGoesOn(RunSender(s, ops[..n]), ops[n]);
    }
  }

  /** In every run, for each packet received, one goes out at once that names its id to the peer. */
  lemma EveryPacketAcknowledged(s: Sender, ops: seq<Op>, k: nat)
    requires AcksOk(s.acked) && k < |ops| && ops[k].Ack?
    ensures var n, wire := |RunSender(s, ops[..k]).wire|, RunSender(s, ops).wire;
            n < |wire| && Acknowledges(wire[n], ops[k].id, s.remote)
  {
    hide Perform, AcksOk, Acknowledges, LastAcknowledges;
    var before := RunSender(s, ops[..k]);
    RunGoesOn(s, ops[..k], 0);
    RunGoesOn(s, ops, k + 1);
    assert ops[..k][..0] == [] && ops[..k + 1][..k] == ops[..k];
    AckSent(before, ops[k].id);
    AckIsLast(before, ops[k].id);
  }

  lemma AckIsLast(s: Sender, id: u32)
    requires LastAcknowledges(SendAck(s, id), id)
    ensures var after := Perform(s, Ack(id));
            |after.wire| == |s.wire| + 1 && Acknowledges(after.wire[|s.wire|], id, s.remote)
  {
  }

  // ---------------------------------------------------------------- the receiving end

  /** What the reorder buffer sees of a packet: nothing unless it is a control message. */
  function Hear(raw: seq<byte>): seq<Reorder.Arrival>
  {
    match Parse(raw)
    case Parsed(p) => if p.opcode == CONTROL_V1 then [Reorder.Arrival(p.packetId, p.payload)] else []
    case Rejected => []
    case Panics => []
  }

  function HearAll(raws: seq<seq<byte>>): seq<Reorder.Arrival>
  {
    if raws == [] then [] else HearAll(raws[..|raws| - 1]) + Hear(raws[|raws| - 1])
  }

  function Receive(r: Reorder.Receiver, raw: seq<byte>): Reorder.Receiver
  {
    match Parse(raw)
    case Parsed(p) => if p.opcode == CONTROL_V1 then Reorder.Accept(r, Reorder.Arrival(p.packetId, p.payload)) else r
    case Rejected => r
    case Panics => r
  }

  function ReceiveAll(start: u32, raws: seq<seq<byte>>): Reorder.Receiver
  {
    if raws == [] then Reorder.Opened(start)
    else Receive(ReceiveAll(start, raws[..|raws| - 1]), raws[|raws| - 1])
  }

  lemma {:induction false} ReceiveHears(start: u32, raws: seq<seq<byte>>)
    ensures ReceiveAll(start, raws) == Reorder.Run(start, HearAll(raws))
  {
    hide Parse, Reorder.Accept;
    if raws != [] {
      var n := |raws| - 1;
      ReceiveHears(start, raws[..n]);
      var heard := HearAll(raws);
      if Hear(raws[n]) == [] {
        assert heard == HearAll(raws[..n]);
      } else {
        assert heard[..|heard| - 1] == HearAll(raws[..n]);
      }
    }
  }

  // ---------------------------------------------------------------- what is on the wire

  /** Some other packet: one that the receiver reads and that is not a control message. */
  predicate Other(raw: seq<byte>)
  {
    !Parse(raw).Panics? && Hear(raw) == []
  }

  /** The other packets that a run sends are no control messages. */
  predicate PostsOthers(ops: seq<Op>)
  {
    forall k :: 0 <= k < |ops| ==> ops[k].Post? ==> Other(ops[k].raw)
  }

  function Numbered(start: nat, chunks: seq<seq<byte>>): (arrivals: seq<Reorder.Arrival>)
    requires start + |chunks| <= Reorder.LAST_ID
    ensures |arrivals| == |chunks|
    ensures forall k :: 0 <= k < |chunks| ==> arrivals[k] == Reorder.Arrival(start + k, chunks[k])
  {
    seq(|chunks|, k requires 0 <= k < |chunks| => Reorder.Arrival(start + k, chunks[k]))
  }

  lemma HearPush(wire: seq<seq<byte>>, raw: seq<byte>)
    ensures HearAll(wire + [raw]) == HearAll(wire) + Hear(raw)
  {
    assert (wire + [raw])[..|wire|] == wire;
  }

  /** The parser finds the consecutive numbers from the start, each on its chunk. */
  ghost predicate Carries(start: u32, chunks: seq<seq<byte>>, s: Sender)
  {
    && start + |chunks| <= Reorder.LAST_ID
    && s.nextId == start + |chunks|
    && HearAll(s.wire) == Numbered(start, chunks)
  }

  lemma SendControlCarries(start: u32, chunks: seq<seq<byte>>, s: Sender, payload: seq<byte>)
    requires Carries(start, chunks, s) && start + |chunks| + 1 <= Reorder.LAST_ID
    ensures Carries(start, chunks + [payload], SendControl(s, payload))
  {
    hide Parse, ControlMessage, HearAll;
    ControlRoundTrip(s.sid, s.acked, s.remote, s.nextId, payload);
    HearPush(s.wire, ControlMessage(s.sid, s.acked, s.remote, s.nextId, payload));
  }

  lemma SendAckCarries(start: u32, chunks: seq<seq<byte>>, s: Sender, id: u32)
    requires Carries(start, chunks, s)
    ensures Carries(start, chunks, SendAck(s, id))
  {
    hide Parse, AckMessage, HearAll, RecordAck;
    var acked := RecordAck(s.acked, id);
    AckRoundTrip(s.sid, acked, s.remote);
    HearPush(s.wire, AckMessage(s.sid, acked, s.remote));
  }

  lemma PostCarries(start: u32, chunks: seq<seq<byte>>, s: Sender, raw: seq<byte>)
    requires Carries(start, chunks, s) && Other(raw)
    ensures Carries(start, chunks, s.(wire := s.wire + [raw]))
  {
    hide Hear, HearAll;
    HearPush(s.wire, raw);
  }

  lemma {:induction false} SendEachCarries(start: u32, chunks: seq<seq<byte>>, s: Sender, payloads: seq<seq<byte>>)
    requires Carries(start, chunks, s) && start + |chunks| + |payloads| <= Reorder.LAST_ID
    ensures Carries(start, chunks + payloads, SendEach(s, payloads))
    decreases |payloads|
  {
    hide Carries, SendControl;
    if payloads == [] {
      assert chunks + payloads == chunks;
    } else {
      SendControlCarries(start, chunks, s, payloads[0]);
      SendEachCarries(start, chunks + [payloads[0]], SendControl(s, payloads[0]), payloads[1..]);
      assert chunks + [payloads[0]] + payloads[1..] == chunks + payloads;
    }
  }

  lemma {:induction false} RunSenderCarries(s: Sender, ops: seq<Op>)
    requires s.wire == [] && s.nextId + |AllChunks(ops)| <= Reorder.LAST_ID && PostsOthers(ops)
    ensures Carries(s.nextId, AllChunks(ops), RunSender(s, ops))
  {
    if ops != [] {
      hide Carries, SendEach, SendAck, Chunks;
      var n := |ops| - 1;
      RunSenderCarries(s, ops[..n]);
      var before := RunSender(s, ops[..n]);
      match ops[n]
      case Flush(data) => SendEachCarries(s.nextId, AllChunks(ops[..n]), before, Chunks(data));
      case Ack(id) =>
        SendAckCarries(s.nextId, AllChunks(ops[..n]), before, id);
        assert AllChunks(ops) == AllChunks(ops[..n]);
      case Post(raw) =>
        PostCarries(s.nextId, AllChunks(ops[..n]), before, raw);
        assert AllChunks(ops) == AllChunks(ops[..n]);
    }
  }

  // ---------------------------------------------------------------- the network

  /** Each control message arrives at most 32 ids past the one then expected. */
  predicate Windowed(start: u32, raws: seq<seq<byte>>)
  {
    raws == [] ||
    var n := |raws| - 1;
    && Windowed(start, raws[..n])
    && (Hear(raws[n]) != [] ==> Hear(raws[n])[0].id <= ReceiveAll(start, raws[..n]).next + Reorder.MAX_BUFFERED)
  }

  function IdsOf(arrivals: seq<Reorder.Arrival>): (ids: seq<u32>)
    ensures |ids| == |arrivals| && forall k :: 0 <= k < |ids| ==> ids[k] == arrivals[k].id
  {
    seq(|arrivals|, k requires 0 <= k < |arrivals| => arrivals[k].id)
  }

  function Contents(start: u32, chunks: seq<seq<byte>>): Reorder.Content
  {
    (id: u32) => if start <= id < start + |chunks| then chunks[id - start] else []
  }

  predicate Sent(start: u32, chunks: seq<seq<byte>>, a: Reorder.Arrival)
  {
    start <= a.id < start + |chunks| && a.payload == chunks[a.id - start]
  }

  /** Everything heard was sent. */
  ghost predicate Genuine(start: u32, chunks: seq<seq<byte>>, arrivals: seq<Reorder.Arrival>)
  {
    forall k :: 0 <= k < |arrivals| ==> Sent(start, chunks, arrivals[k])
  }

  lemma {:induction false} HeardFrom(raws: seq<seq<byte>>, a: Reorder.Arrival)
    requires a in HearAll(raws)
    ensures exists i :: 0 <= i < |raws| && Hear(raws[i]) == [a]
  {
    hide Hear, Parse;
    var n := |raws| - 1;
    if a in Hear(raws[n]) {
      HearOne(raws[n]);
    } else {
      HeardFrom(raws[..n], a);
      var i :| 0 <= i < n && Hear(raws[..n][i]) == [a];
      assert Hear(raws[i]) == [a];
    }
  }

  lemma HearOne(raw: seq<byte>)
    ensures |Hear(raw)| <= 1
  {
    hide Parse;
  }

  lemma {:induction false} HeardIfIn(raws: seq<seq<byte>>, raw: seq<byte>)
    requires raw in raws
    ensures forall a :: a in Hear(raw) ==> a in HearAll(raws)
  {
    hide Hear;
    var n := |raws| - 1;
    if raw != raws[n] { HeardIfIn(raws[..n], raw); }
  }

  lemma HeardWasSent(start: u32, chunks: seq<seq<byte>>, s: Sender, raws: seq<seq<byte>>, a: Reorder.Arrival)
    requires Carries(start, chunks, s) && a in HearAll(raws)
    requires forall i :: 0 <= i < |raws| ==> raws[i] in s.wire || Other(raws[i])
    ensures Sent(start, chunks, a)
  {
    hide Hear, HearAll;
    HeardFrom(raws, a);
    var i :| 0 <= i < |raws| && Hear(raws[i]) == [a];
    HeardIfIn(s.wire, raws[i]);
    assert a in Hear(raws[i]);
    assert a in Numbered(start, chunks);
  }

  lemma ArrivalsGenuine(start: u32, chunks: seq<seq<byte>>, s: Sender, raws: seq<seq<byte>>)
    requires Carries(start, chunks, s)
    requires forall i :: 0 <= i < |raws| ==> raws[i] in s.wire || Other(raws[i])
    ensures Genuine(start, chunks, HearAll(raws))
  {
    hide Hear, HearAll, Carries, Sent, Other;
    var heard := HearAll(raws);
    forall k | 0 <= k < |heard|
      ensures Sent(start, chunks, heard[k])
    {
      HeardWasSent(start, chunks, s, raws, heard[k]);
    }
  }

  lemma GenuinePackets(start: u32, chunks: seq<seq<byte>>, arrivals: seq<Reorder.Arrival>)
    requires Genuine(start, chunks, arrivals)
    ensures Reorder.Packets(Contents(start, chunks), IdsOf(arrivals)) == arrivals
  {
  }

  lemma {:induction false} WindowedIds(start: u32, chunks: seq<seq<byte>>, raws: seq<seq<byte>>)
    requires Genuine(start, chunks, HearAll(raws)) && Windowed(start, raws)
    ensures Reorder.InWindow(start, Contents(start, chunks), IdsOf(HearAll(raws)))
  {
    if raws != [] {
      hide Hear, Parse, Receive, Reorder.Run, Reorder.InWindow, Contents, Sent;
      var n := |raws| - 1;
      var front, heard := HearAll(raws[..n]), HearAll(raws);
      HearOne(raws[n]);
      assert heard[..|front|] == front;
      assert Genuine(start, chunks, front) by {
        forall k | 0 <= k < |front| ensures front[k] == heard[k] { }
      }
      WindowedIds(start, chunks, raws[..n]);
      ReceiveHears(start, raws[..n]);
      if Hear(raws[n]) == [] {
        assert heard == front;
      } else {
        assert heard == front + [Hear(raws[n])[0]];
        WindowedOneMore(start, chunks, front, Hear(raws[n])[0]);
      }
    }
  }

  lemma WindowedOneMore(start: u32, chunks: seq<seq<byte>>, front: seq<Reorder.Arrival>, a: Reorder.Arrival)
    requires Genuine(start, chunks, front + [a])
    requires Reorder.InWindow(start, Contents(start, chunks), IdsOf(front))
    requires a.id <= Reorder.Run(start, front).next + Reorder.MAX_BUFFERED
    ensures Reorder.InWindow(start, Contents(start, chunks), IdsOf(front + [a]))
  {
    hide Reorder.Run, Contents, Sent;
    var content, heard := Contents(start, chunks), front + [a];
    assert Genuine(start, chunks, front) by {
      forall k | 0 <= k < |front| ensures front[k] == heard[k] { }
    }
    GenuinePackets(start, chunks, heard);
    GenuinePackets(start, chunks, front);
    forall m | 0 <= m < |heard|
      ensures IdsOf(heard)[m] <= Reorder.After(start, content, IdsOf(heard), m).next + Reorder.MAX_BUFFERED
    {
      assert heard[..m] == front[..m];
      if m < |front| {
        assert IdsOf(front)[m] <= Reorder.After(start, content, IdsOf(front), m).next + Reorder.MAX_BUFFERED;
        assert IdsOf(front)[m] == IdsOf(heard)[m];
      } else {
        assert front[..m] == front;
      }
    }
  }

  /** Every control message that is dropped for want of room comes again while there is room. */
  ghost predicate NothingLost(start: u32, chunks: seq<seq<byte>>, raws: seq<seq<byte>>)
  {
    Reorder.DropsMadeGood(start, Contents(start, chunks), IdsOf(HearAll(raws)))
  }

  /** Inside the window of 32 ids none is dropped that is not kept at another time. */
  lemma WindowLosesNothing(start: u32, chunks: seq<seq<byte>>, raws: seq<seq<byte>>)
    requires start + |chunks| <= Reorder.LAST_ID && Genuine(start, chunks, HearAll(raws)) && Windowed(start, raws)
    ensures NothingLost(start, chunks, raws)
  {
    hide Hear, HearAll, Windowed, Reorder.InWindow, Reorder.Drops, Reorder.After, Contents;
    var ids := IdsOf(HearAll(raws));
    WindowedIds(start, chunks, raws);
    Reorder.WindowKeepsAll(start, Contents(start, chunks), ids, |ids|);
    assert forall k: nat :: k < |ids| ==> ids[k] in Reorder.Received(ids, |ids|);
  }

  /** Whatever is dropped, what is handed over is the beginning of what was sent. */
  lemma FedIsPrefix(start: u32, chunks: seq<seq<byte>>, raws: seq<seq<byte>>)
    requires start + |chunks| <= Reorder.LAST_ID && Genuine(start, chunks, HearAll(raws))
    ensures var r := ReceiveAll(start, raws);
            && r.next == start + |r.fed| && |r.fed| <= |chunks| && r.fed == chunks[..|r.fed|]
    ensures var ids := IdsOf(HearAll(raws));
            Reorder.Complete(start, Contents(start, chunks), Reorder.Kept(start, Contents(start, chunks), ids, |ids|),
                             ReceiveAll(start, raws))
  {
    hide Hear, HearAll, ReceiveAll, Reorder.Run, Reorder.Drops, Reorder.Accept;
    var heard, content := HearAll(raws), Contents(start, chunks);
    var ids := IdsOf(heard);
    GenuinePackets(start, chunks, heard);
    ReceiveHears(start, raws);
    Reorder.RunComplete(start, content, ids, |ids|);
    assert heard[..|heard|] == heard;
    var r := ReceiveAll(start, raws);
    if |r.fed| > 0 {
      var last := r.next - 1;
      assert last in Reorder.Kept(start, content, ids, |ids|);
    }
  }

  lemma StopsAtMissing(start: u32, chunks: seq<seq<byte>>, raws: seq<seq<byte>>)
    requires start + |chunks| <= Reorder.LAST_ID && Genuine(start, chunks, HearAll(raws)) && NothingLost(start, chunks, raws)
    ensures var r := ReceiveAll(start, raws);
            |r.fed| < |chunks| ==> Reorder.Arrival(start + |r.fed|, chunks[|r.fed|]) !in HearAll(raws)
  {
    hide Hear, HearAll, ReceiveAll, Reorder.Drops, Reorder.After, Contents;
    var content, ids := Contents(start, chunks), IdsOf(HearAll(raws));
    FedIsPrefix(start, chunks, raws);
    Reorder.ReceivedUnlessLost(start, content, ids);
    assert forall k :: 0 <= k < |ids| ==> ids[k] in Reorder.Received(ids, |ids|);
  }

  /** When all has been handed over, nothing can have been lost. */
  lemma AllFedNothingLost(start: u32, chunks: seq<seq<byte>>, raws: seq<seq<byte>>)
    requires start + |chunks| <= Reorder.LAST_ID && Genuine(start, chunks, HearAll(raws))
    requires |ReceiveAll(start, raws).fed| == |chunks|
    ensures NothingLost(start, chunks, raws)
  {
    hide Hear, HearAll, ReceiveAll, Reorder.Drops, Reorder.After, Contents, Reorder.Kept;
    var heard := HearAll(raws);
    var ids := IdsOf(heard);
    FedIsPrefix(start, chunks, raws);
    forall k: nat | k < |ids|
      ensures ids[k] in Reorder.Kept(start, Contents(start, chunks), ids, |ids|)
    {
      assert Sent(start, chunks, heard[k]);
    }
  }

  lemma {:induction false} FlattenShorter(chunks: seq<seq<byte>>, n: nat)
    requires n <= |chunks| && forall k :: 0 <= k < |chunks| ==> |chunks[k]| > 0
    ensures |Flatten(chunks[..n])| + (|chunks| - n) <= |Flatten(chunks)|
  {
    if n > 0 {
      FlattenShorter(chunks[1..], n - 1);
      assert chunks[..n][1..] == chunks[1..][..n - 1];
    } else if chunks != [] {
      FlattenShorter(chunks[1..], 0);
      assert chunks[..0] == [] && chunks[1..][..0] == [];
    }
  }

  lemma {:induction false} AllChunksNonempty(ops: seq<Op>)
    ensures forall k :: 0 <= k < |AllChunks(ops)| ==> |AllChunks(ops)[k]| > 0
  {
    if ops != [] {
      var n := |ops| - 1;
      AllChunksNonempty(ops[..n]);
      match ops[n]
      case Flush(data) => ChunksRejoin(data);
      case _ =>
    }
  }

  /**
   * The bytes handed to TLS are always the beginning of those sent, in order and once each. Unless
   * something is lost they go on to the first chunk that has not arrived; and once every control packet
   * sent has arrived they are all of them exactly when nothing is lost.
   */
  lemma EndToEnd(s: Sender, ops: seq<Op>, raws: seq<seq<byte>>)
    requires s.wire == [] && s.nextId + |AllChunks(ops)| <= Reorder.LAST_ID && PostsOthers(ops)
    requires forall i :: 0 <= i < |raws| ==> raws[i] in RunSender(s, ops).wire || Other(raws[i])
    ensures var r, chunks := ReceiveAll(s.nextId, raws), AllChunks(ops);
            && |r.fed| <= |chunks|
            && r.fed == chunks[..|r.fed|]
            && (NothingLost(s.nextId, chunks, raws) && |r.fed| < |chunks| ==>
                  Reorder.Arrival(s.nextId + |r.fed|, chunks[|r.fed|]) !in HearAll(raws))
    ensures (forall raw :: raw in RunSender(s, ops).wire ==> raw in raws)
        ==> (Flatten(ReceiveAll(s.nextId, raws).fed) == AllData(ops) <==> NothingLost(s.nextId, AllChunks(ops), raws))
    ensures Windowed(s.nextId, raws) ==> NothingLost(s.nextId, AllChunks(ops), raws)
  {
    hide Other, HearAll, Windowed, ReceiveAll, RunSender, AllChunks, AllData, NothingLost, Flatten, Carries, Genuine;
    var start, chunks, sent := s.nextId, AllChunks(ops), RunSender(s, ops);
    RunSenderCarries(s, ops);
    ArrivalsGenuine(start, chunks, sent, raws);
    FedIsPrefix(start, chunks, raws);
    AllChunksRejoin(ops);
    WholeIff(ops, |ReceiveAll(start, raws).fed|);
    if forall raw :: raw in sent.wire ==> raw in raws { AllFedIff(start, chunks, sent, raws); }
    if NothingLost(start, chunks, raws) { StopsAtMissing(start, chunks, raws); }
    if Windowed(start, raws) { WindowLosesNothing(start, chunks, raws); }
  }

  /** Once all that was sent has arrived, every chunk has been fed exactly when nothing is lost. */
  lemma AllFedIff(start: u32, chunks: seq<seq<byte>>, sent: Sender, raws: seq<seq<byte>>)
    requires start + |chunks| <= Reorder.LAST_ID && Genuine(start, chunks, HearAll(raws))
    requires Carries(start, chunks, sent) && forall raw :: raw in sent.wire ==> raw in raws
    ensures |ReceiveAll(start, raws).fed| == |chunks| <==> NothingLost(start, chunks, raws)
  {
    hide HearAll, ReceiveAll, NothingLost, Carries, Genuine;
    FedIsPrefix(start, chunks, raws);
    var n := |ReceiveAll(start, raws).fed|;
    AllHeard(start, chunks, sent, raws, n);
    if n == |chunks| { AllFedNothingLost(start, chunks, raws); }
    if NothingLost(start, chunks, raws) { StopsAtMissing(start, chunks, raws); }
  }

  /** The first `n` chunks are all the bytes only when they are all the chunks. */
  lemma WholeIff(ops: seq<Op>, n: nat)
    requires n <= |AllChunks(ops)|
    ensures Flatten(AllChunks(ops)[..n]) == Flatten(AllChunks(ops)) <==> n == |AllChunks(ops)|
  {
    hide AllChunks, Flatten;
    var chunks := AllChunks(ops);
    AllChunksNonempty(ops);
    FlattenShorter(chunks, n);
    assert chunks[..|chunks|] == chunks;
  }

  /** When all that was sent has arrived, every chunk has been heard. */
  lemma AllHeard(start: u32, chunks: seq<seq<byte>>, sent: Sender, raws: seq<seq<byte>>, k: nat)
    requires Carries(start, chunks, sent) && forall raw :: raw in sent.wire ==> raw in raws
    ensures k < |chunks| ==> Reorder.Arrival(start + k, chunks[k]) in HearAll(raws)
  {
    hide Hear, HearAll;
    if k < |chunks| {
      var a := Numbered(start, chunks)[k];
      HeardFrom(sent.wire, a);
      var i :| 0 <= i < |sent.wire| && Hear(sent.wire[i]) == [a];
      HeardIfIn(raws, sent.wire[i]);
    }
  }

  lemma AcceptsNext(r: Reorder.Receiver, payload: seq<byte>)
    requires r.ahead == map[] && r.next < Reorder.LAST_ID
    ensures Reorder.Accept(r, Reorder.Arrival(r.next, payload))
         == Reorder.Receiver(r.next + 1, map[], r.fed + [payload])
  {
  }

  /** Packets that arrive as they were sent never leave the window, and are fed as they come. */
  lemma {:induction false} InOrderIsWindowed(start: u32, chunks: seq<seq<byte>>, raws: seq<seq<byte>>)
    requires start + |chunks| <= Reorder.LAST_ID && HearAll(raws) == Numbered(start, chunks)
    ensures Windowed(start, raws)
    ensures ReceiveAll(start, raws) == Reorder.Receiver(start + |chunks|, map[], chunks)
    decreases |raws|
  {
    hide Hear, Parse, Reorder.Accept;
    if raws != [] {
      var n := |raws| - 1;
      var front := raws[..n];
      HearOne(raws[n]);
      ReceiveIs(ReceiveAll(start, front), raws[n]);
      if Hear(raws[n]) == [] {
        assert HearAll(front) == HearAll(raws);
        InOrderIsWindowed(start, chunks, front);
      } else {
        var m := |chunks| - 1;
        assert HearAll(front) == HearAll(raws)[..m] == Numbered(start, chunks[..m]);
        assert Hear(raws[n])[0] == HearAll(raws)[m] == Reorder.Arrival(start + m, chunks[m]);
        InOrderIsWindowed(start, chunks[..m], front);
        AcceptsNext(ReceiveAll(start, front), chunks[m]);
        assert chunks == chunks[..m] + [chunks[m]];
      }
    }
  }

  lemma ReceiveIs(r: Reorder.Receiver, raw: seq<byte>)
    ensures Receive(r, raw) == if Hear(raw) == [] then r else Reorder.Accept(r, Hear(raw)[0])
  {
    hide Parse, Reorder.Accept;
  }

  /** Over a network that keeps the order the whole stream arrives. */
  lemma InOrderArrives(s: Sender, ops: seq<Op>)
    requires s.wire == [] && s.nextId + |AllChunks(ops)| <= Reorder.LAST_ID && PostsOthers(ops)
    ensures Windowed(s.nextId, RunSender(s, ops).wire)
    ensures Flatten(ReceiveAll(s.nextId, RunSender(s, ops).wire).fed) == AllData(ops)
  {
    hide HearAll, ReceiveAll, Windowed, AllChunks, AllData;
    RunSenderCarries(s, ops);
    InOrderIsWindowed(s.nextId, AllChunks(ops), RunSender(s, ops).wire);
    AllChunksRejoin(ops);
  }
}
