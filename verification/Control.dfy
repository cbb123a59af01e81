/** One end of an OpenVPN connection: the control channel, the data channel and what ties them together. */
module ControlChannel {
  import opened Bytes
  import opened Options
  import opened Packets
  import opened DataCiphers
  import opened ControlStream
  import DataChannel
  import Reorder
  import Replay

  datatype Keys = Keys(encrypt: DataCipher, decrypt: DataCipher)
  {
    predicate Valid()
    {
      encrypt.Valid() && decrypt.Valid()
    }
  }

  /** What does not change once the keys are installed. */
  datatype Config = Config(suite: Suite, keys: Option<Keys>, aead: bool, peer: u32)
  {
    ghost predicate Valid()
    {
      suite.Seals() && (keys.Some? ==> keys.value.Valid())
    }
  }

  datatype Endpoint = Endpoint(out: Sender, inbound: Reorder.Receiver, window: Replay.Window, sendCounter: u32)

  // ---------------------------------------------------------------- one packet out, one packet in

  datatype Sent = Sent(ok: bool, after: Endpoint)

  /** The counter moves on even when there are no keys to send with. */
  function SendDataOn(c: Config, e: Endpoint, plaintext: seq<byte>, iv: seq<byte>): Sent
    requires c.Valid()
  {
    var counter := Reorder.Successor(e.sendCounter);
    if c.keys.None? then Sent(false, e.(sendCounter := counter))
    else
      var raw := DataRaw(c, counter, plaintext, iv);
      Sent(true, e.(sendCounter := counter, out := e.out.(wire := e.out.wire + [raw])))
  }

  function DataRaw(c: Config, counter: u32, plaintext: seq<byte>, iv: seq<byte>): seq<byte>
    requires c.Valid() && c.keys.Some?
  {
    DataChannel.Send(c.aead, c.keys.value.encrypt, c.suite, c.peer, counter, plaintext, iv)
  }

  /** A packet from the network, and what the TLS engine then wants to send. */
  datatype Datagram = Datagram(raw: seq<byte>, output: seq<byte>)

  /** How a call that receives data ends. */
  datatype Result = Data(plaintext: seq<byte>) | Nothing | Failed(error: Error) | Crash

  datatype Turn = Continue(after: Endpoint) | Return(after: Endpoint, result: Result)

  function TakeControl(e: Endpoint, p: Packet, output: seq<byte>): Endpoint
  {
    e.(out := SendEach(SendAck(e.out, p.packetId), Chunks(output)),
       inbound := Reorder.Accept(e.inbound, Reorder.Arrival(p.packetId, p.payload)))
  }

  function TakeData(c: Config, e: Endpoint, p: Packet): Turn
    requires c.Valid() && |p.header| >= 4
  {
    if c.keys.None? then Continue(e)
    else
      var received := DataChannel.Open(c.keys.value.decrypt, c.suite, e.window, p);
      var after := e.(window := received.window);
      match received.outcome
      case Failed(error) => Return(after, Failed(error))
      case Delivered(plaintext) => Return(after, Data(plaintext))
      case _ => Continue(after)
  }

  lemma DataHeaderLength(raw: seq<byte>)
    ensures Parse(raw).Parsed? && IsData(Parse(raw).packet.opcode) ==> |Parse(raw).packet.header| >= 4
  {
    hide FromU32;
  }

  function Take(c: Config, e: Endpoint, d: Datagram): Turn
    requires c.Valid()
  {
    DataHeaderLength(d.raw);
    match Parse(d.raw)
    case Panics => Return(e, Crash)
    case Rejected => Return(e, Nothing)
    case Parsed(p) =>
      if IsData(p.opcode) then TakeData(c, e, p)
      else if p.opcode == CONTROL_V1 then Continue(TakeControl(e, p, d.output))
      else if p.opcode == HARD_RESET_SERVER_V2 then Continue(e.(out := SendAck(e.out, p.packetId)))
      else Continue(e)
  }

  /** A packet while waiting for the control channel: all but control messages are passed over. */
  function PumpOne(e: Endpoint, d: Datagram): Endpoint
  {
    match Parse(d.raw)
    case Parsed(p) => if p.opcode == CONTROL_V1 then TakeControl(e, p, d.output) else e
    case _ => e
  }

  /** How such a call ends: with a control message, when the time is over, or with the program. */
  datatype Wait = Got | Timeout | Stopped

  datatype Pumped = Pumped(after: Endpoint, wait: Wait, rest: seq<Datagram>)

  function PumpAll(e: Endpoint, inbox: seq<Datagram>): Pumped
    decreases |inbox|
  {
    if inbox == [] then Pumped(e, Timeout, [])
    else
      match Parse(inbox[0].raw)
      case Panics => Pumped(e, Stopped, inbox[1..])
      case Rejected => PumpAll(e, inbox[1..])
      case Parsed(p) =>
        if p.opcode == CONTROL_V1 then Pumped(TakeControl(e, p, inbox[0].output), Got, inbox[1..])
        else PumpAll(e, inbox[1..])
  }

  /** The first `used` packets of the inbox have been used, and all of them but the last were passed over. */
  predicate PassedOver(e: Endpoint, inbox: seq<Datagram>, used: nat)
  {
    used <= |inbox| && forall k :: 0 <= k < used - 1 ==> PumpOne(e, inbox[k]) == e && Hear(inbox[k].raw) == []
  }

  lemma PassedOverOneMore(e: Endpoint, inbox: seq<Datagram>, used: nat)
    requires inbox != [] && PassedOver(e, inbox[1..], used) && PumpOne(e, inbox[0]) == e && Hear(inbox[0].raw) == []
    ensures PassedOver(e, inbox, used + 1)
  {
    hide PumpOne, Hear;
    assert forall k :: 0 < k < |inbox| ==> inbox[k] == inbox[1..][k - 1];
  }

  /** It takes at most one control message, passes over all before it, and leaves all after it. */
  lemma {:induction false} PumpTakesOne(e: Endpoint, inbox: seq<Datagram>)
    ensures var pumped := PumpAll(e, inbox);
            && |pumped.rest| <= |inbox|
            && var used := |inbox| - |pumped.rest|;
               && pumped.rest == inbox[used..] && PassedOver(e, inbox, used)
               && (pumped.wait == Got ==>
                     used > 0 && pumped.after == PumpOne(e, inbox[used - 1]) && Hear(inbox[used - 1].raw) != [])
               && (pumped.wait != Got ==> pumped.after == e)
               && (pumped.wait == Timeout ==> used == |inbox|)
    decreases |inbox|
  {
    hide Parse, TakeControl, PassedOver;
    if inbox == [] {
      NonePassedOver(e, inbox);
    } else {
      OnePassedOver(e, inbox);
      var parsed := Parse(inbox[0].raw);
      if parsed.Rejected? || (parsed.Parsed? && parsed.packet.opcode != CONTROL_V1) {
        PumpTakesOne(e, inbox[1..]);
        PassedOverOneMore(e, inbox, |inbox[1..]| - |PumpAll(e, inbox[1..]).rest|);
      }
    }
  }

  lemma NonePassedOver(e: Endpoint, inbox: seq<Datagram>)
    ensures PassedOver(e, inbox, 0)
  {
  }

  lemma OnePassedOver(e: Endpoint, inbox: seq<Datagram>)
    requires inbox != []
    ensures PassedOver(e, inbox, 1)
  {
  }

  datatype Call = Call(after: Endpoint, result: Result, rest: seq<Datagram>)

  /** A call that receives data, until it returns or the packets that arrive in time are used up. */
  function TakeAll(c: Config, e: Endpoint, inbox: seq<Datagram>): Call
    requires c.Valid()
    decreases |inbox|
  {
    if inbox == [] then Call(e, Nothing, [])
    else
      match Take(c, e, inbox[0])
      case Return(after, result) => Call(after, result, inbox[1..])
      case Continue(after) => TakeAll(c, after, inbox[1..])
  }

  // ---------------------------------------------------------------- the program's own steps

  class Control {
    const sid: SessionId
    const remote: SessionId
    const suite: Suite
    const replay: Replay.ReplayWindow
    var keys: Option<Keys>
    var cipher: Cipher
    var peer: u32
    var nextPacketId: u32
    var acked: seq<u32>
    var lastPayload: seq<byte>
    var recvNext: u32
    var reorder: map<u32, seq<byte>>
    var sendCounter: u32
    var fed: seq<seq<byte>>
    var wire: seq<seq<byte>>

    ghost function Settings(): Config
      reads this
    {
      Config(suite, keys, cipher.IsAead(), peer)
    }

    ghost function Out(): Sender
      reads this
    {
      Sender(sid, remote, nextPacketId, acked, wire)
    }

    ghost function Inbound(): Reorder.Receiver
      reads this
    {
      Reorder.Receiver(recvNext, reorder, fed)
    }

    ghost function State(): Endpoint
      reads this, replay
    {
      Endpoint(Out(), Inbound(), replay.State(), sendCounter)
    }

    /** After the peer's reset has arrived with id `resetId`. */
    constructor (sid: SessionId, remote: SessionId, suite: Suite, cipher: Cipher, peer: u32, resetId: u32)
      ensures Out() == Sender(sid, remote, 1, [resetId], [])
      ensures Inbound() == Reorder.Opened(Reorder.Successor(resetId))
      ensures replay.State() == Replay.EMPTY && sendCounter == 0 && fresh(replay)
      ensures Settings() == Config(suite, None, cipher.IsAead(), peer)
    {
      this.sid, this.remote, this.suite, this.cipher, this.peer := sid, remote, suite, cipher, peer;
      nextPacketId, acked, lastPayload, keys := 1, [resetId], [], None;
      recvNext, reorder, fed, wire, sendCounter := Reorder.Successor(resetId), map[], [], [], 0;
      replay := new Replay.ReplayWindow();
    }

    method SendControl(payload: seq<byte>)
      modifies this
      ensures Out() == ControlStream.SendControl(old(Out()), payload) && lastPayload == payload
      ensures |wire| == old(|wire|) + 1
           && IsControl(wire[|wire| - 1], sid, old(acked), remote, old(nextPacketId), payload)
      ensures Inbound() == old(Inbound()) && sendCounter == old(sendCounter) && Settings() == old(Settings())
    {
      hide Message, EncodeAcks, IsControl;
      var packetId := nextPacketId;
      nextPacketId := Reorder.Successor(nextPacketId);
      var out := [CONTROL_V1 * 8] + sid + EncodeAcks(acked, remote) + U32(packetId) + payload;
      lastPayload := payload;
      assert out == ControlMessage(sid, acked, remote, packetId, payload) by { MessageIs(sid, acked, remote, packetId, payload); }
      wire := wire + [out];
      ControlLayout(sid, acked, remote, packetId, payload);
    }

    method SendControlChunks(data: seq<byte>)
      modifies this
      ensures Out() == SendEach(old(Out()), Chunks(data))
      ensures Inbound() == old(Inbound()) && sendCounter == old(sendCounter) && Settings() == old(Settings())
    {
      hide ControlStream.SendControl;
      var offset := 0;
      while offset < |data|
        invariant 0 <= offset <= |data|
        invariant SendEach(Out(), Chunks(data[offset..])) == SendEach(old(Out()), Chunks(data))
        invariant Inbound() == old(Inbound()) && sendCounter == old(sendCounter) && Settings() == old(Settings())
      {
        var end := if offset + MAX_CONTROL_PAYLOAD < |data| then offset + MAX_CONTROL_PAYLOAD else |data|;
        ChunksStep(data, offset, end);
        SendControl(data[offset..end]);
        offset := end;
      }
      assert data[|data|..] == [];
    }

    method RecordAck(packetId: u32)
      modifies this
      ensures acked == Packets.RecordAck(old(acked), packetId)
      ensures Out() == old(Out()).(acked := acked)
      ensures Inbound() == old(Inbound()) && sendCounter == old(sendCounter) && Settings() == old(Settings())
    {
      if packetId in acked {
        return;
      }
      var was := acked;
      acked := [packetId] + acked;
      if |acked| > MAX_ACKS {
        acked := acked[..MAX_ACKS];
        assert acked == [packetId] + was[..MAX_ACKS - 1];
      }
    }

    method SendAck(packetId: u32)
      modifies this
      ensures Out() == ControlStream.SendAck(old(Out()), packetId)
      ensures |wire| == old(|wire|) + 1 && IsAck(wire[|wire| - 1], sid, acked, remote)
      ensures old(AcksOk(acked)) ==> AcksOk(acked) && LastAcknowledges(Out(), packetId)
      ensures Inbound() == old(Inbound()) && sendCounter == old(sendCounter) && Settings() == old(Settings())
    {
      hide EncodeAcks, IsAck, LastAcknowledges;
      if AcksOk(acked) { AckSent(Out(), packetId); }
      RecordAck(packetId);
      var out := [ACK_V1 * 8] + sid;
      out := out + EncodeAcks(acked, remote);
      wire := wire + [out];
      AckLayout(sid, acked, remote);
    }

    /** In-order delivery to TLS, with a bounded buffer for what comes early. */
    method AcceptControl(packetId: u32, payload: seq<byte>)
      modifies this
      ensures Inbound() == Reorder.Accept(old(Inbound()), Reorder.Arrival(packetId, payload))
      ensures Out() == old(Out()) && sendCounter == old(sendCounter) && Settings() == old(Settings())
    {
      if packetId < recvNext {
        return;
      }
      if packetId > recvNext {
        if |reorder| < Reorder.MAX_BUFFERED {
          reorder := reorder[packetId := payload];
        }
        return;
      }
      fed := fed + [payload];
      recvNext := Reorder.Successor(recvNext);
      while recvNext in reorder
        invariant Reorder.Drain(Inbound()) == Reorder.Accept(old(Inbound()), Reorder.Arrival(packetId, payload))
        invariant Out() == old(Out()) && sendCounter == old(sendCounter) && Settings() == old(Settings())
        decreases |reorder|
      {
        var due := reorder[recvNext];
        Reorder.RemoveSize(reorder, recvNext);
        reorder := reorder - {recvNext};
        fed := fed + [due];
        recvNext := Reorder.Successor(recvNext);
      }
    }

    method SendData(plaintext: seq<byte>, iv: seq<byte>) returns (ok: bool)
      requires Settings().Valid()
      modifies this
      ensures Sent(ok, State()) == SendDataOn(old(Settings()), old(State()), plaintext, iv)
      ensures Settings() == old(Settings())
      ensures ok <==> keys.Some?
      ensures ok && suite.Encrypts() ==>
        && |wire| == old(|wire|) + 1
        && DataChannel.IsSent(
             cipher.IsAead(), keys.value.encrypt, suite, peer, sendCounter, plaintext, iv, wire[|wire| - 1])
    {
      hide U32, DataHeader, DataCipher.Encrypt, DataChannel.IsSent;
      sendCounter := Reorder.Successor(sendCounter);
      var counter := sendCounter;
      var header := DataHeader(cipher.IsAead(), 0, peer);
      if keys.None? {
        return false;
      }
      header := header + U32(counter);
      var encrypted := keys.value.encrypt.Encrypt(suite, header, counter, plaintext, iv);
      wire := wire + [header + encrypted];
      if suite.Encrypts() {
        DataChannel.SendLayout(cipher.IsAead(), keys.value.encrypt, suite, peer, counter, plaintext, iv);
      }
      return true;
    }

    method RecvData(inbox: seq<Datagram>) returns (result: Result, rest: seq<Datagram>)
      requires Settings().Valid()
      modifies this, replay
      ensures Call(State(), result, rest) == TakeAll(old(Settings()), old(State()), inbox)
      ensures Settings() == old(Settings())
    {
      hide Parse, Reorder.Accept, Replay.Judge, DataCipher.Decrypt, ControlStream.SendAck, SendEach, Chunks, Suite.Seals;
      rest := inbox;
      while rest != []
        invariant Settings() == old(Settings())
        invariant TakeAll(old(Settings()), State(), rest) == TakeAll(old(Settings()), old(State()), inbox)
        decreases |rest|
      {
        var d := rest[0];
        rest := rest[1..];
        DataHeaderLength(d.raw);
        var parsed := Parse(d.raw);
        if parsed.Panics? {
          return Crash, rest;
        }
        if parsed.Rejected? {
          return Nothing, rest;
        }
        var p := parsed.packet;
        if IsData(p.opcode) {
          if keys.Some? {
            var decrypted := keys.value.decrypt.Open(suite, p.header, p.payload);
            if decrypted.Failure? {
              return Failed(decrypted.error), rest;
            }
            var ok := replay.Accept(decrypted.id);
            if ok {
              return Data(decrypted.plaintext), rest;
            }
          }
        } else if p.opcode == CONTROL_V1 {
          SendAck(p.packetId);
          AcceptControl(p.packetId, p.payload);
          SendControlChunks(d.output);
        } else if p.opcode == HARD_RESET_SERVER_V2 {
          SendAck(p.packetId);
        }
      }
      return Nothing, rest;
    }

    /** Waits for a control message. */
    method PumpControl(inbox: seq<Datagram>) returns (wait: Wait, rest: seq<Datagram>)
      modifies this
      ensures Pumped(State(), wait, rest) == PumpAll(old(State()), inbox)
      ensures Settings() == old(Settings())
    {
      hide Parse, Reorder.Accept, ControlStream.SendAck, SendEach, Chunks;
      rest := inbox;
      while rest != []
        invariant State() == old(State()) && Settings() == old(Settings())
        invariant PumpAll(State(), rest) == PumpAll(old(State()), inbox)
        decreases |rest|
      {
        var d := rest[0];
        rest := rest[1..];
        var parsed := Parse(d.raw);
        if parsed.Panics? {
          return Stopped, rest;
        }
        if parsed.Parsed? && parsed.packet.opcode == CONTROL_V1 {
          SendAck(parsed.packet.packetId);
          AcceptControl(parsed.packet.packetId, parsed.packet.payload);
          SendControlChunks(d.output);
          return Got, rest;
        }
      }
      return Timeout, rest;
    }
  }

  lemma MessageIs(sid: SessionId, acked: seq<u32>, remote: SessionId, id: u32, payload: seq<byte>)
    ensures ControlMessage(sid, acked, remote, id, payload)
         == [CONTROL_V1 * 8] + sid + EncodeAcks(acked, remote) + U32(id) + payload
  {
    hide EncodeAcks, U32;
  }

  lemma ChunksStep(data: seq<byte>, offset: nat, end: nat)
    requires offset < |data|
    requires end == if offset + MAX_CONTROL_PAYLOAD < |data| then offset + MAX_CONTROL_PAYLOAD else |data|
    ensures Chunks(data[offset..]) == [data[offset..end]] + Chunks(data[end..])
  {
    var rest := data[offset..];
    assert rest[end - offset..] == data[end..] && rest[..end - offset] == data[offset..end];
    if end == |data| {
      assert rest == data[offset..end] && data[end..] == [];
      assert [rest] + [] == [rest];
    }
  }

  // ---------------------------------------------------------------- whole runs

  /** A packet arrives in a call for data, or in one that waits for the control channel. */
  datatype Event =
    | FlushTls(data: seq<byte>)
    | SendPacket(plaintext: seq<byte>, iv: seq<byte>)
    | Arrive(datagram: Datagram)
    | Pump(datagram: Datagram)

  /** An event under the settings in force at the time. */
  datatype Moment = Moment(config: Config, event: Event)

  ghost predicate Valid(moments: seq<Moment>)
  {
    forall k :: 0 <= k < |moments| ==> moments[k].config.Valid()
  }

  function Step(e: Endpoint, m: Moment): Endpoint
    requires m.config.Valid()
  {
    match m.event
    case FlushTls(data) => e.(out := SendEach(e.out, Chunks(data)))
    case SendPacket(plaintext, iv) => SendDataOn(m.config, e, plaintext, iv).after
    case Arrive(d) => Take(m.config, e, d).after
    case Pump(d) => PumpOne(e, d)
  }

  function Run(e: Endpoint, moments: seq<Moment>): Endpoint
    requires Valid(moments)
  {
    if moments == [] then e else Step(Run(e, moments[..|moments| - 1]), moments[|moments| - 1])
  }

  /** The packets that arrive in a run. */
  function Raws(moments: seq<Moment>): seq<seq<byte>>
  {
    if moments == [] then []
    else Raws(moments[..|moments| - 1]) + RawOf(moments[|moments| - 1].event)
  }

  function RawOf(event: Event): seq<seq<byte>>
  {
    if event.Arrive? || event.Pump? then [event.datagram.raw] else []
  }

  /** What one moment does to the sending end. */
  function OpsOf(e: Endpoint, m: Moment): seq<Op>
    requires m.config.Valid()
  {
    match m.event
    case FlushTls(data) => [Flush(data)]
    case SendPacket(plaintext, iv) =>
      if m.config.keys.None? then []
      else [Post(DataRaw(m.config, Reorder.Successor(e.sendCounter), plaintext, iv))]
    case Pump(d) => PumpOps(d)
    case Arrive(d) =>
      match Parse(d.raw)
      case Parsed(p) =>
        if p.opcode == CONTROL_V1 then [Ack(p.packetId), Flush(d.output)]
        else if p.opcode == HARD_RESET_SERVER_V2 then [Ack(p.packetId)]
        else []
      case _ => []
  }

  function PumpOps(d: Datagram): seq<Op>
  {
    match Parse(d.raw)
    case Parsed(p) => if p.opcode == CONTROL_V1 then [Ack(p.packetId), Flush(d.output)] else []
    case _ => []
  }

  function Ops(e: Endpoint, moments: seq<Moment>): seq<Op>
    requires Valid(moments)
  {
    if moments == [] then []
    else
      var front := moments[..|moments| - 1];
      Ops(e, front) + OpsOf(Run(e, front), moments[|moments| - 1])
  }

  /** What the TLS engine has had to send in a run: on its own account, or after a control message. */
  function Output(moments: seq<Moment>): seq<byte>
  {
    if moments == [] then [] else Output(moments[..|moments| - 1]) + OutputOf(moments[|moments| - 1].event)
  }

  function OutputOf(event: Event): seq<byte>
  {
    match event
    case FlushTls(data) => data
    case SendPacket(_, _) => []
    case Arrive(d) => if Hear(d.raw) != [] then d.output else []
    case Pump(d) => if Hear(d.raw) != [] then d.output else []
  }

  lemma {:induction false} AllDataMore(ops: seq<Op>, more: seq<Op>)
    ensures AllData(ops + more) == AllData(ops) + AllData(more)
    decreases |more|
  {
    hide AllData, DataOf;
    if more == [] {
      assert ops + more == ops;
      NoData();
    } else {
      var n, all := |more| - 1, ops + more;
      AllDataMore(ops, more[..n]);
      AllDataLast(all);
      AllDataLast(more);
      assert all[..|all| - 1] == ops + more[..n] && all[|all| - 1] == more[n];
      Associative(AllData(ops), AllData(more[..n]), DataOf(more[n]));
    }
  }

  lemma NoData()
    ensures AllData([]) == []
  {
  }

  lemma AllDataLast(ops: seq<Op>)
    requires ops != []
    ensures AllData(ops) == AllData(ops[..|ops| - 1]) + DataOf(ops[|ops| - 1])
  {
  }

  lemma AllDataFew(ops: seq<Op>)
    ensures ops == [] ==> AllData(ops) == []
    ensures |ops| == 1 ==> AllData(ops) == if ops[0].Flush? then ops[0].data else []
    ensures |ops| == 2 && !ops[0].Flush? && ops[1].Flush? ==> AllData(ops) == ops[1].data
  {
    if |ops| == 1 {
      assert ops[..0] == [];
    } else if |ops| == 2 {
      assert ops[..1][..0] == [];
    }
  }

  lemma OutputStep(e: Endpoint, m: Moment)
    requires m.config.Valid()
    ensures AllData(OpsOf(e, m)) == OutputOf(m.event)
  {
    hide Parse, DataRaw, AllData;
    AllDataFew(OpsOf(e, m));
  }

  /** All of it is sent, and nothing else. */
  lemma {:induction false} OutputIsSent(e: Endpoint, moments: seq<Moment>)
    requires Valid(moments)
    ensures AllData(Ops(e, moments)) == Output(moments)
  {
    hide OpsOf, OutputOf, Run;
    if moments != [] {
      hide AllData;
      var n := |moments| - 1;
      OutputIsSent(e, moments[..n]);
      OutputStep(Run(e, moments[..n]), moments[n]);
      AllDataMore(Ops(e, moments[..n]), OpsOf(Run(e, moments[..n]), moments[n]));
    }
  }

  lemma {:induction false} RunSenderMore(s: Sender, ops: seq<Op>, more: seq<Op>)
    ensures RunSender(s, ops + more) == RunSender(RunSender(s, ops), more)
    decreases |more|
  {
    hide Perform;
    if more == [] {
      assert ops + more == ops;
    } else {
      var n := |more| - 1;
      RunSenderMore(s, ops, more[..n]);
      assert (ops + more)[..|ops + more| - 1] == ops + more[..n];
    }
  }

  lemma RunSenderFew(s: Sender, ops: seq<Op>)
    ensures ops == [] ==> RunSender(s, ops) == s
    ensures |ops| == 1 ==> RunSender(s, ops) == Perform(s, ops[0])
    ensures |ops| == 2 ==> RunSender(s, ops) == Perform(Perform(s, ops[0]), ops[1])
  {
    hide Perform;
    if |ops| == 1 {
      assert ops[..0] == [];
    } else if |ops| == 2 {
      assert ops[..1][..0] == [];
    }
  }

  lemma DataRawIsOther(c: Config, counter: u32, plaintext: seq<byte>, iv: seq<byte>)
    requires c.Valid() && c.keys.Some?
    ensures Other(DataRaw(c, counter, plaintext, iv))
  {
    hide Parse, U32, DataHeader, DataCipher.Encrypt;
    var header := DataHeader(c.aead, 0, c.peer) + U32(counter);
    var body := c.keys.value.encrypt.Encrypt(c.suite, header, counter, plaintext, iv);
    DataRoundTrip(c.aead, 0, c.peer, counter, body);
  }

  lemma StepProjects(e: Endpoint, m: Moment)
    requires m.config.Valid()
    ensures Step(e, m).out == RunSender(e.out, OpsOf(e, m))
    ensures PostsOthers(OpsOf(e, m))
    ensures Step(e, m).inbound
         == if m.event.Arrive? || m.event.Pump? then Receive(e.inbound, m.event.datagram.raw) else e.inbound
  {
    hide Parse, Reorder.Accept, Replay.Judge, DataCipher.Decrypt, SendAck, SendEach, Chunks, Suite.Seals, DataRaw, Other;
    if m.event.SendPacket? && m.config.keys.Some? {
      DataRawIsOther(m.config, Reorder.Successor(e.sendCounter), m.event.plaintext, m.event.iv);
    }
    var ops := OpsOf(e, m);
    RunSenderFew(e.out, ops);
    if m.event.Arrive? { DataHeaderLength(m.event.datagram.raw); }
  }

  /** The two halves of an end do what the control stream's two ends do, data packets or not. */
  lemma {:induction false} RunProjects(e: Endpoint, moments: seq<Moment>)
    requires Valid(moments)
    ensures Run(e, moments).out == RunSender(e.out, Ops(e, moments)) && PostsOthers(Ops(e, moments))
    ensures e.inbound == Reorder.Opened(e.inbound.next)
        ==> Run(e, moments).inbound == ReceiveAll(e.inbound.next, Raws(moments))
  {
    hide Step, Receive, Other, OpsOf;
    if moments != [] {
      var n := |moments| - 1;
      var front, m := moments[..n], moments[n];
      RunProjects(e, front);
      StepProjects(Run(e, front), m);
      RunSenderMore(e.out, Ops(e, front), OpsOf(Run(e, front), m));
      if m.event.Arrive? || m.event.Pump? {
        assert Raws(moments)[..|Raws(moments)| - 1] == Raws(front);
      } else {
        assert Raws(moments) == Raws(front);
      }
    }
  }

  /**
   * Two ends, each sending, receiving and acknowledging as it likes: what the second hands to TLS is
   * the beginning of what the first's TLS gave it to send, and once all has arrived, the whole of it
   * exactly when nothing is lost.
   */
  lemma TwoEnds(a: Endpoint, atA: seq<Moment>, b: Endpoint, atB: seq<Moment>)
    requires Valid(atA) && Valid(atB)
    requires a.out.wire == [] && a.out.nextId + |AllChunks(Ops(a, atA))| <= Reorder.LAST_ID
    requires b.inbound == Reorder.Opened(a.out.nextId)
    requires forall i :: 0 <= i < |Raws(atB)| ==> Raws(atB)[i] in Run(a, atA).out.wire || Other(Raws(atB)[i])
    ensures var fed, chunks := Run(b, atB).inbound.fed, AllChunks(Ops(a, atA));
            && |fed| <= |chunks| && fed == chunks[..|fed|]
            && (NothingLost(a.out.nextId, chunks, Raws(atB)) && |fed| < |chunks| ==>
                  Reorder.Arrival(a.out.nextId + |fed|, chunks[|fed|]) !in HearAll(Raws(atB)))
    ensures (forall raw :: raw in Run(a, atA).out.wire ==> raw in Raws(atB))
        ==> (Flatten(Run(b, atB).inbound.fed) == Output(atA)
             <==> NothingLost(a.out.nextId, AllChunks(Ops(a, atA)), Raws(atB)))
    ensures Windowed(a.out.nextId, Raws(atB)) ==> NothingLost(a.out.nextId, AllChunks(Ops(a, atA)), Raws(atB))
  {
    hide Run, Ops, Raws, Other, HearAll, Windowed, ReceiveAll, RunSender, AllChunks, AllData, NothingLost;
    RunProjects(a, atA);
    RunProjects(b, atB);
    OutputIsSent(a, atA);
    EndToEnd(a.out, Ops(a, atA), Raws(atB));
  }

  lemma {:induction false} CallLeavesRest(c: Config, e: Endpoint, inbox: seq<Datagram>)
    requires c.Valid()
    ensures var rest := TakeAll(c, e, inbox).rest;
            |rest| <= |inbox| && rest == inbox[|inbox| - |rest|..] && (inbox != [] ==> |rest| < |inbox|)
    decreases |inbox|
  {
    hide Take, Config.Valid;
    if inbox != [] {
      var turn := Take(c, e, inbox[0]);
      if turn.Continue? { CallLeavesRest(c, turn.after, inbox[1..]); }
    }
  }

  /** How a packet ends a call that receives data, if it does: by what it delivers, or by what is wrong with it. */
  function EndsCall(c: Config, window: Replay.Window, raw: seq<byte>): Option<Result>
    requires c.Valid()
  {
    match Parse(raw)
    case Panics => Some(Crash)
    case Rejected => Some(Nothing)
    case Parsed(p) => if c.keys.None? || !IsData(p.opcode) then None else DataEnds(c, window, raw)
  }

  /** A plaintext, or what makes the packet unreadable; one that has been seen or is too old ends nothing. */
  function DataEnds(c: Config, window: Replay.Window, raw: seq<byte>): Option<Result>
    requires c.Valid() && c.keys.Some?
  {
    match DataChannel.Receive(c.keys.value.decrypt, c.suite, window, raw).outcome
    case Delivered(plaintext) => Some(Data(plaintext))
    case Failed(error) => Some(Failed(error))
    case _ => None
  }

  lemma TakeEnds(c: Config, e: Endpoint, d: Datagram)
    requires c.Valid()
    ensures match Take(c, e, d)
            case Return(_, result) => EndsCall(c, e.window, d.raw) == Some(result)
            case Continue(_) => EndsCall(c, e.window, d.raw) == None
  {
    hide Parse, Reorder.Accept, Replay.Judge, DataCipher.Decrypt, SendAck, SendEach, Chunks, Suite.Seals;
    DataHeaderLength(d.raw);
  }

  /**
   * A call goes on past all packets but the last it uses; what it returns is how that one ends it, or
   * nothing when the time is over and no packet has.
   */
  lemma {:induction false} CallReturns(c: Config, e: Endpoint, inbox: seq<Datagram>)
    requires c.Valid()
    ensures var call := TakeAll(c, e, inbox);
            var used := |inbox| - |call.rest|;
            && 0 <= used && call.rest == inbox[used..]
            && (forall k :: 0 <= k < used - 1 ==> EndsAt(c, e, inbox, k, None))
            && (|| (used > 0 && EndsAt(c, e, inbox, used - 1, Some(call.result)))
                || (used == |inbox| && call.result == Nothing && (used > 0 ==> EndsAt(c, e, inbox, used - 1, None))))
    decreases |inbox|
  {
    hide Take, EndsCall, Config.Valid, Run, EndsAt;
    CallLeavesRest(c, e, inbox);
    if inbox != [] {
      var turn := Take(c, e, inbox[0]);
      TakeEnds(c, e, inbox[0]);
      FirstInCall(c, e, inbox);
      if turn.Continue? {
        CallReturns(c, turn.after, inbox[1..]);
        var used := |inbox| - |TakeAll(c, e, inbox).rest|;
        forall k | 0 <= k < used - 1
          ensures EndsAt(c, e, inbox, k, None)
        {
          if k > 0 { LaterInCall(c, e, inbox, k - 1, None); }
        }
        if used > 1 {
          LaterInCall(c, e, inbox, used - 2, None);
          LaterInCall(c, e, inbox, used - 2, Some(TakeAll(c, e, inbox).result));
        }
      }
    }
  }

  /** What the `k`-th packet does to a call that has used the ones before it. */
  ghost predicate EndsAt(c: Config, e: Endpoint, inbox: seq<Datagram>, k: nat, result: Option<Result>)
    requires c.Valid() && k < |inbox|
  {
    EndsCall(c, Run(e, Arrivals(c, inbox[..k])).window, inbox[k].raw) == result
  }

  lemma FirstInCall(c: Config, e: Endpoint, inbox: seq<Datagram>)
    requires c.Valid() && inbox != []
    ensures forall r :: EndsAt(c, e, inbox, 0, r) <==> EndsCall(c, e.window, inbox[0].raw) == r
  {
    hide EndsCall;
    RunNone(e, Arrivals(c, inbox[..0]));
  }

  lemma LaterInCall(c: Config, e: Endpoint, inbox: seq<Datagram>, k: nat, r: Option<Result>)
    requires c.Valid() && k < |inbox| - 1
    ensures EndsAt(c, Take(c, e, inbox[0]).after, inbox[1..], k, r) <==> EndsAt(c, e, inbox, k + 1, r)
  {
    hide Take, EndsCall, Config.Valid, Run, Arrivals;
    ArrivalsFirst(c, inbox, k + 1);
    RunFrom(e, Moment(c, Arrive(inbox[0])), Arrivals(c, inbox[1..][..k]));
    assert Step(e, Moment(c, Arrive(inbox[0]))) == Take(c, e, inbox[0]).after;
  }

  /** A call receives data by taking one after the other the packets it does not leave. */
  lemma {:induction false} CallIsRun(c: Config, e: Endpoint, inbox: seq<Datagram>)
    requires c.Valid() && |TakeAll(c, e, inbox).rest| <= |inbox|
    ensures var call := TakeAll(c, e, inbox);
            call.after == Run(e, Arrivals(c, inbox[..|inbox| - |call.rest|]))
    decreases |inbox|
  {
    hide Take, Config.Valid, Run, Arrivals;
    CallLeavesRest(c, e, inbox);
    if inbox == [] {
      RunNone(e, Arrivals(c, inbox[..0]));
    } else {
      var turn := Take(c, e, inbox[0]);
      var used := |inbox| - |TakeAll(c, e, inbox).rest|;
      assert Step(e, Moment(c, Arrive(inbox[0]))) == turn.after;
      ArrivalsFirst(c, inbox, used);
      RunFrom(e, Moment(c, Arrive(inbox[0])), Arrivals(c, inbox[1..][..used - 1]));
      if turn.Continue? {
        CallLeavesRest(c, turn.after, inbox[1..]);
        CallIsRun(c, turn.after, inbox[1..]);
      } else {
        RunNone(turn.after, Arrivals(c, inbox[1..][..used - 1]));
      }
    }
  }

  lemma RunNone(e: Endpoint, moments: seq<Moment>)
    requires moments == []
    ensures Run(e, moments) == e
  {
  }

  lemma ArrivalsFirst(c: Config, inbox: seq<Datagram>, used: nat)
    requires 0 < used <= |inbox|
    ensures Arrivals(c, inbox[..used]) == [Moment(c, Arrive(inbox[0]))] + Arrivals(c, inbox[1..][..used - 1])
  {
  }

  function Arrivals(c: Config, inbox: seq<Datagram>): (moments: seq<Moment>)
    ensures |moments| == |inbox| && forall k :: 0 <= k < |inbox| ==> moments[k] == Moment(c, Arrive(inbox[k]))
  {
    seq(|inbox|, k requires 0 <= k < |inbox| => Moment(c, Arrive(inbox[k])))
  }

  lemma {:induction false} RunFrom(e: Endpoint, m: Moment, moments: seq<Moment>)
    requires m.config.Valid() && Valid(moments)
    ensures Valid([m] + moments) && Run(e, [m] + moments) == Run(Step(e, m), moments)
    decreases |moments|
  {
    hide Step, Config.Valid;
    var all := [m] + moments;
    assert all[..|all| - 1] == if moments == [] then [] else [m] + moments[..|moments| - 1];
    if moments != [] { RunFrom(e, m, moments[..|moments| - 1]); }
  }

  // ---------------------------------------------------------------- what is acknowledged

  /** The id that an arriving packet asks to have acknowledged: that of a control message, and in a call for data that of a reset. */
  function AskedBy(event: Event): Option<u32>
  {
    if !event.Arrive? && !event.Pump? then None
    else
      match Parse(event.datagram.raw)
      case Parsed(p) =>
        if p.opcode == 4 || (p.opcode == 8 && event.Arrive?) then Some(p.packetId) else None
      case _ => None
  }

  /** In every run a packet that acknowledges it follows at once, and stays in what is sent. */
  lemma RunAcknowledges(e: Endpoint, moments: seq<Moment>, k: nat)
    requires Valid(moments) && AcksOk(e.out.acked) && k < |moments| && AskedBy(moments[k].event).Some?
    ensures var n, wire := |Run(e, moments[..k]).out.wire|, Run(e, moments).out.wire;
            n < |wire| && Acknowledges(wire[n], AskedBy(moments[k].event).value, e.out.remote)
  {
    hide Run, Ops, OpsOf, AskedBy, Parse, AcksOk, Acknowledges, PostsOthers;
    RunProjects(e, moments);
    RunProjects(e, moments[..k]);
    OpsFrom(e, moments, k);
    AckComesFirst(Run(e, moments[..k]), moments[k]);
    var before, ops := Ops(e, moments[..k]), Ops(e, moments);
    assert ops[..|before|] == before;
    EveryPacketAcknowledged(e.out, ops, |before|);
  }

  lemma AckComesFirst(e: Endpoint, m: Moment)
    requires m.config.Valid() && AskedBy(m.event).Some?
    ensures OpsOf(e, m) != [] && OpsOf(e, m)[0] == Ack(AskedBy(m.event).value)
  {
    hide Parse;
  }

  /** What is done to the sending end up to a moment and at it begins what is done in the whole run. */
  lemma {:induction false} OpsFrom(e: Endpoint, moments: seq<Moment>, k: nat)
    requires Valid(moments) && k < |moments|
    ensures Ops(e, moments[..k]) + OpsOf(Run(e, moments[..k]), moments[k]) <= Ops(e, moments)
    decreases |moments|
  {
    hide OpsOf, Run;
    var n := |moments| - 1;
    if k < n {
      OpsFrom(e, moments[..n], k);
      assert moments[..n][..k] == moments[..k];
    }
  }

  // ---------------------------------------------------------------- the data channel inside a run

  /** With keys, an arriving packet is opened, judged and delivered as on the data channel alone. */
  lemma TakeIsReceive(c: Config, e: Endpoint, d: Datagram, plaintext: seq<byte>)
    requires c.Valid() && c.keys.Some?
    ensures var turn, received := Take(c, e, d), DataChannel.Receive(c.keys.value.decrypt, c.suite, e.window, d.raw);
            && turn.after.window == received.window
            && ((turn.Return? && turn.result == Data(plaintext)) <==> received.outcome == DataChannel.Delivered(plaintext))
  {
    hide Parse, Reorder.Accept, Replay.Judge, DataCipher.Decrypt, SendAck, SendEach, Chunks, Suite.Seals;
    DataHeaderLength(d.raw);
  }

  function DataSends(moments: seq<Moment>): nat
  {
    if moments == [] then 0
    else DataSends(moments[..|moments| - 1]) + if moments[|moments| - 1].event.SendPacket? then 1 else 0
  }

  lemma StepCounter(e: Endpoint, m: Moment)
    requires m.config.Valid()
    ensures Step(e, m).sendCounter == if m.event.SendPacket? then Reorder.Successor(e.sendCounter) else e.sendCounter
  {
    hide Parse, Reorder.Accept, Replay.Judge, DataCipher.Decrypt, SendAck, SendEach, Chunks, Suite.Seals, DataRaw;
    if m.event.Arrive? { DataHeaderLength(m.event.datagram.raw); }
  }

  /** The n-th attempt to send data in a run uses the n-th counter, whatever happens between. */
  lemma {:induction false} CounterFollowsSends(e: Endpoint, moments: seq<Moment>)
    requires Valid(moments) && e.sendCounter == 0
    ensures Reorder.Successor(Run(e, moments).sendCounter) == DataChannel.Counter(DataSends(moments))
  {
    if moments != [] {
      hide Step;
      var n := |moments| - 1;
      CounterFollowsSends(e, moments[..n]);
      StepCounter(Run(e, moments[..n]), moments[n]);
      if moments[n].event.SendPacket? { NextCounter(DataSends(moments[..n])); }
    }
  }

  lemma NextCounter(n: nat)
    ensures Reorder.Successor(DataChannel.Counter(n)) == DataChannel.Counter(n + 1)
  {
  }

  /** One cipher and one suite have been in force on receiving throughout. */
  ghost predicate ReceivesWith(moments: seq<Moment>, dc: DataCipher, suite: Suite)
  {
    forall k :: 0 <= k < |moments| ==>
      var c := moments[k].config;
      c.Valid() && c.suite == suite && c.keys.Some? && c.keys.value.decrypt == dc
  }

  lemma StepWindow(e: Endpoint, m: Moment)
    requires m.config.Valid() && m.config.keys.Some?
    ensures Step(e, m).window
         == if m.event.Arrive?
            then DataChannel.Receive(m.config.keys.value.decrypt, m.config.suite, e.window, m.event.datagram.raw).window
            else e.window
  {
    hide Parse, Reorder.Accept, DataChannel.Open, DataChannel.Send, SendAck, SendEach, Chunks, Suite.Seals;
    if m.event.Arrive? { DataHeaderLength(m.event.datagram.raw); }
  }

  /** The packets that arrive in calls for data. */
  function DataRaws(moments: seq<Moment>): seq<seq<byte>>
  {
    if moments == [] then []
    else
      var last := moments[|moments| - 1].event;
      DataRaws(moments[..|moments| - 1]) + if last.Arrive? then [last.datagram.raw] else []
  }

  /** The window of an end is that of the data channel over the packets that arrive in calls for data. */
  lemma {:induction false} WindowIs(e: Endpoint, moments: seq<Moment>, dc: DataCipher, suite: Suite)
    requires dc.Valid() && Valid(moments) && ReceivesWith(moments, dc, suite) && e.window == Replay.EMPTY
    ensures Run(e, moments).window == DataChannel.WindowAfter(dc, suite, DataRaws(moments))
  {
    hide Step, DataChannel.Receive, Config.Valid;
    if moments != [] {
      var n := |moments| - 1;
      WindowIs(e, moments[..n], dc, suite);
      StepWindow(Run(e, moments[..n]), moments[n]);
      if moments[n].event.Arrive? {
        assert DataRaws(moments)[..|DataRaws(moments)| - 1] == DataRaws(moments[..n]);
      } else {
        assert DataRaws(moments) == DataRaws(moments[..n]);
      }
    }
  }

  /** What an end hands over at the `k`-th moment of a run. */
  function Gets(e: Endpoint, moments: seq<Moment>, k: nat): Option<seq<byte>>
    requires Valid(moments) && k < |moments|
  {
    if !moments[k].event.Arrive? then None
    else
      match Take(moments[k].config, Run(e, moments[..k]), moments[k].event.datagram)
      case Return(_, Data(plaintext)) => Some(plaintext)
      case _ => None
  }

  /** The place of the `k`-th moment's packet among those that arrive. */
  lemma {:induction false} ArrivalPlace(moments: seq<Moment>, k: nat)
    requires k < |moments| && moments[k].event.Arrive?
    ensures var i := |DataRaws(moments[..k])|;
            && i < |DataRaws(moments)| && DataRaws(moments)[i] == moments[k].event.datagram.raw
            && DataRaws(moments)[..i] == DataRaws(moments[..k])
    decreases |moments|
  {
    var n := |moments| - 1;
    if k < n {
      ArrivalPlace(moments[..n], k);
      assert moments[..n][..k] == moments[..k];
    }
  }

  lemma {:induction false} PlacesGrow(moments: seq<Moment>, j: nat, k: nat)
    requires j < k <= |moments| && moments[j].event.Arrive?
    ensures |DataRaws(moments[..j])| < |DataRaws(moments[..k])|
    decreases k
  {
    assert moments[..k][..k - 1] == moments[..k - 1];
    if j < k - 1 { PlacesGrow(moments, j, k - 1); }
  }

  /** An end hands over at each arrival what the data channel delivers there. */
  lemma GetsIsOutcome(e: Endpoint, moments: seq<Moment>, dc: DataCipher, suite: Suite, k: nat)
    requires dc.Valid() && Valid(moments) && ReceivesWith(moments, dc, suite) && e.window == Replay.EMPTY
    requires k < |moments| && moments[k].event.Arrive?
    ensures |DataRaws(moments[..k])| < |DataRaws(moments)|
    ensures var outcome := DataChannel.OutcomeAt(dc, suite, DataRaws(moments), |DataRaws(moments[..k])|);
            Gets(e, moments, k) == if outcome.Delivered? then Some(outcome.plaintext) else None
  {
    hide Take, Run, DataRaws, DataChannel.Receive, Config.Valid;
    var before := Run(e, moments[..k]);
    WindowIs(e, moments[..k], dc, suite);
    ArrivalPlace(moments, k);
    var outcome := DataChannel.OutcomeAt(dc, suite, DataRaws(moments), |DataRaws(moments[..k])|);
    var d := moments[k].event.datagram;
    TakeGets(moments[k].config, before, d);
  }

  lemma TakeGets(c: Config, e: Endpoint, d: Datagram)
    requires c.Valid() && c.keys.Some?
    ensures var turn, outcome := Take(c, e, d), DataChannel.Receive(c.keys.value.decrypt, c.suite, e.window, d.raw).outcome;
            if outcome.Delivered? then turn.Return? && turn.result == Data(outcome.plaintext)
            else turn.Return? ==> !turn.result.Data?
  {
    hide Parse, Reorder.Accept, DataChannel.Open, SendAck, SendEach, Chunks, Suite.Seals;
    DataHeaderLength(d.raw);
  }

  /**
   * In every run an end hands over a plaintext exactly when what arrives is authentic for it under an id
   * that is nonzero, new and inside the window.
   */
  lemma EndDeliversAuthentic(
    e: Endpoint, moments: seq<Moment>, dc: DataCipher, suite: Suite, k: nat, plaintext: seq<byte>)
    requires dc.Valid() && Valid(moments) && ReceivesWith(moments, dc, suite) && e.window == Replay.EMPTY
    requires k < |moments| && moments[k].event.Arrive?
    ensures Gets(e, moments, k) == Some(plaintext)
       <==> exists id :: && DataChannel.Authentic(dc, suite, moments[k].event.datagram.raw, id, plaintext)
                         && Replay.Acceptable(SeenBefore(moments, k, dc, suite), id)
  {
    hide Gets, Run, DataRaws, DataChannel.OutcomeAt, DataChannel.Authentic, DataChannel.SeenIds, Config.Valid, Replay.Acceptable;
    GetsIsOutcome(e, moments, dc, suite, k);
    ArrivalPlace(moments, k);
    DataChannel.DeliveredIsAuthentic(dc, suite, DataRaws(moments), |DataRaws(moments[..k])|, plaintext);
  }

  /** One that is authentic for nothing hands over nothing, and leaves the window as it was. */
  lemma ForgedIgnored(e: Endpoint, moments: seq<Moment>, dc: DataCipher, suite: Suite, k: nat)
    requires dc.Valid() && Valid(moments) && ReceivesWith(moments, dc, suite)
    requires k < |moments| && moments[k].event.Arrive?
    requires DataChannel.Forged(dc, suite, moments[k].event.datagram.raw)
    ensures Gets(e, moments, k) == None
    ensures Run(e, moments[..k + 1]).window == Run(e, moments[..k]).window
  {
    hide Step, Take, DataChannel.Receive, DataChannel.Forged, Config.Valid;
    var before, m := Run(e, moments[..k]), moments[k];
    assert moments[..k + 1][..k] == moments[..k];
    DataChannel.ForgedChangesNothing(dc, suite, before.window, m.event.datagram.raw);
    StepWindow(before, m);
    TakeGets(m.config, before, m.event.datagram);
  }

  /** In no run does an end hand over one packet twice, forged or not, whatever else happens in between. */
  lemma EndDeliversOnce(e: Endpoint, moments: seq<Moment>, dc: DataCipher, suite: Suite, j: nat, k: nat)
    requires dc.Valid() && Valid(moments) && ReceivesWith(moments, dc, suite) && e.window == Replay.EMPTY
    requires j < k < |moments| && moments[j].event.Arrive? && moments[k].event.Arrive?
    requires moments[j].event.datagram.raw == moments[k].event.datagram.raw && Gets(e, moments, j).Some?
    ensures Gets(e, moments, k) == None
  {
    hide Gets, Run, DataRaws, DataChannel.Receive, DataChannel.OutcomeAt, Config.Valid;
    GetsIsOutcome(e, moments, dc, suite, j);
    GetsIsOutcome(e, moments, dc, suite, k);
    ArrivalPlace(moments, j);
    ArrivalPlace(moments, k);
    PlacesGrow(moments, j, k);
    DataChannel.AtMostOnce(dc, suite, DataRaws(moments), |DataRaws(moments[..j])|, |DataRaws(moments[..k])|);
  }

  /** The packet that goes out at the `m`-th moment of a run. */
  function SentAt(e: Endpoint, moments: seq<Moment>, m: nat): seq<byte>
    requires Valid(moments) && m < |moments| && moments[m].event.SendPacket? && moments[m].config.keys.Some?
  {
    DataRaw(moments[m].config, Reorder.Successor(Run(e, moments[..m]).sendCounter), moments[m].event.plaintext,
            moments[m].event.iv)
  }

  /** The ids of the packets that have been handed over before the `k`-th moment. */
  ghost function SeenBefore(moments: seq<Moment>, k: nat, dc: DataCipher, suite: Suite): set<int>
    requires dc.Valid() && k < |moments| && moments[k].event.Arrive?
  {
    ArrivalPlace(moments, k);
    DataChannel.SeenIds(dc, suite, DataRaws(moments), |DataRaws(moments[..k])|)
  }

  /** The sender's settings match the receiver's cipher. */
  ghost predicate SendsWith(m: Moment, dc: DataCipher, suite: Suite)
  {
    var c := m.config;
    && m.event.SendPacket? && |m.event.iv| == IV_LEN
    && c.Valid() && c.suite == suite && suite.Encrypts() && c.keys.Some? && c.keys.value.encrypt == dc
    && c.aead == dc.cipher.IsAead()
  }

  /**
   * Two ends in any runs: a packet that the first sent, when it arrives at the second, is handed over
   * exactly when its number's counter is inside the window of what has been handed over, not there
   * yet, and not zero; and then as the plaintext that was sent.
   */
  lemma TwoEndsData(
    a: Endpoint, atA: seq<Moment>, m: nat, b: Endpoint, atB: seq<Moment>, k: nat, dc: DataCipher, suite: Suite)
    requires dc.Valid() && Valid(atA) && Valid(atB) && a.sendCounter == 0 && b.window == Replay.EMPTY
    requires m < |atA| && SendsWith(atA[m], dc, suite) && ReceivesWith(atB, dc, suite)
    requires k < |atB| && atB[k].event.Arrive? && atB[k].event.datagram.raw == SentAt(a, atA, m)
    ensures Gets(b, atB, k)
         == if Replay.Acceptable(SeenBefore(atB, k, dc, suite), DataChannel.Counter(DataSends(atA[..m])))
            then Some(atA[m].event.plaintext) else None
  {
    hide Gets, Run, DataRaws, DataSends, DataChannel.OutcomeAt, DataChannel.Opens, DataChannel.Send, DataChannel.SeenIds;
    hide Config.Valid, Replay.Acceptable, Reorder.Successor, DataChannel.Counter;
    var c := atA[m].config;
    var counter := DataChannel.Counter(DataSends(atA[..m]));
    CounterFollowsSends(a, atA[..m]);
    assert suite.Seals() by { SettingsSeal(c); }
    DataChannel.SentOpens(dc, suite, c.peer, counter, atA[m].event.plaintext, atA[m].event.iv);
    GetsIsOutcome(b, atB, dc, suite, k);
    ArrivalPlace(atB, k);
    DataChannel.DeliveredIff(dc, suite, DataRaws(atB), |DataRaws(atB[..k])|);
  }

  lemma SettingsSeal(c: Config)
    requires c.Valid()
    ensures c.suite.Seals()
  {
  }

  /** In any run the nonces of two packets coincide exactly when a multiple of 2^32 sends lies between them. */
  lemma NoncesInRun(e: Endpoint, moments: seq<Moment>, implicitIv: seq<byte>, m: nat, n: nat)
    requires Valid(moments) && e.sendCounter == 0 && m <= |moments| && n <= |moments|
    ensures AeadNonce(implicitIv, Reorder.Successor(Run(e, moments[..m]).sendCounter))
         == AeadNonce(implicitIv, Reorder.Successor(Run(e, moments[..n]).sendCounter))
       <==> DataSends(moments[..m]) % U32_SIZE == DataSends(moments[..n]) % U32_SIZE
  {
    hide Run, DataSends, AeadNonce, Reorder.Successor, DataChannel.Counter;
    CounterFollowsSends(e, moments[..m]);
    CounterFollowsSends(e, moments[..n]);
    DataChannel.NoncesRepeatIff(implicitIv, DataSends(moments[..m]), DataSends(moments[..n]));
  }
}
