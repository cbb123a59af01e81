/** The data channel from sender to receiver over a network that reorders, repeats and loses packets. */
module DataChannel {
  import opened Bytes
  import opened Packets
  import opened DataCiphers
  import Replay

  /** What the receiver makes of one packet. */
  datatype Outcome = Delivered(plaintext: seq<byte>) | Skipped | Failed(error: Error) | NotData | Crash

  datatype Received = Received(outcome: Outcome, window: Replay.Window)

  /** The counter of the `n`-th packet sent, counting from 0. */
  function Counter(n: nat): u32
  {
    (n + 1) % U32_SIZE
  }

  /** A data packet as it goes to the network, in the AEAD form or the other. */
  function Send(
    aead: bool, dc: DataCipher, suite: Suite, peer: u32, counter: u32, plaintext: seq<byte>, iv: seq<byte>): seq<byte>
    requires dc.Valid() && suite.Seals()
  {
    var header := DataHeader(aead, 0, peer) + U32(counter);
    header + dc.Encrypt(suite, header, counter, plaintext, iv)
  }

  /** A parsed data packet: opened, and judged by the window. */
  function Open(dc: DataCipher, suite: Suite, window: Replay.Window, packet: Packet): Received
    requires dc.Valid() && |packet.header| >= 4
  {
    match dc.Decrypt(suite, packet.header, packet.payload)
    case Failure(error) => Received(Failed(error), window)
    case Plain(id, plaintext) =>
      var verdict := Replay.Judge(window, id);
      Received(if verdict.ok then Delivered(plaintext) else Skipped, verdict.window)
  }

  function Receive(dc: DataCipher, suite: Suite, window: Replay.Window, raw: seq<byte>): Received
    requires dc.Valid()
  {
    match Parse(raw)
    case Panics => Received(Crash, window)
    case Rejected => Received(NotData, window)
    case Parsed(packet) =>
      if !IsData(packet.opcode) || |packet.header| < 4 then Received(NotData, window)
      else Open(dc, suite, window, packet)
  }

  /** What a packet opens to, whoever sent it. */
  function Opens(dc: DataCipher, suite: Suite, raw: seq<byte>): Opened
    requires dc.Valid()
  {
    match Parse(raw)
    case Parsed(packet) =>
      if !IsData(packet.opcode) || |packet.header| < 4 then Failure(ShortPacket)
      else dc.Decrypt(suite, packet.header, packet.payload)
    case _ => Failure(ShortPacket)
  }

  /** A packet either opens, and its id alone decides, or it changes nothing and delivers nothing. */
  lemma ReceiveIs(dc: DataCipher, suite: Suite, window: Replay.Window, raw: seq<byte>)
    requires dc.Valid()
    ensures match Opens(dc, suite, raw)
            case Plain(id, plaintext) =>
              var verdict := Replay.Judge(window, id);
              Receive(dc, suite, window, raw) == Received(if verdict.ok then Delivered(plaintext) else Skipped, verdict.window)
            case Failure(_) =>
              Receive(dc, suite, window, raw).window == window && !Receive(dc, suite, window, raw).outcome.Delivered?
  {
    hide Parse, DataCipher.Decrypt, Replay.Judge;
  }

  /**
   * What a datagram has to be to open, read off its bytes: a data packet with the opcode in the top five
   * bits, the counter at the end of its header, and a body that the primitives accept.
   */
  predicate Authentic(dc: DataCipher, suite: Suite, raw: seq<byte>, id: u32, plaintext: seq<byte>)
    requires dc.Valid()
  {
    if |raw| >= 8 && raw[0] / 8 == 9 then dc.OpensTo(suite, raw[..8], raw[8..], id, plaintext)
    else |raw| >= 5 && raw[0] / 8 == 6 && dc.OpensTo(suite, raw[..5], raw[5..], id, plaintext)
  }

  lemma OpensIff(dc: DataCipher, suite: Suite, raw: seq<byte>, id: u32, plaintext: seq<byte>)
    requires dc.Valid()
    ensures Opens(dc, suite, raw) == Plain(id, plaintext) <==> Authentic(dc, suite, raw, id, plaintext)
  {
    hide DataCipher.Decrypt, DataCipher.OpensTo, FromU32;
    if |raw| >= 8 && raw[0] / 8 == 9 {
      DecryptIs(dc, suite, raw[..8], raw[8..], id, plaintext);
    } else if |raw| >= 5 && raw[0] / 8 == 6 {
      DecryptIs(dc, suite, raw[..5], raw[5..], id, plaintext);
    }
  }

  /** No id and plaintext are what the datagram opens to. */
  ghost predicate Forged(dc: DataCipher, suite: Suite, raw: seq<byte>)
    requires dc.Valid()
  {
    forall id, plaintext :: !Authentic(dc, suite, raw, id, plaintext)
  }

  lemma ForgedOpensNot(dc: DataCipher, suite: Suite, raw: seq<byte>)
    requires dc.Valid()
    ensures Opens(dc, suite, raw).Failure? <==> Forged(dc, suite, raw)
  {
    hide Opens, Authentic;
    var result := Opens(dc, suite, raw);
    if result.Plain? {
      OpensIff(dc, suite, raw, result.id, result.plaintext);
    } else {
      forall id: u32, plaintext: seq<byte>
        ensures !Authentic(dc, suite, raw, id, plaintext)
      {
        OpensIff(dc, suite, raw, id, plaintext);
      }
    }
  }

  /** A datagram that is not authentic delivers nothing and leaves the window as it is. */
  lemma ForgedChangesNothing(dc: DataCipher, suite: Suite, window: Replay.Window, raw: seq<byte>)
    requires dc.Valid() && Forged(dc, suite, raw)
    ensures Receive(dc, suite, window, raw).window == window && !Receive(dc, suite, window, raw).outcome.Delivered?
  {
    hide Opens, Receive, Forged;
    ForgedOpensNot(dc, suite, raw);
    ReceiveIs(dc, suite, window, raw);
  }

  /** A packet of the matching sender opens to its counter and plaintext. */
  lemma SentOpens(
    dc: DataCipher, suite: Suite, peer: u32, counter: u32, plaintext: seq<byte>, iv: seq<byte>)
    requires dc.Valid() && suite.Seals() && suite.Encrypts() && |iv| == IV_LEN
    ensures Opens(dc, suite, Send(dc.cipher.IsAead(), dc, suite, peer, counter, plaintext, iv)) == Plain(counter, plaintext)
  {
    hide Parse, U32, DataHeader, DataCipher.Encrypt, DataCipher.Decrypt;
    var aead := dc.cipher.IsAead();
    var header := DataHeader(aead, 0, peer) + U32(counter);
    var body := dc.Encrypt(suite, header, counter, plaintext, iv);
    DataRoundTrip(aead, 0, peer, counter, body);
    DecryptUndoesEncrypt(dc, suite, DataHeader(aead, 0, peer), counter, plaintext, iv);
  }

  /** The opcode, three bytes of the peer id in the AEAD form, the counter, and the sealed plaintext. */
  predicate IsSent(
    aead: bool, dc: DataCipher, suite: Suite, peer: u32, counter: u32, plaintext: seq<byte>, iv: seq<byte>,
    raw: seq<byte>)
    requires dc.Valid()
  {
    var n := if aead then 8 else 5;
    && |raw| >= n && raw[0] as int == (if aead then 72 else 48)
    && (aead ==> (raw[1] as int) * 0x1_0000 + (raw[2] as int) * 0x100 + raw[3] == peer % 0x100_0000)
    && WordAt(raw, n - 4) == counter && dc.IsSealed(suite, raw[..n], counter, plaintext, iv, raw[n..])
  }

  lemma SendLayout(
    aead: bool, dc: DataCipher, suite: Suite, peer: u32, counter: u32, plaintext: seq<byte>, iv: seq<byte>)
    requires dc.Valid() && suite.Seals() && suite.Encrypts()
    ensures IsSent(aead, dc, suite, peer, counter, plaintext, iv, Send(aead, dc, suite, peer, counter, plaintext, iv))
  {
    hide U32, DataHeader, DataCipher.Encrypt, DataCipher.IsSealed, WordAt;
    var header := DataHeader(aead, 0, peer) + U32(counter);
    var body := dc.Encrypt(suite, header, counter, plaintext, iv);
    var raw := Send(aead, dc, suite, peer, counter, plaintext, iv);
    EncryptIs(dc, suite, header, counter, plaintext, iv);
    DataLayout(aead, 0, peer, counter, body);
    assert raw == DataMessage(aead, 0, peer, counter, body);
    assert raw[..|header|] == header && raw[|header|..] == body;
  }

  /** It is decided by its counter alone. */
  lemma ReceiveSent(
    dc: DataCipher, suite: Suite, window: Replay.Window, peer: u32, counter: u32, plaintext: seq<byte>, iv: seq<byte>)
    requires dc.Valid() && suite.Seals() && suite.Encrypts() && |iv| == IV_LEN
    ensures var verdict := Replay.Judge(window, counter);
            var outcome := if verdict.ok then Delivered(plaintext) else Skipped;
            var raw := Send(dc.cipher.IsAead(), dc, suite, peer, counter, plaintext, iv);
            Receive(dc, suite, window, raw) == Received(outcome, verdict.window)
  {
    hide Send, Receive, Opens, Replay.Judge;
    SentOpens(dc, suite, peer, counter, plaintext, iv);
    ReceiveIs(dc, suite, window, Send(dc.cipher.IsAead(), dc, suite, peer, counter, plaintext, iv));
  }

  // ---------------------------------------------------------------- any datagrams

  /** The window after these datagrams, genuine, forged or of another kind. */
  function WindowAfter(dc: DataCipher, suite: Suite, raws: seq<seq<byte>>): Replay.Window
    requires dc.Valid()
  {
    if raws == [] then Replay.EMPTY
    else
      var last := |raws| - 1;
      Receive(dc, suite, WindowAfter(dc, suite, raws[..last]), raws[last]).window
  }

  /** What the `k`-th of them yields. */
  function OutcomeAt(dc: DataCipher, suite: Suite, raws: seq<seq<byte>>, k: nat): Outcome
    requires dc.Valid() && k < |raws|
  {
    Receive(dc, suite, WindowAfter(dc, suite, raws[..k]), raws[k]).outcome
  }

  function IdOf(dc: DataCipher, suite: Suite, raw: seq<byte>): u32
    requires dc.Valid()
  {
    match Opens(dc, suite, raw)
    case Plain(id, _) => id
    case Failure(_) => 0
  }

  /** The packet ids delivered by the first `n`. */
  ghost function SeenIds(dc: DataCipher, suite: Suite, raws: seq<seq<byte>>, n: nat): set<int>
    requires dc.Valid() && n <= |raws|
  {
    set k | 0 <= k < n && OutcomeAt(dc, suite, raws, k).Delivered? :: IdOf(dc, suite, raws[k]) as int
  }

  lemma SeenOneMore(dc: DataCipher, suite: Suite, raws: seq<seq<byte>>, n: nat)
    requires dc.Valid() && n < |raws|
    ensures SeenIds(dc, suite, raws, n + 1)
         == SeenIds(dc, suite, raws, n)
          + if OutcomeAt(dc, suite, raws, n).Delivered? then {IdOf(dc, suite, raws[n]) as int} else {}
  {
    hide OutcomeAt, IdOf;
  }

  lemma {:induction false} WindowTracks(dc: DataCipher, suite: Suite, raws: seq<seq<byte>>, n: nat)
    requires dc.Valid() && n <= |raws|
    ensures Replay.Tracks(WindowAfter(dc, suite, raws[..n]), SeenIds(dc, suite, raws, n))
  {
    hide Receive, Opens, Replay.Judge, Replay.Tracks;
    if n == 0 {
      Replay.EmptyTracks();
      assert SeenIds(dc, suite, raws, 0) == {};
    } else {
      var before, seen := WindowAfter(dc, suite, raws[..n - 1]), SeenIds(dc, suite, raws, n - 1);
      WindowTracks(dc, suite, raws, n - 1);
      assert raws[..n][..n - 1] == raws[..n - 1];
      SeenOneMore(dc, suite, raws, n - 1);
      ReceiveIs(dc, suite, before, raws[n - 1]);
      if Opens(dc, suite, raws[n - 1]).Plain? {
        Replay.AcceptRefinesSet(before, seen, Opens(dc, suite, raws[n - 1]).id);
      }
      assert seen + {} == seen;
    }
  }

  /**
   * Whatever has arrived, a packet that opens is delivered exactly when its id is nonzero, has not been
   * delivered, and is less than 64 below every id delivered; otherwise it is skipped.
   */
  lemma DeliveredIff(dc: DataCipher, suite: Suite, raws: seq<seq<byte>>, k: nat)
    requires dc.Valid() && k < |raws| && Opens(dc, suite, raws[k]).Plain?
    ensures OutcomeAt(dc, suite, raws, k)
         == if Replay.Acceptable(SeenIds(dc, suite, raws, k), Opens(dc, suite, raws[k]).id)
            then Delivered(Opens(dc, suite, raws[k]).plaintext) else Skipped
  {
    hide Receive, Opens, Replay.Judge, Replay.Tracks, Replay.Acceptable, SeenIds;
    WindowTracks(dc, suite, raws, k);
    var before := WindowAfter(dc, suite, raws[..k]);
    ReceiveIs(dc, suite, before, raws[k]);
    Replay.AcceptRefinesSet(before, SeenIds(dc, suite, raws, k), Opens(dc, suite, raws[k]).id);
  }

  /** No two packets with one id, and so no packet twice, are delivered: forged ones included. */
  lemma AtMostOnce(dc: DataCipher, suite: Suite, raws: seq<seq<byte>>, j: nat, k: nat)
    requires dc.Valid() && j < k < |raws| && OutcomeAt(dc, suite, raws, j).Delivered?
    ensures Opens(dc, suite, raws[j]).Plain?
    ensures Opens(dc, suite, raws[k]).Plain? && IdOf(dc, suite, raws[j]) == IdOf(dc, suite, raws[k])
        ==> OutcomeAt(dc, suite, raws, k) == Skipped
    ensures raws[j] == raws[k] ==> OutcomeAt(dc, suite, raws, k) == Skipped
  {
    hide Receive, Opens, Replay.Judge;
    ReceiveIs(dc, suite, WindowAfter(dc, suite, raws[..j]), raws[j]);
    assert IdOf(dc, suite, raws[j]) as int in SeenIds(dc, suite, raws, k);
    if Opens(dc, suite, raws[k]).Plain? { DeliveredIff(dc, suite, raws, k); }
  }

  /**
   * Among any datagrams, one hands over a plaintext exactly when it is authentic for that plaintext under
   * an id that is nonzero, new and less than 64 below every id delivered before.
   */
  lemma DeliveredIsAuthentic(dc: DataCipher, suite: Suite, raws: seq<seq<byte>>, k: nat, plaintext: seq<byte>)
    requires dc.Valid() && k < |raws|
    ensures OutcomeAt(dc, suite, raws, k) == Delivered(plaintext)
       <==> exists id :: Authentic(dc, suite, raws[k], id, plaintext) && Replay.Acceptable(SeenIds(dc, suite, raws, k), id)
  {
    hide Receive, Opens, Authentic, Replay.Acceptable, SeenIds, Forged;
    var result := Opens(dc, suite, raws[k]);
    if result.Plain? {
      DeliveredIff(dc, suite, raws, k);
      OpensIff(dc, suite, raws[k], result.id, result.plaintext);
    } else {
      ForgedOpensNot(dc, suite, raws[k]);
      ForgedChangesNothing(dc, suite, WindowAfter(dc, suite, raws[..k]), raws[k]);
    }
    forall id: u32 | Authentic(dc, suite, raws[k], id, plaintext)
      ensures result == Plain(id, plaintext)
    {
      OpensIff(dc, suite, raws[k], id, plaintext);
    }
  }

  /** Forged datagrams might as well not have come: the window after a run is that of the authentic ones alone. */
  lemma {:induction false} ForgedMightNotHaveCome(dc: DataCipher, suite: Suite, raws: seq<seq<byte>>)
    requires dc.Valid()
    ensures WindowAfter(dc, suite, raws) == WindowAfter(dc, suite, Genuine(dc, suite, raws))
    decreases |raws|
  {
    hide Receive, Forged;
    if raws != [] {
      var last := |raws| - 1;
      var front := Genuine(dc, suite, raws[..last]);
      ForgedMightNotHaveCome(dc, suite, raws[..last]);
      if Forged(dc, suite, raws[last]) {
        ForgedChangesNothing(dc, suite, WindowAfter(dc, suite, raws[..last]), raws[last]);
        assert front + [] == front;
      } else {
        assert (front + [raws[last]])[..|front|] == front;
      }
    }
  }

  ghost function Genuine(dc: DataCipher, suite: Suite, raws: seq<seq<byte>>): seq<seq<byte>>
    requires dc.Valid()
    decreases |raws|
  {
    if raws == [] then []
    else
      var last := |raws| - 1;
      Genuine(dc, suite, raws[..last]) + if Forged(dc, suite, raws[last]) then [] else [raws[last]]
  }

  // ---------------------------------------------------------------- whole runs

  /** What is sent: the plaintexts in order, and the random vector of each packet. */
  datatype Session = Session(dc: DataCipher, suite: Suite, peer: u32, plaintexts: seq<seq<byte>>, ivs: seq<seq<byte>>)
  {
    ghost predicate Valid()
    {
      && dc.Valid() && suite.Seals() && suite.Encrypts()
      && |ivs| == |plaintexts| && (forall iv :: iv in ivs ==> |iv| == IV_LEN)
    }

    /** The numbers are those of packets that were sent. */
    predicate Sent(arrivals: seq<nat>)
    {
      forall k :: 0 <= k < |arrivals| ==> arrivals[k] < |plaintexts|
    }

    function Packet(n: nat): seq<byte>
      requires n < |plaintexts| == |ivs| && dc.Valid() && suite.Seals()
    {
      Send(dc.cipher.IsAead(), dc, suite, peer, Counter(n), plaintexts[n], ivs[n])
    }

    function Wire(arrivals: seq<nat>): (raws: seq<seq<byte>>)
      requires |plaintexts| == |ivs| && dc.Valid() && suite.Seals()
      requires Sent(arrivals)
      ensures |raws| == |arrivals| && forall k :: 0 <= k < |raws| ==> raws[k] == Packet(arrivals[k])
    {
      seq(|arrivals|, k requires 0 <= k < |arrivals| => Packet(arrivals[k]))
    }

    /** The window after the packets with these numbers have arrived, in this order. */
    function After(arrivals: seq<nat>): Replay.Window
      requires |plaintexts| == |ivs| && dc.Valid() && suite.Seals()
      requires Sent(arrivals)
    {
      WindowAfter(dc, suite, Wire(arrivals))
    }

    /** What the `k`-th arrival yields. */
    function Outcome(arrivals: seq<nat>, k: nat): Outcome
      requires |plaintexts| == |ivs| && dc.Valid() && suite.Seals()
      requires k < |arrivals| && Sent(arrivals)
    {
      OutcomeAt(dc, suite, Wire(arrivals), k)
    }
  }

  function Counters(arrivals: seq<nat>): (counters: seq<u32>)
    ensures |counters| == |arrivals|
    ensures forall k :: 0 <= k < |arrivals| ==> counters[k] == Counter(arrivals[k])
  {
    seq(|arrivals|, k requires 0 <= k < |arrivals| => Counter(arrivals[k]))
  }

  lemma {:induction false} RunFollowsCounters(s: Session, arrivals: seq<nat>)
    requires s.Valid() && s.Sent(arrivals)
    ensures s.After(arrivals) == Replay.Run(Replay.EMPTY, Counters(arrivals))
    decreases |arrivals|
  {
    hide Receive, Send, Replay.Judge, Counter;
    if arrivals != [] {
      var last := |arrivals| - 1;
      var front := arrivals[..last];
      assert Counters(arrivals)[..last] == Counters(front);
      assert s.Wire(arrivals)[..last] == s.Wire(front);
      var n := arrivals[last];
      assert s.ivs[n] in s.ivs;
      RunFollowsCounters(s, front);
      ReceiveSent(s.dc, s.suite, s.After(front), s.peer, Counter(n), s.plaintexts[n], s.ivs[n]);
    }
  }

  /** An arrival yields its plaintext when the window accepts its counter, and nothing otherwise. */
  lemma OutcomeIs(s: Session, arrivals: seq<nat>, k: nat)
    requires s.Valid() && k < |arrivals| && s.Sent(arrivals)
    ensures s.Outcome(arrivals, k)
         == if Replay.Accepted(Counters(arrivals), k) then Delivered(s.plaintexts[arrivals[k]]) else Skipped
  {
    hide Receive, Send, Replay.Judge, Counter, Replay.Run, WindowAfter;
    var n := arrivals[k];
    assert s.ivs[n] in s.ivs;
    assert Counters(arrivals)[..k] == Counters(arrivals[..k]);
    assert s.Wire(arrivals)[..k] == s.Wire(arrivals[..k]);
    RunFollowsCounters(s, arrivals[..k]);
    ReceiveSent(s.dc, s.suite, s.After(arrivals[..k]), s.peer, Counter(n), s.plaintexts[n], s.ivs[n]);
  }

  /** The window has seen the counters of exactly the packets delivered so far. */
  lemma SeenIsDelivered(s: Session, arrivals: seq<nat>, k: nat)
    requires s.Valid() && k <= |arrivals| && s.Sent(arrivals) && |s.plaintexts| < U32_SIZE
    ensures Replay.Seen(Counters(arrivals), k)
         == set j | 0 <= j < k && s.Outcome(arrivals, j).Delivered? :: arrivals[j] + 1
  {
    hide Receive, Replay.Accepted, Session.Outcome, Counter;
    forall j | 0 <= j < k
      ensures s.Outcome(arrivals, j).Delivered? <==> Replay.Accepted(Counters(arrivals), j)
      ensures Counters(arrivals)[j] == arrivals[j] + 1
    {
      OutcomeIs(s, arrivals, j);
      CounterBelow(s, arrivals, j);
    }
  }

  /**
   * A first arrival is delivered exactly when every packet delivered before it was sent less than
   * 64 packets after it.
   */
  lemma FirstArrivalDelivered(s: Session, arrivals: seq<nat>, k: nat)
    requires s.Valid() && k < |arrivals| && s.Sent(arrivals)
    requires |s.plaintexts| < U32_SIZE
    requires forall j :: 0 <= j < k ==> arrivals[j] != arrivals[k]
    ensures s.Outcome(arrivals, k) == Delivered(s.plaintexts[arrivals[k]])
       <==> forall j :: 0 <= j < k && s.Outcome(arrivals, j).Delivered? ==> arrivals[j] < arrivals[k] + Replay.WINDOW
  {
    hide Receive, Replay.Accepted, Replay.Seen, Session.Outcome, Counter, Counters;
    OutcomeIs(s, arrivals, k);
    CounterBelow(s, arrivals, k);
    Replay.AcceptedIff(Counters(arrivals), k);
    SeenIsDelivered(s, arrivals, k);
    var seen := Replay.Seen(Counters(arrivals), k);
    forall j | 0 <= j < k && s.Outcome(arrivals, j).Delivered?
      ensures arrivals[j] + 1 in seen
    {
    }
  }

  lemma CounterBelow(s: Session, arrivals: seq<nat>, k: nat)
    requires k < |arrivals| && s.Sent(arrivals) && |s.plaintexts| < U32_SIZE
    ensures Counters(arrivals)[k] == arrivals[k] + 1
  {
  }

  lemma CounterIs(n: nat)
    ensures Counter(n) == if n % U32_SIZE == U32_SIZE - 1 then 0 else n % U32_SIZE + 1
  {
  }

  /** The nonces of two packets coincide exactly when a multiple of 2^32 packets was sent in between. */
  lemma NoncesRepeatIff(implicitIv: seq<byte>, m: nat, n: nat)
    ensures AeadNonce(implicitIv, Counter(m)) == AeadNonce(implicitIv, Counter(n)) <==> m % U32_SIZE == n % U32_SIZE
  {
    hide AeadNonce, Counter;
    NonceIdentifiesPacket(implicitIv, Counter(m), Counter(n));
    CounterIs(m);
    CounterIs(n);
  }
}
