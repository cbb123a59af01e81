/** The stream a server sends, as sections 4.2 and 6 of RFC 4253 frame it, and what becomes of it. */
module OsshServer {
  import opened Bytes
  import opened Rc4Cipher
  import opened OsshPacket
  import opened OsshRead
  import opened OsshDelivery
  import opened Transducer

  /** A line whose only CR LF is at its end. */
  predicate IsLine(line: seq<byte>)
  {
    && |line| <= MAX_LINE
    && EndsLine(line)
    && forall n :: 0 <= n < |line| ==> !EndsLine(line[..n])
  }

  predicate IsPacket(packet: seq<byte>)
  {
    |packet| >= 5 && LengthOk(PacketLength(packet)) && |packet| == PacketLength(packet) + 4
  }

  datatype ServerStream = ServerStream(
    notices: seq<seq<byte>>, banner: seq<byte>, packets: seq<seq<byte>>, newKeys: seq<byte>, tail: seq<byte>)
  {
    /** Lines before the identification line, the line itself, packets, and the first NEWKEYS. */
    predicate Valid()
    {
      && (forall line :: line in notices ==> IsLine(line) && !(BANNER_START <= line))
      && IsLine(banner) && BANNER_START <= banner
      && (forall packet :: packet in packets ==> IsPacket(packet) && !IsNewKeys(packet))
      && IsPacket(newKeys) && IsNewKeys(newKeys)
    }

    function Secret(): seq<byte>
    {
      Flatten(notices) + (banner + (Flatten(packets) + newKeys))
    }

    /** On the wire: one cipher run up to and including NEWKEYS, then bytes in clear. */
    function Wire(cipher: Rc4State): seq<byte>
    {
      Apply(cipher, Secret()) + tail
    }

    /** What the SSH client above is to see. */
    function Delivery(): seq<byte>
      requires Valid()
    {
      banner + (Renormalized(packets) + Normalized(newKeys)) + tail
    }
  }

  function Renormalized(packets: seq<seq<byte>>): seq<byte>
    requires forall packet :: packet in packets ==> IsPacket(packet)
  {
    if packets == [] then []
    else
      assert IsPacket(packets[0]);
      Normalized(packets[0]) + Renormalized(packets[1..])
  }

  lemma ApplyHead(cipher: Rc4State, plain: seq<byte>)
    requires plain != []
    ensures Apply(cipher, plain) == [Xor(plain[0], KeyByte(cipher))] + Apply(Next(cipher), plain[1..])
    ensures Xor(Apply(cipher, plain)[0], KeyByte(cipher)) == plain[0]
  {
    XorUndo(plain[0], KeyByte(cipher));
  }

  lemma {:induction false} FeedOpenLine(done: seq<byte>, cipher: Rc4State, more: seq<byte>)
    requires |done + more| <= MAX_LINE
    requires forall n :: |done| < n <= |done + more| ==> !EndsLine((done + more)[..n])
    ensures Feed(Machine(Banner(done), cipher), Apply(cipher, more))
         == Ran(Machine(Banner(done + more), Advance(cipher, |more|)), [])
    decreases |more|
  {
    if more == [] {
      assert done + more == done;
    } else {
      var next := done + more[..1];
      assert next + more[1..] == done + more;
      assert (done + more)[..|next|] == next;
      ApplyHead(cipher, more);
      assert more[..1] == [more[0]];
      FeedOpenLine(next, Next(cipher), more[1..]);
      assert Apply(cipher, more)[1..] == Apply(Next(cipher), more[1..]);
      assert BannerByte(done, more[0]) == (Banner(next), []);
    }
  }

  // ---------------------------------------------------------------- reading without skips

  /** Every byte is read as part of a line, a packet or clear text, with this outcome. */
  ghost predicate Reads(m: Machine, wire: seq<byte>, m': Machine, out: seq<byte>)
  {
    Feed(m, wire) == Ran(m', out) && NoSkips(m, wire)
  }

  lemma ReadsThen(m: Machine, x: seq<byte>, m1: Machine, out1: seq<byte>, y: seq<byte>, m2: Machine, out2: seq<byte>)
    requires Reads(m, x, m1, out1) && Reads(m1, y, m2, out2)
    ensures Reads(m, x + y, m2, out1 + out2)
  {
    hide Feed, SkipAt;
    FeedConcat(m, x, y);
    forall n: nat | SkipAt(m, x + y, n)
      ensures false
    {
      if n <= |x| { SkipInFirst(m, x, y, n); } else { SkipInSecond(m, x, y, n); }
    }
  }

  /** Reading the encryption of `x + y` in two steps. */
  lemma SecretThen(m: Machine, x: seq<byte>, m1: Machine, out1: seq<byte>, y: seq<byte>, m2: Machine, out2: seq<byte>)
    requires Reads(m, Apply(m.cipher, x), m1, out1)
    requires Reads(m1, Apply(Advance(m.cipher, |x|), y), m2, out2)
    ensures Reads(m, Apply(m.cipher, x + y), m2, out1 + out2)
  {
    hide Reads;
    ApplyConcat(m.cipher, x, y);
    ReadsThen(m, Apply(m.cipher, x), m1, out1, Apply(Advance(m.cipher, |x|), y), m2, out2);
  }

  lemma ReadsNothing(m: Machine)
    ensures Reads(m, Apply(m.cipher, []), m, []) && Advance(m.cipher, 0) == m.cipher
  {
  }

  /** Encrypting the beginning gives the beginning of the encryption. */
  lemma ApplyFront(cipher: Rc4State, plain: seq<byte>, n: nat)
    requires n <= |plain|
    ensures n <= |Apply(cipher, plain)| && Apply(cipher, plain)[..n] == Apply(cipher, plain[..n])
  {
    assert plain == plain[..n] + plain[n..];
    ApplyConcat(cipher, plain[..n], plain[n..]);
  }

  // ---------------------------------------------------------------- lines

  lemma LineLastByte(front: seq<byte>, cipher: Rc4State, c: byte, line: seq<byte>)
    requires line == front + [Xor(c, KeyByte(cipher))] && |line| <= MAX_LINE && EndsLine(line)
    ensures Feed(Machine(Banner(front), cipher), [c])
         == if BANNER_START <= line then Ran(Machine(Packets([]), Next(cipher)), line)
            else Ran(Machine(Banner([]), Next(cipher)), [])
  {
    FeedOne(Machine(Banner(front), cipher), c);
  }

  lemma FeedLineFront(line: seq<byte>, cipher: Rc4State, n: nat)
    requires IsLine(line) && n < |line|
    ensures Feed(Machine(Banner([]), cipher), Apply(cipher, line[..n]))
         == Ran(Machine(Banner(line[..n]), Advance(cipher, n)), [])
  {
    var front := line[..n];
    forall k | 0 < k <= n
      ensures !EndsLine(([] + front)[..k])
    {
      assert ([] + front)[..k] == line[..k];
    }
    assert [] + front == front;
    FeedOpenLine([], cipher, front);
  }

  lemma LineHasNoSkips(line: seq<byte>, cipher: Rc4State)
    requires IsLine(line)
    ensures NoSkips(Machine(Banner([]), cipher), Apply(cipher, line))
  {
    hide Feed, IsLine, Advance, LengthOk, PacketLength, Xor, KeyByte;
    forall n: nat | 0 < n <= |line|
      ensures !SkipAt(Machine(Banner([]), cipher), Apply(cipher, line), n)
    {
      ApplyFront(cipher, line, n - 1);
      FeedLineFront(line, cipher, n - 1);
    }
  }

  lemma FeedLine(line: seq<byte>, cipher: Rc4State)
    requires IsLine(line)
    ensures Feed(Machine(Banner([]), cipher), Apply(cipher, line))
         == if BANNER_START <= line then Ran(Machine(Packets([]), Advance(cipher, |line|)), line)
            else Ran(Machine(Banner([]), Advance(cipher, |line|)), [])
  {
    hide Feed, Xor, KeyByte, Next, Apply, Advance, IsLine;
    LineEnds(line, cipher);
    var n := |line| - 1;
    var middle := Advance(cipher, n);
    var c := Apply(cipher, line)[n];
    FeedLineFront(line, cipher, n);
    LineLastByte(line[..n], middle, c, line);
    FeedConcat(Machine(Banner([]), cipher), Apply(cipher, line[..n]), [c]);
    AdvanceLast(cipher, n);
  }

  lemma LineEnds(line: seq<byte>, cipher: Rc4State)
    requires IsLine(line)
    ensures 2 <= |line| <= MAX_LINE && EndsLine(line) && |Apply(cipher, line)| == |line|
    ensures var n := |line| - 1;
            var c := Apply(cipher, line)[n];
            && Apply(cipher, line) == Apply(cipher, line[..n]) + [c]
            && line == line[..n] + [Xor(c, KeyByte(Advance(cipher, n)))]
  {
    hide Xor, KeyByte, Apply, Advance;
    var n := |line| - 1;
    assert line == line[..n] + [line[n]];
    ApplyLast(cipher, line[..n], line[n]);
    XorUndo(line[n], KeyByte(Advance(cipher, n)));
    ApplyFront(cipher, line, n);
    ApplyFront(cipher, line, |line|);
  }

  lemma LineReads(line: seq<byte>, cipher: Rc4State)
    requires IsLine(line)
    ensures if BANNER_START <= line
            then Reads(Machine(Banner([]), cipher), Apply(cipher, line), Machine(Packets([]), Advance(cipher, |line|)), line)
            else Reads(Machine(Banner([]), cipher), Apply(cipher, line), Machine(Banner([]), Advance(cipher, |line|)), [])
  {
    hide Feed, IsLine, Apply, Advance, NoSkips;
    FeedLine(line, cipher);
    LineHasNoSkips(line, cipher);
  }

  lemma {:induction false} NoticesRead(notices: seq<seq<byte>>, cipher: Rc4State)
    requires forall line :: line in notices ==> IsLine(line) && !(BANNER_START <= line)
    ensures Reads(Machine(Banner([]), cipher), Apply(cipher, Flatten(notices)),
                  Machine(Banner([]), Advance(cipher, |Flatten(notices)|)), [])
    decreases |notices|
  {
    hide Reads, IsLine, Apply, Advance;
    if notices == [] {
      ReadsNothing(Machine(Banner([]), cipher));
    } else {
      var line, rest := notices[0], Flatten(notices[1..]);
      var later := Advance(cipher, |line|);
      var m := Machine(Banner([]), Advance(later, |rest|));
      LineReads(line, cipher);
      NoticesRead(notices[1..], later);
      SecretThen(Machine(Banner([]), cipher), line, Machine(Banner([]), later), [], rest, m, []);
      AdvanceAdd(cipher, |line|, |rest|);
      var none: seq<byte> := [];
      assert none + none == none;
    }
  }

  // ---------------------------------------------------------------- packets

  lemma FeedPacketFront(packet: seq<byte>, cipher: Rc4State, n: nat)
    requires IsPacket(packet) && n < |packet|
    ensures Feed(Machine(Packets([]), cipher), Apply(cipher, packet[..n]))
         == Ran(Machine(Packets(packet[..n]), Advance(cipher, n)), [])
  {
    hide Feed, Apply, Advance, Word;
    var front := packet[..n];
    ApplyUndo(cipher, front);
    ApplyFront(cipher, front, n);
    assert [] + front == front;
    assert Incomplete(front) by { if n >= 5 { assert front[..4] == packet[..4]; } }
    FeedIncomplete([], cipher, Apply(cipher, front));
  }

  lemma PacketHasNoSkips(packet: seq<byte>, cipher: Rc4State)
    requires IsPacket(packet)
    ensures NoSkips(Machine(Packets([]), cipher), Apply(cipher, packet))
  {
    forall n: nat | 0 < n <= |packet|
      ensures !SkipAt(Machine(Packets([]), cipher), Apply(cipher, packet), n)
    {
      PacketNoSkipAt(packet, cipher, n);
    }
    ApplyFront(cipher, packet, |packet|);
  }

  lemma PacketNoSkipAt(packet: seq<byte>, cipher: Rc4State, n: nat)
    requires IsPacket(packet) && 0 < n <= |packet|
    ensures !SkipAt(Machine(Packets([]), cipher), Apply(cipher, packet), n)
  {
    hide Feed, Xor, KeyByte, Apply, Advance, Word;
    ApplyFront(cipher, packet, n - 1);
    FeedPacketFront(packet, cipher, n - 1);
    if n == 5 {
      var front := packet[..4];
      assert packet[..5] == front + [packet[4]];
      ApplyFront(cipher, packet, 5);
      ApplyLast(cipher, front, packet[4]);
      ApplyFront(cipher, front, 4);
      XorUndo(packet[4], KeyByte(Advance(cipher, 4)));
      var before := Feed(Machine(Packets([]), cipher), Apply(cipher, packet)[..4]).state;
      assert Apply(cipher, packet)[4] == Apply(cipher, packet)[..5][4];
      assert before.core.partial + [Xor(Apply(cipher, packet)[4], KeyByte(before.cipher))] == packet[..5];
      assert packet[..5][..4] == packet[..4];
    }
  }

  lemma PacketReads(packet: seq<byte>, cipher: Rc4State)
    requires IsPacket(packet)
    ensures Reads(Machine(Packets([]), cipher), Apply(cipher, packet),
                  Machine(if IsNewKeys(packet) then Clear else Packets([]), Advance(cipher, |packet|)), Normalized(packet))
  {
    hide Feed, Normalized, NoSkips;
    ApplyUndo(cipher, packet);
    assert [] + packet == packet;
    FeedPacket([], cipher, Apply(cipher, packet), packet);
    PacketHasNoSkips(packet, cipher);
  }

  lemma {:induction false} PacketsRead(packets: seq<seq<byte>>, cipher: Rc4State)
    requires forall packet :: packet in packets ==> IsPacket(packet) && !IsNewKeys(packet)
    ensures Reads(Machine(Packets([]), cipher), Apply(cipher, Flatten(packets)),
                  Machine(Packets([]), Advance(cipher, |Flatten(packets)|)), Renormalized(packets))
    decreases |packets|
  {
    hide Reads, Normalized, IsNewKeys, PacketLength, Apply, Advance;
    if packets == [] {
      ReadsNothing(Machine(Packets([]), cipher));
    } else {
      var packet, rest := packets[0], Flatten(packets[1..]);
      var later := Advance(cipher, |packet|);
      var m := Machine(Packets([]), Advance(later, |rest|));
      PacketReads(packet, cipher);
      PacketsRead(packets[1..], later);
      SecretThen(Machine(Packets([]), cipher), packet, Machine(Packets([]), later), Normalized(packet),
                 rest, m, Renormalized(packets[1..]));
      AdvanceAdd(cipher, |packet|, |rest|);
    }
  }

  lemma ExchangeReads(packets: seq<seq<byte>>, newKeys: seq<byte>, cipher: Rc4State)
    requires forall packet :: packet in packets ==> IsPacket(packet) && !IsNewKeys(packet)
    requires IsPacket(newKeys) && IsNewKeys(newKeys)
    ensures Reads(Machine(Packets([]), cipher), Apply(cipher, Flatten(packets) + newKeys),
                  Machine(Clear, Advance(cipher, |Flatten(packets) + newKeys|)),
                  Renormalized(packets) + Normalized(newKeys))
  {
    hide Reads, Normalized, Renormalized, PacketLength, IsNewKeys, Flatten, Apply, Advance;
    var c := Flatten(packets);
    var later := Advance(cipher, |c|);
    PacketsRead(packets, cipher);
    PacketReads(newKeys, later);
    SecretThen(Machine(Packets([]), cipher), c, Machine(Packets([]), later), Renormalized(packets),
               newKeys, Machine(Clear, Advance(later, |newKeys|)), Normalized(newKeys));
    AdvanceAdd(cipher, |c|, |newKeys|);
  }

  // ---------------------------------------------------------------- whole streams

  lemma SecretReads(s: ServerStream, cipher: Rc4State)
    requires s.Valid()
    ensures Reads(Start(cipher), Apply(cipher, s.Secret()), Machine(Clear, Advance(cipher, |s.Secret()|)),
                  s.banner + (Renormalized(s.packets) + Normalized(s.newKeys)))
  {
    hide Reads, Normalized, Renormalized, IsLine, IsNewKeys, Flatten, Apply, Advance;
    var a, b, c := Flatten(s.notices), s.banner, Flatten(s.packets) + s.newKeys;
    var c1 := Advance(cipher, |a|);
    var c2 := Advance(c1, |b|);
    var end := Machine(Clear, Advance(c2, |c|));
    var out := Renormalized(s.packets) + Normalized(s.newKeys);
    NoticesRead(s.notices, cipher);
    LineReads(b, c1);
    ExchangeReads(s.packets, s.newKeys, c2);
    SecretThen(Machine(Banner([]), c1), b, Machine(Packets([]), c2), b, c, end, out);
    AdvanceAdd(c1, |b|, |c|);
    SecretThen(Machine(Banner([]), cipher), a, Machine(Banner([]), c1), [], b + c, end, b + out);
    AdvanceAdd(cipher, |a|, |b + c|);
    assert [] + (b + out) == b + out;
  }

  lemma ClearReads(m: Machine, tail: seq<byte>)
    requires m.core == Clear
    ensures Reads(m, tail, m, tail)
  {
    forall n: nat | 0 < n <= |tail|
      ensures !SkipAt(m, tail, n)
    {
      FeedClear(m, tail[..n - 1]);
    }
    FeedClear(m, tail);
  }

  /** The whole stream comes out as promised, deciphering stops right after NEWKEYS, and nothing is passed over. */
  lemma FeedServerStream(s: ServerStream, cipher: Rc4State)
    requires s.Valid()
    ensures Feed(Start(cipher), s.Wire(cipher)) == Ran(Machine(Clear, Advance(cipher, |s.Secret()|)), s.Delivery())
    ensures NoSkips(Start(cipher), s.Wire(cipher))
  {
    hide Feed, NoSkips, Normalized, Renormalized, PacketLength, IsLine, IsNewKeys, Apply, Advance, Flatten;
    var m := Machine(Clear, Advance(cipher, |s.Secret()|));
    var opening := s.banner + (Renormalized(s.packets) + Normalized(s.newKeys));
    SecretReads(s, cipher);
    ClearReads(m, s.tail);
    ReadsThen(Start(cipher), Apply(cipher, s.Secret()), m, opening, s.tail, m, s.tail);
  }

  /** Read dry, in any chunks and with any buffers, a server's stream is delivered exactly. */
  lemma ServerStreamDelivered(s: ServerStream, cipher: Rc4State, rooms: seq<nat>, script: seq<Event>)
    requires s.Valid() && rooms != []
    requires Data(script[..Polls(Opened(cipher), rooms, script).used]) == s.Wire(cipher)
    requires Polls(Opened(cipher), rooms, script).status != Delivered
    ensures Polls(Opened(cipher), rooms, script).out == s.Delivery()
  {
    hide Feed, Polls, SkipAt;
    FeedServerStream(s, cipher);
    AnyChunkingDeliversTheStream(cipher, rooms, script);
  }
}
