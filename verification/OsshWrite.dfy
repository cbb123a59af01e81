/** The sending half of the obfuscated SSH stream. */
module OsshWrite {
  import opened Bytes
  import opened Options
  import opened Rc4Cipher
  import opened OsshPacket

  /** `Crashed` stands for the panic on a packet too short to have a message type. */
  datatype Phase = Ident | Kex | Done | Crashed

  /** The fields the sending half updates. */
  datatype Writer = Writer(phase: Phase, cipher: Rc4State, wbuf: seq<byte>, wout: seq<byte>)

  predicate CrlfAt(buf: seq<byte>, k: nat)
  {
    k + 1 < |buf| && buf[k] == CR && buf[k + 1] == LF
  }

  function FindCrlf(buf: seq<byte>, from: nat := 0): (at: Option<nat>)
    ensures at.Some? ==> at.value >= from && CrlfAt(buf, at.value)
    ensures at.Some? ==> forall k :: from <= k < at.value ==> !CrlfAt(buf, k)
    ensures at.None? ==> forall k :: k >= from ==> !CrlfAt(buf, k)
    decreases |buf| - from
  {
    if from + 1 >= |buf| then None
    else if CrlfAt(buf, from) then Some(from)
    else FindCrlf(buf, from + 1)
  }

  // ---------------------------------------------------------------- what the program does

  /** Enciphers the first `n` buffered bytes into the output. */
  function Emit(w: Writer, n: nat): Writer
    requires n <= |w.wbuf|
  {
    w.(cipher := Advance(w.cipher, n), wbuf := w.wbuf[n..], wout := w.wout + Apply(w.cipher, w.wbuf[..n]))
  }

  function IdentStep(w: Writer): Writer
  {
    if w.phase != Ident then w
    else
      match FindCrlf(w.wbuf)
      case None => w
      case Some(index) => Emit(w, index + 2).(phase := Kex)
  }

  function KexLoop(w: Writer): Writer
    decreases |w.wbuf|
  {
    if w.phase != Kex || |w.wbuf| < 5 then w
    else
      var length := PacketLength(w.wbuf);
      if !LengthOk(length) || |w.wbuf| < length + 4 then w
      else if length == 1 then w.(phase := Crashed, wbuf := [])
      else if w.wbuf[5] == MSG_NEWKEYS then Emit(w, length + 4).(phase := Done)
      else KexLoop(Emit(w, length + 4))
  }

  function DoneStep(w: Writer): Writer
  {
    if w.phase == Done then w.(wbuf := [], wout := w.wout + w.wbuf) else w
  }

  function ProcessWrite(w: Writer): Writer
  {
    DoneStep(KexLoop(IdentStep(w)))
  }

  /** One write of `data`; after a panic nothing is written any more. */
  function Write(w: Writer, data: seq<byte>): Writer
  {
    if w.phase == Crashed then w else ProcessWrite(w.(wbuf := w.wbuf + data))
  }

  function Writes(w: Writer, datas: seq<seq<byte>>): Writer
    decreases |datas|
  {
    if datas == [] then w else Writes(Write(w, datas[0]), datas[1..])
  }

  // ---------------------------------------------------------------- the reference

  /** How far a plain stream is enciphered, and in which phase that leaves the writer. */
  datatype Cut = Cut(phase: Phase, at: nat)

  function PacketCut(plain: seq<byte>, at: nat): (cut: Cut)
    requires at <= |plain|
    ensures at <= cut.at <= |plain| && cut.phase != Ident
    decreases |plain| - at
  {
    if |plain| - at < 5 then Cut(Kex, at)
    else
      var length := Word(plain[at], plain[at + 1], plain[at + 2], plain[at + 3]);
      if !LengthOk(length) || |plain| - at < length + 4 then Cut(Kex, at)
      else if length == 1 then Cut(Crashed, at)
      else if plain[at + 5] == MSG_NEWKEYS then Cut(Done, at + length + 4)
      else PacketCut(plain, at + length + 4)
  }

  function StreamCut(plain: seq<byte>): (cut: Cut)
    ensures cut.at <= |plain|
  {
    match FindCrlf(plain)
    case None => Cut(Ident, 0)
    case Some(index) => PacketCut(plain, index + 2)
  }

  /** The writer that has taken `plain`, in however many writes, after emitting `preamble`. */
  function WrittenAt(preamble: seq<byte>, cipher: Rc4State, plain: seq<byte>, cut: Cut): Writer
    requires cut.at <= |plain|
  {
    var now := Advance(cipher, cut.at);
    var out := preamble + Apply(cipher, plain[..cut.at]);
    match cut.phase
    case Done => Writer(Done, now, [], out + plain[cut.at..])
    case Crashed => Writer(Crashed, now, [], out)
    case phase => Writer(phase, now, plain[cut.at..], out)
  }

  function Written(preamble: seq<byte>, cipher: Rc4State, plain: seq<byte>): Writer
  {
    WrittenAt(preamble, cipher, plain, StreamCut(plain))
  }

  // ---------------------------------------------------------------- the program refines the reference

  /** A writer in the middle of `plain`, before the pass-through of what follows. */
  function Midway(preamble: seq<byte>, cipher: Rc4State, plain: seq<byte>, phase: Phase, at: nat): Writer
    requires at <= |plain|
  {
    Writer(phase, Advance(cipher, at), plain[at..], preamble + Apply(cipher, plain[..at]))
  }

  lemma EmitMidway(preamble: seq<byte>, cipher: Rc4State, plain: seq<byte>, phase: Phase, at: nat, n: nat)
    requires at + n <= |plain|
    ensures Emit(Midway(preamble, cipher, plain, phase, at), n) == Midway(preamble, cipher, plain, phase, at + n)
  {
    hide Apply, Advance;
    var w := Midway(preamble, cipher, plain, phase, at);
    assert plain[at..][n..] == plain[at + n..];
    assert plain[..at + n] == plain[..at] + plain[at..][..n];
    ApplyConcat(cipher, plain[..at], plain[at..][..n]);
    AdvanceAdd(cipher, at, n);
    Associative(preamble, Apply(cipher, plain[..at]), Apply(w.cipher, plain[at..][..n]));
  }

  lemma DoneMidway(preamble: seq<byte>, cipher: Rc4State, plain: seq<byte>, cut: Cut)
    requires cut.at <= |plain|
    requires cut.phase == Done || cut.phase == Kex || cut.phase == Ident
    ensures DoneStep(Midway(preamble, cipher, plain, cut.phase, cut.at)) == WrittenAt(preamble, cipher, plain, cut)
  {
    hide Apply, Advance;
  }

  lemma CrashMidway(preamble: seq<byte>, cipher: Rc4State, plain: seq<byte>, at: nat)
    requires at <= |plain|
    ensures DoneStep(Midway(preamble, cipher, plain, Kex, at).(phase := Crashed, wbuf := []))
         == WrittenAt(preamble, cipher, plain, Cut(Crashed, at))
  {
    hide Apply, Advance;
  }

  lemma KexStops(preamble: seq<byte>, cipher: Rc4State, plain: seq<byte>, at: nat)
    requires at <= |plain| && PacketCut(plain, at) == Cut(Kex, at)
    ensures KexLoop(Midway(preamble, cipher, plain, Kex, at)) == Midway(preamble, cipher, plain, Kex, at)
  {
    hide Apply, Advance, Word, Emit;
    var w := Midway(preamble, cipher, plain, Kex, at);
    if |w.wbuf| >= 5 {
      assert PacketLength(w.wbuf) == Word(plain[at], plain[at + 1], plain[at + 2], plain[at + 3]);
    }
  }

  /** The loop takes a packet: the same decision on the buffer as on the stream. */
  lemma KexTakes(preamble: seq<byte>, cipher: Rc4State, plain: seq<byte>, at: nat)
    requires at <= |plain| && PacketCut(plain, at) != Cut(Kex, at)
    ensures |plain| - at >= 5
    ensures var w := Midway(preamble, cipher, plain, Kex, at);
            var n := PacketLength(w.wbuf) + 4;
            && n == Word(plain[at], plain[at + 1], plain[at + 2], plain[at + 3]) + 4
            && 5 <= n <= |plain| - at
            && (if n == 5 then KexLoop(w) == w.(phase := Crashed, wbuf := []) && PacketCut(plain, at) == Cut(Crashed, at)
                else if plain[at + 5] == MSG_NEWKEYS then
                  KexLoop(w) == Emit(w, n).(phase := Done) && PacketCut(plain, at) == Cut(Done, at + n)
                else
                  KexLoop(w) == KexLoop(Emit(w, n)) && PacketCut(plain, at) == PacketCut(plain, at + n))
  {
    hide Apply, Advance, Word, Emit;
    var w := Midway(preamble, cipher, plain, Kex, at);
    assert PacketLength(w.wbuf) == Word(plain[at], plain[at + 1], plain[at + 2], plain[at + 3]);
  }

  lemma {:induction false} KexLoopIsPacketCut(preamble: seq<byte>, cipher: Rc4State, plain: seq<byte>, at: nat)
    requires at <= |plain|
    ensures DoneStep(KexLoop(Midway(preamble, cipher, plain, Kex, at)))
         == WrittenAt(preamble, cipher, plain, PacketCut(plain, at))
    decreases |plain| - at
  {
    hide Apply, Advance, Word, Emit, KexLoop, PacketCut, WrittenAt;
    if PacketCut(plain, at) == Cut(Kex, at) {
      KexStops(preamble, cipher, plain, at);
      DoneMidway(preamble, cipher, plain, Cut(Kex, at));
    } else {
      KexTakes(preamble, cipher, plain, at);
      var n := PacketLength(Midway(preamble, cipher, plain, Kex, at).wbuf) + 4;
      if n == 5 {
        CrashMidway(preamble, cipher, plain, at);
      } else {
        EmitMidway(preamble, cipher, plain, Kex, at, n);
        if plain[at + 5] == MSG_NEWKEYS {
          DoneMidway(preamble, cipher, plain, Cut(Done, at + n));
        } else {
          KexLoopIsPacketCut(preamble, cipher, plain, at + n);
        }
      }
    }
  }

  /** Cutting more of the stream goes on from where cutting less stopped. */
  lemma {:induction false} PacketCutExtends(plain: seq<byte>, more: seq<byte>, at: nat)
    requires at <= |plain|
    ensures var cut := PacketCut(plain, at);
            PacketCut(plain + more, at) == if cut.phase == Kex then PacketCut(plain + more, cut.at) else cut
    decreases |plain| - at
  {
    hide Word;
    if |plain| - at >= 5 {
      var length := Word(plain[at], plain[at + 1], plain[at + 2], plain[at + 3]);
      if LengthOk(length) && |plain| - at >= length + 4 && length != 1 && plain[at + 5] != MSG_NEWKEYS {
        PacketCutExtends(plain, more, at + length + 4);
      }
    }
  }

  lemma FindCrlfExtends(plain: seq<byte>, more: seq<byte>)
    requires FindCrlf(plain).Some?
    ensures FindCrlf(plain + more) == FindCrlf(plain)
  {
    var i := FindCrlf(plain).value;
    assert CrlfAt(plain + more, i);
    assert forall k :: 0 <= k < i ==> (CrlfAt(plain + more, k) <==> CrlfAt(plain, k));
    var j := FindCrlf(plain + more).value;
    assert j >= i && i >= j;
  }

  lemma CutExtends(plain: seq<byte>, data: seq<byte>)
    requires StreamCut(plain).phase != Ident
    ensures var cut := StreamCut(plain);
            StreamCut(plain + data) == if cut.phase == Kex then PacketCut(plain + data, cut.at) else cut
  {
    FindCrlfExtends(plain, data);
    PacketCutExtends(plain, data, FindCrlf(plain).value + 2);
  }

  lemma Slices(plain: seq<byte>, data: seq<byte>, at: nat)
    requires at <= |plain|
    ensures (plain + data)[..at] == plain[..at] && (plain + data)[at..] == plain[at..] + data
  {
  }

  /** The buffer between two writes is the part of the stream that is not yet cut. */
  lemma WrittenMidway(preamble: seq<byte>, cipher: Rc4State, plain: seq<byte>, data: seq<byte>)
    requires var phase := StreamCut(plain).phase; phase == Ident || phase == Kex
    ensures var cut := StreamCut(plain);
            var w := Written(preamble, cipher, plain);
            w.(wbuf := w.wbuf + data) == Midway(preamble, cipher, plain + data, cut.phase, cut.at)
  {
    hide Apply, Advance, StreamCut;
    Slices(plain, data, StreamCut(plain).at);
  }

  lemma FirstWrites(preamble: seq<byte>, cipher: Rc4State, plain: seq<byte>, data: seq<byte>)
    requires StreamCut(plain).phase == Ident
    ensures Write(Written(preamble, cipher, plain), data) == Written(preamble, cipher, plain + data)
  {
    var all := plain + data;
    hide Apply, Advance, PacketCut, KexLoop, WrittenAt;
    WrittenMidway(preamble, cipher, plain, data);
    var w := Midway(preamble, cipher, all, Ident, 0);
    assert w.wbuf == all;
    match FindCrlf(all) {
      case None =>
        KexLoopOther(w);
        DoneMidway(preamble, cipher, all, Cut(Ident, 0));
      case Some(index) =>
        EmitMidway(preamble, cipher, all, Ident, 0, index + 2);
        KexLoopIsPacketCut(preamble, cipher, all, index + 2);
    }
  }

  lemma KexLoopOther(w: Writer)
    requires w.phase != Kex
    ensures KexLoop(w) == w
  {
  }

  lemma LaterWrites(preamble: seq<byte>, cipher: Rc4State, plain: seq<byte>, data: seq<byte>)
    requires StreamCut(plain).phase == Kex
    ensures Write(Written(preamble, cipher, plain), data) == Written(preamble, cipher, plain + data)
  {
    hide Apply, Advance, PacketCut, KexLoop, StreamCut, WrittenAt, Midway;
    var cut := StreamCut(plain);
    WrittenMidway(preamble, cipher, plain, data);
    CutExtends(plain, data);
    KexLoopIsPacketCut(preamble, cipher, plain + data, cut.at);
    MidwayPhase(preamble, cipher, plain + data, Kex, cut.at);
  }

  lemma MidwayPhase(preamble: seq<byte>, cipher: Rc4State, plain: seq<byte>, phase: Phase, at: nat)
    requires at <= |plain|
    ensures Midway(preamble, cipher, plain, phase, at).phase == phase
  {
  }

  lemma PassThrough(w: Writer, data: seq<byte>)
    requires w.phase == Done && w.wbuf == []
    ensures Write(w, data) == w.(wout := w.wout + data)
  {
    KexLoopOther(w.(wbuf := data));
    assert [] + data == data;
  }

  lemma ClearWrites(preamble: seq<byte>, cipher: Rc4State, plain: seq<byte>, data: seq<byte>)
    requires StreamCut(plain).phase == Done
    ensures Write(Written(preamble, cipher, plain), data) == Written(preamble, cipher, plain + data)
  {
    var cut := StreamCut(plain);
    var all := plain + data;
    CutExtends(plain, data);
    hide Apply, Advance, PacketCut, StreamCut, Write;
    PassThrough(Written(preamble, cipher, plain), data);
    Slices(plain, data, cut.at);
    Associative(preamble + Apply(cipher, plain[..cut.at]), plain[cut.at..], data);
  }

  lemma NoWritesAfterPanic(preamble: seq<byte>, cipher: Rc4State, plain: seq<byte>, data: seq<byte>)
    requires StreamCut(plain).phase == Crashed
    ensures Write(Written(preamble, cipher, plain), data) == Written(preamble, cipher, plain + data)
  {
    var cut := StreamCut(plain);
    CutExtends(plain, data);
    hide Apply, Advance, PacketCut, StreamCut, KexLoop;
    Slices(plain, data, cut.at);
  }

  /** Where the stream is cut into writes makes no difference to anything the writer holds. */
  lemma WriteExtends(preamble: seq<byte>, cipher: Rc4State, plain: seq<byte>, data: seq<byte>)
    ensures Write(Written(preamble, cipher, plain), data) == Written(preamble, cipher, plain + data)
  {
    hide Write, Written, StreamCut;
    match StreamCut(plain).phase {
      case Ident => FirstWrites(preamble, cipher, plain, data);
      case Kex => LaterWrites(preamble, cipher, plain, data);
      case Done => ClearWrites(preamble, cipher, plain, data);
      case Crashed => NoWritesAfterPanic(preamble, cipher, plain, data);
    }
  }

  /** Any sequence of writes leaves what one write of the concatenation leaves: state, residue, cipher, output. */
  lemma {:induction false} AnyWritesAreOne(preamble: seq<byte>, cipher: Rc4State, plain: seq<byte>, datas: seq<seq<byte>>)
    ensures Writes(Written(preamble, cipher, plain), datas) == Written(preamble, cipher, plain + Flatten(datas))
    decreases |datas|
  {
    hide Write, Written;
    if datas == [] {
      assert plain + [] == plain;
    } else {
      WriteExtends(preamble, cipher, plain, datas[0]);
      AnyWritesAreOne(preamble, cipher, plain + datas[0], datas[1..]);
      assert plain + datas[0] + Flatten(datas[1..]) == plain + Flatten(datas);
    }
  }

  /** What was put out before has no influence on what is put out next. */
  lemma {:induction false} KexLoopAppends(w: Writer, sent: seq<byte>)
    ensures KexLoop(w.(wout := sent + w.wout)) == KexLoop(w).(wout := sent + KexLoop(w).wout)
    decreases |w.wbuf|
  {
    var v := w.(wout := sent + w.wout);
    hide Apply, Advance, Word;
    if w.phase == Kex && |w.wbuf| >= 5 {
      var n := PacketLength(w.wbuf) + 4;
      if LengthOk(n - 4) && n <= |w.wbuf| && n != 5 {
        EmitAppends(w, sent, n);
        if w.wbuf[5] != MSG_NEWKEYS { KexLoopAppends(Emit(w, n), sent); }
      }
    }
  }

  lemma EmitAppends(w: Writer, sent: seq<byte>, n: nat)
    requires n <= |w.wbuf|
    ensures Emit(w.(wout := sent + w.wout), n) == Emit(w, n).(wout := sent + Emit(w, n).wout)
  {
    hide Apply, Advance;
    var out := Apply(w.cipher, w.wbuf[..n]);
    assert sent + w.wout + out == sent + (w.wout + out);
  }

  lemma ProcessWriteAppends(w: Writer, sent: seq<byte>)
    ensures ProcessWrite(w.(wout := sent + w.wout)) == ProcessWrite(w).(wout := sent + ProcessWrite(w).wout)
  {
    hide Apply, Advance, KexLoop, Emit;
    var at := FindCrlf(w.wbuf);
    if w.phase == Ident && at.Some? { EmitAppends(w, sent, at.value + 2); }
    var w1 := IdentStep(w);
    assert IdentStep(w.(wout := sent + w.wout)) == w1.(wout := sent + w1.wout);
    KexLoopAppends(w1, sent);
    var w2 := KexLoop(w1);
    assert sent + w2.wout + w2.wbuf == sent + (w2.wout + w2.wbuf);
  }

  // ---------------------------------------------------------------- whole client streams

  /** A packet the client sends: a length that counts its bytes and covers a message type. */
  predicate IsPacket(packet: seq<byte>)
  {
    |packet| >= 6 && LengthOk(PacketLength(packet)) && |packet| == PacketLength(packet) + 4
  }

  /** An identification line, packets, the first NEWKEYS, and whatever comes after it. */
  datatype ClientStream = ClientStream(
    ident: seq<byte>, packets: seq<seq<byte>>, newKeys: seq<byte>, tail: seq<byte>)
  {
    predicate Valid()
    {
      && |ident| >= 2 && FindCrlf(ident) == Some(|ident| - 2)
      && (forall packet :: packet in packets ==> IsPacket(packet) && !IsNewKeys(packet))
      && IsPacket(newKeys) && IsNewKeys(newKeys)
    }

    function Secret(): seq<byte>
    {
      ident + (Flatten(packets) + newKeys)
    }
  }

  lemma CutOnePacket(plain: seq<byte>, at: nat, packet: seq<byte>, rest: seq<byte>)
    requires at <= |plain| && plain[at..] == packet + rest && IsPacket(packet)
    ensures PacketCut(plain, at)
         == if IsNewKeys(packet) then Cut(Done, at + |packet|) else PacketCut(plain, at + |packet|)
  {
    assert forall k :: 0 <= k < |packet| ==> plain[at + k] == plain[at..][k] == packet[k];
    hide Word;
    assert plain[at] == packet[0] && plain[at + 1] == packet[1] && plain[at + 2] == packet[2] && plain[at + 3] == packet[3];
    assert plain[at + 5] == packet[5];
  }

  lemma {:induction false} CutPackets(
    plain: seq<byte>, at: nat, packets: seq<seq<byte>>, newKeys: seq<byte>, tail: seq<byte>)
    requires at <= |plain| && plain[at..] == Flatten(packets) + newKeys + tail
    requires forall packet :: packet in packets ==> IsPacket(packet) && !IsNewKeys(packet)
    requires IsPacket(newKeys) && IsNewKeys(newKeys)
    ensures PacketCut(plain, at) == Cut(Done, at + |Flatten(packets) + newKeys|)
    decreases |packets|
  {
    hide IsPacket, IsNewKeys, PacketCut;
    if packets == [] {
      assert plain[at..] == newKeys + tail;
      CutOnePacket(plain, at, newKeys, tail);
    } else {
      var packet := packets[0];
      var rest := Flatten(packets[1..]) + newKeys + tail;
      assert plain[at..] == packet + rest;
      CutOnePacket(plain, at, packet, rest);
      assert plain[at + |packet|..] == plain[at..][|packet|..] == rest;
      CutPackets(plain, at + |packet|, packets[1..], newKeys, tail);
    }
  }

  /** In any writes, a complete stream goes out as one cipher run through NEWKEYS, then in clear. */
  lemma ClientStreamSent(preamble: seq<byte>, cipher: Rc4State, s: ClientStream, datas: seq<seq<byte>>)
    requires s.Valid() && Flatten(datas) == s.Secret() + s.tail
    ensures Writes(Writer(Ident, cipher, [], preamble), datas)
         == Writer(Done, Advance(cipher, |s.Secret()|), [], preamble + Apply(cipher, s.Secret()) + s.tail)
  {
    var plain := s.Secret() + s.tail;
    var rest := Flatten(s.packets) + s.newKeys + s.tail;
    hide Apply, Advance, IsPacket, IsNewKeys, PacketCut, Flatten;
    assert plain == s.ident + rest;
    FindCrlfExtends(s.ident, rest);
    CutPackets(plain, |s.ident|, s.packets, s.newKeys, s.tail);
    assert StreamCut(plain) == Cut(Done, |s.Secret()|);
    assert plain[..|s.Secret()|] == s.Secret() && plain[|s.Secret()|..] == s.tail;
    EmptyWritten(preamble, cipher);
    AnyWritesAreOne(preamble, cipher, [], datas);
    assert [] + Flatten(datas) == plain;
  }

  lemma EmptyWritten(preamble: seq<byte>, cipher: Rc4State)
    ensures Written(preamble, cipher, []) == Writer(Ident, cipher, [], preamble)
  {
    assert preamble + [] == preamble;
  }

  // ---------------------------------------------------------------- the preamble

  /** What the client enciphers before the SSH stream: magic number, padding length, padding. */
  function Header(padding: seq<byte>): seq<byte>
  {
    U32(MAGIC) + U32(|padding| % U32_SIZE) + padding
  }

  function Preamble(seed: seq<byte>, cipher: Rc4State, padding: seq<byte>): seq<byte>
  {
    seed + Apply(cipher, Header(padding))
  }

  /** As a peer reads it: the magic number, the number of bytes of padding, most significant byte first, and these. */
  predicate IsHeader(plain: seq<byte>, padding: seq<byte>)
  {
    && |plain| == 8 + |padding|
    && plain[..4] == [0x0B, 0xF5, 0xCA, 0x7E]
    && (plain[4] as int) * 0x100_0000 + (plain[5] as int) * 0x1_0000 + (plain[6] as int) * 0x100 + plain[7]
       == |padding| % U32_SIZE
    && plain[8..] == padding
  }

  lemma HeaderReads(padding: seq<byte>)
    ensures IsHeader(Header(padding), padding)
  {
    hide U32, FromU32;
    var plain, length := Header(padding), |padding| % U32_SIZE;
    var b := U32(length);
    BigEndian(length, b);
    BigEndian(MAGIC, [0x0B, 0xF5, 0xCA, 0x7E]);
    assert plain[..4] == U32(MAGIC) && plain[4] == b[0] && plain[5] == b[1] && plain[6] == b[2] && plain[7] == b[3];
  }

  /** Deciphered from the start of the stream, what follows the seed is such a header. */
  lemma PreambleReads(seed: seq<byte>, cipher: Rc4State, padding: seq<byte>)
    ensures var preamble := Preamble(seed, cipher, padding);
            seed <= preamble && IsHeader(Apply(cipher, preamble[|seed|..]), padding)
  {
    hide Apply, Header, IsHeader;
    HeaderReads(padding);
    ApplyUndo(cipher, Header(padding));
    assert Preamble(seed, cipher, padding)[|seed|..] == Apply(cipher, Header(padding));
  }

  /** A new stream: the preamble is waiting to be flushed and the cipher has moved past it. */
  function Opened(seed: seq<byte>, cipher: Rc4State, padding: seq<byte>): Writer
  {
    Writer(Ident, Advance(cipher, |Header(padding)|), [], Preamble(seed, cipher, padding))
  }

  /**
   * The complete wire: the seed, one continuous cipher run over preamble, identification line and
   * packets through NEWKEYS, then the rest in clear. A peer with the same cipher reads it all back.
   */
  lemma WireOfClient(seed: seq<byte>, cipher: Rc4State, padding: seq<byte>, s: ClientStream, datas: seq<seq<byte>>)
    requires s.Valid() && Flatten(datas) == s.Secret() + s.tail
    ensures Writes(Opened(seed, cipher, padding), datas).wout
         == seed + Apply(cipher, Header(padding) + s.Secret()) + s.tail
    ensures Apply(cipher, Apply(cipher, Header(padding) + s.Secret())) == Header(padding) + s.Secret()
    ensures IsHeader(Header(padding), padding)
  {
    HeaderReads(padding);
    hide Apply, Advance, Writes, Header, U32, Flatten, FindCrlf, PacketCut, IsPacket;
    var header := Header(padding);
    ClientStreamSent(Preamble(seed, cipher, padding), Advance(cipher, |header|), s, datas);
    ApplyConcat(cipher, header, s.Secret());
    ApplyUndo(cipher, header + s.Secret());
    var a, b := Apply(cipher, header), Apply(Advance(cipher, |header|), s.Secret());
    assert seed + a + b == seed + (a + b);
  }

  // ---------------------------------------------------------------- when the program panics

  /** Packets, NEWKEYS not among them, and then the first five bytes of a packet of length 1. */
  ghost predicate Crashes(stream: seq<byte>, packets: seq<seq<byte>>, rest: seq<byte>)
  {
    && stream == Flatten(packets) + rest
    && (forall packet :: packet in packets ==> IsPacket(packet) && !IsNewKeys(packet))
    && |rest| >= 5 && PacketLength(rest) == 1
  }

  lemma CutCrash(plain: seq<byte>, at: nat)
    requires at <= |plain| && |plain| - at >= 5 && PacketLength(plain[at..]) == 1
    ensures PacketCut(plain, at) == Cut(Crashed, at)
  {
    hide Word;
    assert PacketLength(plain[at..]) == Word(plain[at], plain[at + 1], plain[at + 2], plain[at + 3]);
  }

  /** What the cut finds at `at` unless it stops there: a whole packet, or one of length 1. */
  lemma CutFinds(plain: seq<byte>, at: nat) returns (packet: seq<byte>)
    requires at <= |plain| && PacketCut(plain, at).phase == Crashed
    ensures |plain| - at >= 5
    ensures PacketLength(plain[at..]) != 1 ==>
      && IsPacket(packet) && !IsNewKeys(packet) && at + |packet| <= |plain| && packet == plain[at..at + |packet|]
      && PacketCut(plain, at) == PacketCut(plain, at + |packet|)
  {
    hide Word;
    var length := Word(plain[at], plain[at + 1], plain[at + 2], plain[at + 3]);
    assert PacketLength(plain[at..]) == length;
    packet := if length == 1 then [] else plain[at..at + length + 4];
    if length != 1 { assert packet[..4] == plain[at..][..4] && packet[5] == plain[at + 5]; }
  }

  lemma {:induction false} CrashShape(plain: seq<byte>, at: nat) returns (packets: seq<seq<byte>>, rest: seq<byte>)
    requires at <= |plain| && PacketCut(plain, at).phase == Crashed
    ensures Crashes(plain[at..], packets, rest)
    decreases |plain| - at
  {
    hide PacketCut, IsPacket, IsNewKeys, PacketLength;
    var packet := CutFinds(plain, at);
    if PacketLength(plain[at..]) == 1 {
      packets, rest := [], plain[at..];
      assert [] + rest == rest;
    } else {
      IsPacketIsLong(packet);
      var more, end := CrashShape(plain, at + |packet|);
      packets, rest := [packet] + more, end;
      assert plain[at..] == packet + plain[at + |packet|..];
      assert packets[1..] == more;
      assert packet + (Flatten(more) + rest) == packet + Flatten(more) + rest;
    }
  }

  lemma IsPacketIsLong(packet: seq<byte>)
    requires IsPacket(packet)
    ensures |packet| > 5
  {
  }

  lemma {:induction false} ShapeCrashes(plain: seq<byte>, at: nat, packets: seq<seq<byte>>, rest: seq<byte>)
    requires at <= |plain| && Crashes(plain[at..], packets, rest)
    ensures PacketCut(plain, at).phase == Crashed
    decreases |packets|
  {
    hide PacketCut, IsPacket, IsNewKeys, PacketLength;
    if packets == [] {
      assert plain[at..] == rest;
      CutCrash(plain, at);
    } else {
      var packet, more := packets[0], Flatten(packets[1..]) + rest;
      assert plain[at..] == packet + more;
      CutOnePacket(plain, at, packet, more);
      assert plain[at + |packet|..] == plain[at..][|packet|..] == more;
      ShapeCrashes(plain, at + |packet|, packets[1..], rest);
    }
  }

  /** What follows the identification line. */
  function AfterLine(plain: seq<byte>): seq<byte>
    requires FindCrlf(plain).Some?
  {
    plain[FindCrlf(plain).value + 2..]
  }

  /** An identification line, and then packets up to one of length 1 with none of them NEWKEYS. */
  ghost predicate CrashingStream(plain: seq<byte>)
  {
    FindCrlf(plain).Some? && exists packets, rest :: Crashes(AfterLine(plain), packets, rest)
  }

  lemma CutCrashesIff(plain: seq<byte>)
    ensures StreamCut(plain).phase == Crashed <==> CrashingStream(plain)
  {
    hide PacketCut, Crashes;
    if StreamCut(plain).phase == Crashed {
      var n := FindCrlf(plain).value;
      var packets, rest := CrashShape(plain, n + 2);
      assert Crashes(AfterLine(plain), packets, rest);
    }
    if CrashingStream(plain) {
      var n := FindCrlf(plain).value;
      var packets, rest :| Crashes(AfterLine(plain), packets, rest);
      ShapeCrashes(plain, n + 2, packets, rest);
    }
  }

  /** In any writes, the program panics exactly on such a stream. */
  lemma PanicsIff(preamble: seq<byte>, cipher: Rc4State, datas: seq<seq<byte>>)
    ensures Writes(Writer(Ident, cipher, [], preamble), datas).phase == Crashed <==> CrashingStream(Flatten(datas))
  {
    hide Writes, StreamCut, Apply, Advance, CrashingStream;
    EmptyWritten(preamble, cipher);
    AnyWritesAreOne(preamble, cipher, [], datas);
    assert [] + Flatten(datas) == Flatten(datas);
    CutCrashesIff(Flatten(datas));
  }

  /** Such streams exist: after any identification line five bytes are enough. */
  lemma PanicReached(preamble: seq<byte>, cipher: Rc4State, ident: seq<byte>, b: byte)
    requires |ident| >= 2 && FindCrlf(ident) == Some(|ident| - 2)
    ensures Writes(Writer(Ident, cipher, [], preamble), [ident, [0, 0, 0, 1, b]]).phase == Crashed
  {
    hide Writes, FindCrlf;
    var rest: seq<byte> := [0, 0, 0, 1, b];
    var plain := ident + rest;
    FindCrlfExtends(ident, rest);
    assert plain[|ident|..] == rest == Flatten([]) + rest;
    assert Crashes(AfterLine(plain), [], rest);
    assert Flatten([ident, rest]) == plain by {
      assert [ident, rest][1..] == [rest] && [rest][1..] == [];
      assert Flatten([rest]) == rest + [] == rest;
    }
    PanicsIff(preamble, cipher, [ident, rest]);
  }
}
