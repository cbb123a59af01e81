/** The receiving half of the obfuscated SSH stream. */
module OsshRead {
  import opened Bytes
  import opened Rc4Cipher
  import opened OsshPacket
  import opened Transducer

  // ---------------------------------------------------------------- what is read, byte by byte

  /** The reference: a machine that takes one byte of the wire at a time and has no input buffer. */
  datatype Core = Banner(line: seq<byte>) | Packets(partial: seq<byte>) | Clear

  datatype Machine = Machine(core: Core, cipher: Rc4State)

  type Fed = Ran<Machine, byte>

  predicate EndsLine(line: seq<byte>)
  {
    |line| >= 2 && line[|line| - 2] == CR && line[|line| - 1] == LF
  }

  function BannerByte(line: seq<byte>, plain: byte): (Core, seq<byte>)
  {
    var line := line + [plain];
    if |line| > MAX_LINE then (Banner([]), [])
    else if !EndsLine(line) then (Banner(line), [])
    else if BANNER_START <= line then (Packets([]), line)
    else (Banner([]), [])
  }

  /** Five bytes whose length is out of range are passed over. */
  function PacketByte(partial: seq<byte>, plain: byte): (Core, seq<byte>)
  {
    var packet := partial + [plain];
    if |packet| < 5 then (Packets(packet), [])
    else if !LengthOk(PacketLength(packet)) then (Packets([]), [])
    else if |packet| < PacketLength(packet) + 4 then (Packets(packet), [])
    else (if IsNewKeys(packet) then Clear else Packets([]), Normalized(packet))
  }

  function FeedByte(m: Machine, b: byte): Fed
  {
    match m.core
    case Banner(line) =>
      var (core, out) := BannerByte(line, Xor(b, KeyByte(m.cipher)));
      Ran(Machine(core, Next(m.cipher)), out)
    case Packets(partial) =>
      var (core, out) := PacketByte(partial, Xor(b, KeyByte(m.cipher)));
      Ran(Machine(core, Next(m.cipher)), out)
    case Clear => Ran(m, [b])
  }

  /** The machine after the whole of `wire`, and what it delivered. */
  function Feed(m: Machine, wire: seq<byte>): Fed
  {
    Run(FeedByte, m, wire)
  }

  lemma FeedConcat(m: Machine, x: seq<byte>, y: seq<byte>)
    ensures var first := Feed(m, x);
            var rest := Feed(first.state, y);
            Feed(m, x + y) == Ran(rest.state, first.out + rest.out)
  {
    RunConcat(FeedByte, m, x, y);
  }

  lemma FeedOne(m: Machine, b: byte)
    ensures Feed(m, [b]) == FeedByte(m, b)
  {
    RunOne(FeedByte, m, b);
  }

  lemma {:induction false} FeedClear(m: Machine, wire: seq<byte>)
    requires m.core == Clear
    ensures Feed(m, wire) == Ran(m, wire)
    decreases |wire|
  {
    if wire != [] { FeedClear(m, wire[1..]); }
  }

  /** The byte before `n` completes the first five of a packet, and their length is out of range. */
  predicate SkipAt(m: Machine, wire: seq<byte>, n: nat)
  {
    && 0 < n <= |wire|
    && var before := Feed(m, wire[..n - 1]).state;
       && before.core.Packets? && |before.core.partial| == 4
       && !LengthOk(PacketLength(before.core.partial + [Xor(wire[n - 1], KeyByte(before.cipher))]))
  }

  /** The byte before `n` completes the identification line. */
  predicate BannerEnd(m: Machine, wire: seq<byte>, n: nat)
  {
    && 0 < n <= |wire|
    && Feed(m, wire[..n - 1]).state.core.Banner? && Feed(m, wire[..n]).state.core == Packets([])
  }

  lemma BannerLater(m: Machine, x: seq<byte>, y: seq<byte>, n: nat)
    requires BannerEnd(Feed(m, x).state, y, n)
    ensures BannerEnd(m, x + y, |x| + n)
  {
    hide Feed;
    assert (x + y)[..|x| + n - 1] == x + y[..n - 1] && (x + y)[..|x| + n] == x + y[..n];
    FeedConcat(m, x, y[..n - 1]);
    FeedConcat(m, x, y[..n]);
  }

  ghost predicate NoSkips(m: Machine, wire: seq<byte>)
  {
    forall n: nat :: !SkipAt(m, wire, n)
  }

  lemma SkipLater(m: Machine, x: seq<byte>, y: seq<byte>, n: nat)
    requires SkipAt(Feed(m, x).state, y, n)
    ensures SkipAt(m, x + y, |x| + n)
  {
    hide Feed;
    assert (x + y)[..|x| + n - 1] == x + y[..n - 1];
    FeedConcat(m, x, y[..n - 1]);
  }

  lemma SkipInLonger(m: Machine, x: seq<byte>, y: seq<byte>, n: nat)
    requires SkipAt(m, x, n)
    ensures SkipAt(m, x + y, n)
  {
    hide Feed, LengthOk, PacketLength, Xor, KeyByte;
    assert (x + y)[..n - 1] == x[..n - 1] && (x + y)[n - 1] == x[n - 1];
  }

  lemma SkipInFirst(m: Machine, x: seq<byte>, y: seq<byte>, n: nat)
    requires n <= |x| && SkipAt(m, x + y, n)
    ensures SkipAt(m, x, n)
  {
    hide Feed, LengthOk, PacketLength, Xor, KeyByte;
    assert (x + y)[..n - 1] == x[..n - 1] && (x + y)[n - 1] == x[n - 1];
  }

  lemma SkipInSecond(m: Machine, x: seq<byte>, y: seq<byte>, n: nat)
    requires n > |x| && SkipAt(m, x + y, n)
    ensures SkipAt(Feed(m, x).state, y, n - |x|)
  {
    hide Feed, LengthOk, PacketLength, Xor, KeyByte;
    assert (x + y)[..n - 1] == x + y[..n - 1 - |x|] && (x + y)[n - 1] == y[n - 1 - |x|];
    FeedConcat(m, x, y[..n - 1 - |x|]);
  }

  // ---------------------------------------------------------------- whole packets

  /** The packet is still incomplete. */
  predicate Incomplete(packet: seq<byte>)
  {
    || |packet| < 5
    || (LengthOk(PacketLength(packet)) && |packet| < PacketLength(packet) + 4)
  }

  lemma IncompletePrefix(x: seq<byte>, y: seq<byte>)
    requires Incomplete(x + y)
    ensures Incomplete(x)
  {
    if |x| >= 5 { assert (x + y)[..4] == x[..4]; }
  }

  lemma {:induction false} FeedIncomplete(partial: seq<byte>, cipher: Rc4State, wire: seq<byte>)
    requires Incomplete(partial + Apply(cipher, wire))
    ensures Feed(Machine(Packets(partial), cipher), wire)
         == Ran(Machine(Packets(partial + Apply(cipher, wire)), Advance(cipher, |wire|)), [])
    decreases |wire|
  {
    var all := partial + Apply(cipher, wire);
    if wire == [] {
      assert all == partial;
    } else {
      var next := partial + [Xor(wire[0], KeyByte(cipher))];
      assert all == next + Apply(Next(cipher), wire[1..]);
      IncompletePrefix(next, Apply(Next(cipher), wire[1..]));
      FeedIncomplete(next, Next(cipher), wire[1..]);
    }
  }

  /** Bytes that complete a packet exactly: it is delivered re-padded, and NEWKEYS ends the cipher. */
  lemma AllButLastIncomplete(packet: seq<byte>)
    requires |packet| >= 5 && LengthOk(PacketLength(packet)) && |packet| == PacketLength(packet) + 4
    ensures Incomplete(packet[..|packet| - 1])
  {
    if |packet| > 5 { assert packet[..|packet| - 1][..4] == packet[..4]; }
  }

  lemma PacketLastByte(so: seq<byte>, cipher: Rc4State, b: byte, packet: seq<byte>)
    requires packet == so + [Xor(b, KeyByte(cipher))]
    requires |packet| >= 5 && LengthOk(PacketLength(packet)) && |packet| == PacketLength(packet) + 4
    ensures Feed(Machine(Packets(so), cipher), [b])
         == Ran(Machine(if IsNewKeys(packet) then Clear else Packets([]), Next(cipher)), Normalized(packet))
  {
    FeedOne(Machine(Packets(so), cipher), b);
  }

  lemma FeedPacket(partial: seq<byte>, cipher: Rc4State, wire: seq<byte>, packet: seq<byte>)
    requires wire != [] && packet == partial + Apply(cipher, wire)
    requires |packet| >= 5 && LengthOk(PacketLength(packet)) && |packet| == PacketLength(packet) + 4
    ensures Feed(Machine(Packets(partial), cipher), wire)
         == Ran(Machine(if IsNewKeys(packet) then Clear else Packets([]), Advance(cipher, |wire|)), Normalized(packet))
  {
    hide Normalized, Xor, KeyByte, Next, Word;
    var n := |wire| - 1;
    var front, last := wire[..n], wire[n];
    var middle := Advance(cipher, n);
    var so := partial + Apply(cipher, front);
    assert wire == front + [last];
    assert packet == so + [Xor(last, KeyByte(middle))] by { ApplyLast(cipher, front, last); }
    AdvanceLast(cipher, n);
    assert Incomplete(so) by { AllButLastIncomplete(packet); assert so == packet[..|packet| - 1]; }
    FeedIncomplete(partial, cipher, front);
    PacketLastByte(so, middle, last, packet);
    FeedConcat(Machine(Packets(partial), cipher), front, [last]);
  }

  /** Five bytes with a length out of range yield nothing, and the next packet is expected. */
  lemma FeedBadLength(cipher: Rc4State, wire: seq<byte>)
    requires |wire| == 5 && !LengthOk(PacketLength(Apply(cipher, wire)))
    ensures Feed(Machine(Packets([]), cipher), wire) == Ran(Machine(Packets([]), Advance(cipher, 5)), [])
    ensures SkipAt(Machine(Packets([]), cipher), wire, 5)
  {
    hide LengthOk, PacketLength, Normalized, Xor, KeyByte, Next;
    var front, last := wire[..4], wire[4];
    var middle := Advance(cipher, 4);
    assert wire == front + [last] && wire[..5 - 1] == front;
    ApplyLast(cipher, front, last);
    AdvanceLast(cipher, 4);
    assert [] + Apply(cipher, front) == Apply(cipher, front);
    FeedIncomplete([], cipher, front);
    FeedConcat(Machine(Packets([]), cipher), front, [last]);
    FeedOne(Machine(Packets(Apply(cipher, front)), middle), last);
    assert Apply(cipher, front) + [Xor(last, KeyByte(middle))] == Apply(cipher, wire);
  }

  // ---------------------------------------------------------------- what the program does

  datatype Phase = Ident | Kex | Done

  /** The deciphered first five bytes of a packet, and how many bytes of it are still to come. */
  datatype Prefix = NoPrefix | Prefix(bytes: seq<byte>, remaining: nat)

  /** The fields the receiving half updates. */
  datatype Reader = Reader(
    phase: Phase, cipher: Rc4State, rin: seq<byte>, rbuf: seq<byte>, line: seq<byte>, prefix: Prefix)

  /** One turn of the read loop: the new fields, and whether the loop goes on. */
  datatype Turn = Turn(reader: Reader, again: bool)

  function IdentTurn(r: Reader): Turn
  {
    if r.rin == [] then Turn(r, false)
    else
      var line := r.line + Apply(r.cipher, r.rin[..1]);
      var next := r.(cipher := Advance(r.cipher, 1), rin := r.rin[1..], line := line);
      if |line| > MAX_LINE then Turn(next.(line := []), true)
      else if !EndsLine(line) then Turn(next, true)
      else if BANNER_START <= line then Turn(next.(rbuf := r.rbuf + line, line := [], phase := Kex), false)
      else Turn(next.(line := []), true)
  }

  function PrefixTurn(r: Reader): Turn
  {
    if r.prefix.Prefix? then Turn(r, true)
    else if |r.rin| < 5 then Turn(r, false)
    else
      var bytes := Apply(r.cipher, r.rin[..5]);
      var next := r.(cipher := Advance(r.cipher, 5), rin := r.rin[5..]);
      if !LengthOk(PacketLength(bytes)) then Turn(next, false)
      else Turn(next.(prefix := Prefix(bytes, PacketLength(bytes) - 1)), true)
  }

  function BodyTurn(r: Reader): Turn
    requires r.prefix.Prefix? && |r.prefix.bytes| == 5
  {
    var n := r.prefix.remaining;
    if |r.rin| < n then Turn(r, false)
    else
      var packet := r.prefix.bytes + Apply(r.cipher, r.rin[..n]);
      var next := r.(cipher := Advance(r.cipher, n), rin := r.rin[n..], prefix := NoPrefix,
                     rbuf := r.rbuf + Normalized(packet));
      if IsNewKeys(packet) then Turn(next.(phase := Done), false) else Turn(next, true)
  }

  function KexTurn(r: Reader): Turn
    requires r.prefix.Prefix? ==> |r.prefix.bytes| == 5
  {
    var t := PrefixTurn(r);
    if t.again then BodyTurn(t.reader) else t
  }

  /** What the fields satisfy between calls. */
  predicate Valid(r: Reader)
  {
    && |r.line| <= MAX_LINE
    && (r.phase != Kex ==> r.prefix.NoPrefix?)
    && (r.prefix.Prefix? ==>
          && |r.prefix.bytes| == 5
          && LengthOk(PacketLength(r.prefix.bytes))
          && 0 < r.prefix.remaining == PacketLength(r.prefix.bytes) - 1)
  }

  function OneTurn(r: Reader): Turn
    requires Valid(r)
  {
    match r.phase
    case Ident => IdentTurn(r)
    case Kex => KexTurn(r)
    case Done => Turn(r, false)
  }

  /** What holds once the prefix is known, its body perhaps already due. */
  predicate HasPrefix(r: Reader)
  {
    && |r.line| <= MAX_LINE && r.phase == Kex
    && r.prefix.Prefix? && |r.prefix.bytes| == 5
    && LengthOk(PacketLength(r.prefix.bytes))
    && r.prefix.remaining == PacketLength(r.prefix.bytes) - 1
  }

  lemma PrefixTurnValid(r: Reader)
    requires Valid(r) && r.phase == Kex
    ensures var t := PrefixTurn(r);
            if !t.again then Valid(t.reader) && |t.reader.rin| <= |r.rin|
            else HasPrefix(t.reader) && (t.reader == r || |t.reader.rin| < |r.rin|)
  {
  }

  lemma BodyTurnValid(r: Reader)
    requires HasPrefix(r)
    ensures var t := BodyTurn(r);
            if |r.rin| < r.prefix.remaining then t == Turn(r, false)
            else Valid(t.reader) && |t.reader.rin| == |r.rin| - r.prefix.remaining
  {
  }

  lemma TurnValid(r: Reader)
    requires Valid(r)
    ensures Valid(OneTurn(r).reader)
    ensures |OneTurn(r).reader.rin| <= |r.rin|
    ensures OneTurn(r).again ==> |OneTurn(r).reader.rin| < |r.rin|
  {
    if r.phase == Kex {
      PrefixTurnValid(r);
      var t := PrefixTurn(r);
      if t.again { BodyTurnValid(t.reader); }
    }
  }

  /** The read loop: deciphers and decodes what has arrived until it has to stop. */
  function ProcessRead(r: Reader): (read: Reader)
    requires Valid(r)
    ensures Valid(read) && |read.rin| <= |r.rin|
    decreases |r.rin|
  {
    TurnValid(r);
    var t := OneTurn(r);
    if t.again then ProcessRead(t.reader) else t.reader
  }

  // ---------------------------------------------------------------- the program refines the machine

  /** The machine whose state the fields represent, its unread input left aside. */
  function Represents(r: Reader): Machine
    requires Valid(r)
  {
    Machine(match r.phase
            case Ident => Banner(r.line)
            case Kex => Packets(if r.prefix.Prefix? then r.prefix.bytes else [])
            case Done => Clear,
            r.cipher)
  }

  /** Where the machine gets to on the unread input. */
  function Pending(r: Reader): Fed
    requires Valid(r)
  {
    Feed(Represents(r), r.rin)
  }

  /** How much of the unread input has been read on the way from `r` to `r'`. */
  function Taken(r: Reader, r': Reader): nat
    requires |r'.rin| <= |r.rin|
  {
    |r.rin| - |r'.rin|
  }

  /**
   * Nothing is lost, duplicated or reordered: the bytes read are the first of the unread ones, the
   * fields are where the machine is after them, and the buffer has grown by what it made of them.
   */
  ghost predicate Keeps(r: Reader, r': Reader)
    requires Valid(r) && Valid(r')
  {
    && |r'.rin| <= |r.rin| && r'.rin == r.rin[Taken(r, r')..] && r.rbuf <= r'.rbuf
    && Feed(Represents(r), r.rin[..Taken(r, r')]) == Ran(Represents(r'), r'.rbuf[|r.rbuf|..])
  }

  lemma KeepsByFeeding(r: Reader, r': Reader, n: nat, out: seq<byte>)
    requires Valid(r) && Valid(r')
    requires n <= |r.rin| && r'.rin == r.rin[n..] && r'.rbuf == r.rbuf + out
    requires Feed(Represents(r), r.rin[..n]) == Ran(Represents(r'), out)
    ensures Keeps(r, r')
  {
    hide Feed, Represents;
    assert r'.rbuf[|r.rbuf|..] == out;
  }

  lemma KeepsItself(r: Reader)
    requires Valid(r)
    ensures Keeps(r, r)
  {
    assert r.rin[..0] == [] && r.rbuf[|r.rbuf|..] == [];
  }

  lemma KeepsTransitive(a: Reader, b: Reader, c: Reader)
    requires Valid(a) && Valid(b) && Valid(c) && Keeps(a, b) && Keeps(b, c)
    ensures Keeps(a, c)
  {
    hide Feed, Represents;
    var x, y := a.rin[..Taken(a, b)], b.rin[..Taken(b, c)];
    assert a.rin[..Taken(a, c)] == x + y;
    FeedConcat(Represents(a), x, y);
    assert c.rbuf[|a.rbuf|..] == b.rbuf[|a.rbuf|..] + c.rbuf[|b.rbuf|..];
  }

  /** What is still to come out is what was to come out before, less what is now in the buffer. */
  lemma KeepsPending(r: Reader, r': Reader)
    requires Valid(r) && Valid(r') && Keeps(r, r')
    ensures Pending(r').state == Pending(r).state
    ensures r'.rbuf + Pending(r').out == r.rbuf + Pending(r).out
  {
    hide Feed, Represents;
    var x := r.rin[..Taken(r, r')];
    assert r.rin == x + r'.rin;
    FeedConcat(Represents(r), x, r'.rin);
    assert r'.rbuf == r.rbuf + r'.rbuf[|r.rbuf|..];
    Associative(r.rbuf, r'.rbuf[|r.rbuf|..], Pending(r').out);
  }

  /** The loop needs more input: a byte, a packet's first five, or the rest of it. */
  predicate Short(r: Reader)
  {
    match r.phase
    case Ident => r.rin == []
    case Kex => |r.rin| < if r.prefix.Prefix? then r.prefix.remaining else 5
    case Done => false
  }

  /** Why the loop stopped: the end of the cipher, lack of input, or a length out of range or the line just read. */
  ghost predicate Stopped(r: Reader, r': Reader)
    requires Valid(r) && Valid(r') && |r'.rin| <= |r.rin|
  {
    || r'.phase == Done || Short(r') || SkipAt(Represents(r), r.rin, Taken(r, r'))
    || (r'.rbuf != [] && BannerEnd(Represents(r), r.rin, Taken(r, r')))
  }

  lemma StoppedEarlier(a: Reader, b: Reader, c: Reader)
    requires Valid(a) && Valid(b) && Valid(c) && Keeps(a, b) && Keeps(b, c) && Stopped(b, c)
    ensures |c.rin| <= |a.rin| && Stopped(a, c)
  {
    hide Feed, Represents, SkipAt, BannerEnd, Short;
    if SkipAt(Represents(b), b.rin, Taken(b, c)) { SkippedEarlier(a, b, Taken(b, c)); }
    if BannerEnd(Represents(b), b.rin, Taken(b, c)) { LineEarlier(a, b, Taken(b, c)); }
  }

  lemma LineEarlier(a: Reader, b: Reader, n: nat)
    requires Valid(a) && Valid(b) && Keeps(a, b) && BannerEnd(Represents(b), b.rin, n)
    ensures BannerEnd(Represents(a), a.rin, Taken(a, b) + n)
  {
    hide Feed, Represents, BannerEnd;
    var x := a.rin[..Taken(a, b)];
    assert a.rin == x + b.rin;
    BannerLater(Represents(a), x, b.rin, n);
  }

  lemma SkippedEarlier(a: Reader, b: Reader, n: nat)
    requires Valid(a) && Valid(b) && Keeps(a, b) && SkipAt(Represents(b), b.rin, n)
    ensures SkipAt(Represents(a), a.rin, Taken(a, b) + n)
  {
    hide Feed, Represents, SkipAt;
    var x := a.rin[..Taken(a, b)];
    assert a.rin == x + b.rin;
    SkipLater(Represents(a), x, b.rin, n);
  }

  ghost predicate TurnKeeps(r: Reader, t: Turn)
    requires Valid(r)
  {
    && Valid(t.reader) && Keeps(r, t.reader)
    && (!t.again ==> Stopped(r, t.reader))
  }

  lemma IdentTurnKeeps(r: Reader)
    requires Valid(r) && r.phase == Ident
    ensures TurnKeeps(r, IdentTurn(r))
  {
    if r.rin == [] {
      KeepsItself(r);
    } else {
      var b := r.rin[0];
      assert r.rin[..1] == [b];
      ApplyLast(r.cipher, [], b);
      assert [] + [b] == [b];
      assert Advance(r.cipher, 1) == Next(r.cipher);
      FeedOne(Represents(r), b);
      var r' := IdentTurn(r).reader;
      assert r.line + Apply(r.cipher, r.rin[..1]) == r.line + [Xor(b, KeyByte(r.cipher))];
      KeepsByFeeding(r, r', 1, FeedByte(Represents(r), b).out);
      assert r.rin[..1 - 1] == [];
    }
  }

  lemma PrefixTurnKeeps(r: Reader)
    requires Valid(r) && r.phase == Kex && r.prefix.NoPrefix? && |r.rin| >= 5
    requires PrefixTurn(r).again && PrefixTurn(r).reader.prefix.remaining > 0
    ensures Valid(PrefixTurn(r).reader) && Keeps(r, PrefixTurn(r).reader)
  {
    hide Normalized, Xor, KeyByte;
    var bytes := Apply(r.cipher, r.rin[..5]);
    PrefixTurnValid(r);
    assert [] + bytes == bytes;
    FeedIncomplete([], r.cipher, r.rin[..5]);
    KeepsByFeeding(r, PrefixTurn(r).reader, 5, []);
  }

  lemma BodyTurnKeeps(r: Reader)
    requires Valid(r) && r.phase == Kex && r.prefix.Prefix? && |r.rin| >= r.prefix.remaining
    ensures Valid(BodyTurn(r).reader) && Keeps(r, BodyTurn(r).reader)
  {
    var n := r.prefix.remaining;
    var packet := r.prefix.bytes + Apply(r.cipher, r.rin[..n]);
    BodyTurnValid(r);
    assert packet[..4] == r.prefix.bytes[..4];
    FeedPacket(r.prefix.bytes, r.cipher, r.rin[..n], packet);
    KeepsByFeeding(r, BodyTurn(r).reader, n, Normalized(packet));
  }

  lemma EmptyBodyTurn(r: Reader)
    requires HasPrefix(r) && r.prefix.remaining == 0
    ensures BodyTurn(r) == Turn(r.(prefix := NoPrefix, rbuf := r.rbuf + Normalized(r.prefix.bytes)), true)
  {
    hide Normalized;
    var packet := r.prefix.bytes + Apply(r.cipher, r.rin[..0]);
    assert packet == r.prefix.bytes;
    assert !IsNewKeys(packet);
    assert r.rin[0..] == r.rin;
    var t := BodyTurn(r);
    assert t.again && t.reader.rbuf == r.rbuf + Normalized(packet);
    assert t.reader.rin == r.rin && t.reader.cipher == r.cipher;
  }

  lemma FeedEmptyBody(cipher: Rc4State, wire: seq<byte>)
    requires |wire| == 5 && PacketLength(Apply(cipher, wire)) == 1
    ensures Feed(Machine(Packets([]), cipher), wire)
         == Ran(Machine(Packets([]), Advance(cipher, 5)), Normalized(Apply(cipher, wire)))
  {
    hide Normalized;
    var bytes := Apply(cipher, wire);
    assert [] + bytes == bytes;
    FeedPacket([], cipher, wire, bytes);
  }

  /** A packet of length 1 is over as soon as its prefix has been read. */
  lemma EmptyBodyKeeps(r: Reader)
    requires Valid(r) && r.phase == Kex && r.prefix.NoPrefix? && |r.rin| >= 5
    requires PrefixTurn(r).again && PrefixTurn(r).reader.prefix.remaining == 0
    ensures Valid(KexTurn(r).reader) && KexTurn(r).again && Keeps(r, KexTurn(r).reader)
  {
    hide Normalized;
    var bytes := Apply(r.cipher, r.rin[..5]);
    FeedEmptyBody(r.cipher, r.rin[..5]);
    PrefixTurnValid(r);
    EmptyBodyTurn(PrefixTurn(r).reader);
    KeepsByFeeding(r, KexTurn(r).reader, 5, Normalized(bytes));
  }

  /** A length out of range is consumed, yields nothing, and stops the loop. */
  lemma BadLengthKeeps(r: Reader)
    requires Valid(r) && r.phase == Kex && r.prefix.NoPrefix? && |r.rin| >= 5 && !PrefixTurn(r).again
    ensures KexTurn(r) == PrefixTurn(r) && TurnKeeps(r, PrefixTurn(r))
  {
    var r' := PrefixTurn(r).reader;
    var front := r.rin[..5];
    PrefixTurnValid(r);
    FeedBadLength(r.cipher, front);
    assert r.rbuf + [] == r.rbuf;
    hide Feed, FeedByte, Apply, Advance, PacketLength;
    KeepsByFeeding(r, r', 5, []);
    assert r.rin[..5 - 1] == front[..5 - 1] && r.rin[5 - 1] == front[5 - 1];
  }

  /** Too little input decodes to nothing, with or without a known prefix. */
  lemma ShortStarves(r: Reader)
    requires Valid(r) && Short(r)
    ensures Pending(r).out == []
    ensures r.phase == Kex ==>
      Pending(r).state == Machine(Packets((if r.prefix.Prefix? then r.prefix.bytes else []) + Apply(r.cipher, r.rin)),
                                  Advance(r.cipher, |r.rin|))
  {
    if r.phase == Kex {
      var partial := if r.prefix.Prefix? then r.prefix.bytes else [];
      var all := partial + Apply(r.cipher, r.rin);
      if r.prefix.Prefix? { assert all[..4] == partial[..4]; }
      FeedIncomplete(partial, r.cipher, r.rin);
    }
  }

  lemma BodyTurnEnds(r: Reader)
    requires HasPrefix(r)
    ensures |r.rin| >= r.prefix.remaining && !BodyTurn(r).again ==> BodyTurn(r).reader.phase == Done
    ensures |r.rin| < r.prefix.remaining ==> BodyTurn(r) == Turn(r, false)
  {
  }

  lemma KnownPrefixKeeps(r: Reader)
    requires Valid(r) && r.phase == Kex && r.prefix.Prefix?
    ensures TurnKeeps(r, BodyTurn(r))
  {
    BodyTurnEnds(r);
    if |r.rin| < r.prefix.remaining {
      KeepsItself(r);
    } else {
      BodyTurnKeeps(r);
    }
  }

  lemma NewPrefixKeeps(r: Reader)
    requires Valid(r) && r.phase == Kex && r.prefix.NoPrefix? && |r.rin| >= 5
    ensures TurnKeeps(r, KexTurn(r))
  {
    hide Keeps, Stopped, Feed;
    var t := PrefixTurn(r).reader;
    if !PrefixTurn(r).again {
      BadLengthKeeps(r);
    } else if t.prefix.remaining == 0 {
      EmptyBodyKeeps(r);
    } else {
      PrefixTurnKeeps(r);
      KnownPrefixKeeps(t);
      KeepsTransitive(r, t, BodyTurn(t).reader);
      if !BodyTurn(t).again { StoppedEarlier(r, t, BodyTurn(t).reader); }
    }
  }

  lemma KexTurnKeeps(r: Reader)
    requires Valid(r) && r.phase == Kex
    ensures TurnKeeps(r, KexTurn(r))
  {
    if r.prefix.Prefix? {
      KnownPrefixKeeps(r);
    } else if |r.rin| < 5 {
      KeepsItself(r);
    } else {
      NewPrefixKeeps(r);
    }
  }

  lemma TurnIsKept(r: Reader)
    requires Valid(r)
    ensures TurnKeeps(r, OneTurn(r))
  {
    match r.phase {
      case Ident => IdentTurnKeeps(r);
      case Kex => KexTurnKeeps(r);
      case Done => KeepsItself(r);
    }
  }

  /**
   * One call of the read loop keeps the stream, whatever arrives, and stops only in clear, for lack of
   * input, or right after the identification line or a length out of range.
   */
  lemma {:induction false} ProcessReadKeeps(r: Reader)
    requires Valid(r)
    ensures var r' := ProcessRead(r);
            Valid(r') && Keeps(r, r') && Stopped(r, r')
    decreases |r.rin|
  {
    hide Keeps, Stopped, OneTurn;
    TurnValid(r);
    TurnIsKept(r);
    var t := OneTurn(r);
    if t.again {
      ProcessReadKeeps(t.reader);
      KeepsTransitive(r, t.reader, ProcessRead(r));
      StoppedEarlier(r, t.reader, ProcessRead(r));
    }
  }

  /** A call that reads nothing changes nothing, and has nothing to go on with. */
  lemma NothingReadNothingChanged(r: Reader)
    requires Valid(r)
    ensures |ProcessRead(r).rin| == |r.rin| ==> ProcessRead(r) == r && (r.phase == Done || Short(r))
  {
    hide OneTurn, Keeps, Stopped, Short, Valid;
    ProcessReadKeeps(r);
    TurnValid(r);
    TurnChanges(r);
    if ProcessRead(r) == r { StoppedInPlace(r); }
  }

  lemma StoppedInPlace(r: Reader)
    requires Valid(r) && Stopped(r, r)
    ensures r.phase == Done || Short(r)
  {
    hide Feed, Represents, Short, Valid;
  }

  lemma TurnChanges(r: Reader)
    requires Valid(r)
    ensures OneTurn(r).reader == r || |OneTurn(r).reader.rin| < |r.rin|
  {
    if r.phase == Kex {
      PrefixTurnValid(r);
      if PrefixTurn(r).again { BodyTurnValid(PrefixTurn(r).reader); }
    }
  }
}
