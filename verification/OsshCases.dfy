/** Streams with lengths out of range, and which of them can be left unread. */
module OsshCases {
  import opened Bytes
  import opened Rc4Cipher
  import opened OsshPacket
  import opened OsshRead
  import opened OsshDelivery
  import opened OsshServer
  import opened OsshReach
  import opened OsshStall
  import opened Transducer

  // ---------------------------------------------------------------- one length out of range

  /** Over bytes that pass no length out of range the bound is one read, or what it was before. */
  lemma {:induction false} MostAlong(m: Machine, wire: seq<byte>, i: nat, j: nat)
    requires i <= j <= |wire| && NoSkipsIn(m, wire, i, j)
    requires Feed(m, wire[..i]).out == Feed(m, wire[..j]).out
    ensures var x, y := MostAfter(m, wire[..i]), MostAfter(m, wire[..j]);
            && y.any == Max(j + READ_SIZE, x.any) && y.dry == Max(j + READ_SIZE, x.dry)
    decreases j
  {
    hide Feed, SkipAt;
    if i == j {
      MostInOrder(m, wire[..i]);
    } else {
      FeedGrows(m, wire, i, j - 1);
      FeedGrows(m, wire, j - 1, j);
      MostAlong(m, wire, i, j - 1);
      SkipInPrefix(m, wire, j);
      assert wire[..j][..j - 1] == wire[..j - 1];
    }
  }

  lemma {:induction false} MostWithoutSkips(m: Machine, wire: seq<byte>, n: nat)
    requires n <= |wire| && NoSkipsIn(m, wire, 0, n)
    ensures MostAfter(m, wire[..n]) == Most(n + READ_SIZE, n + READ_SIZE)
  {
    hide Feed, SkipAt;
    if n > 0 {
      MostWithoutSkips(m, wire, n - 1);
      SkipInPrefix(m, wire, n);
      assert wire[..n][..n - 1] == wire[..n - 1];
    }
  }

  /**
   * With a single length out of range, ending at `n`: everything is always delivered exactly when
   * nothing comes after it, or what comes is too much to be received together with its last byte.
   */
  lemma OneBadLengthIff(cipher: Rc4State, wire: seq<byte>, n: nat)
    requires SkipAt(Start(cipher), wire, n) && forall k: nat :: SkipAt(Start(cipher), wire, k) ==> k == n
    ensures n <= |wire|
    ensures AlwaysComplete(cipher, wire)
       <==> |wire| >= n + READ_SIZE || Feed(Start(cipher), wire[..n]).out == Feed(Start(cipher), wire).out
  {
    hide Feed, AlwaysComplete, LengthOk, PacketLength, Xor, KeyByte, MostAfter;
    AlwaysCompleteIff(cipher, wire);
    MostWithoutSkips(Start(cipher), wire, n - 1);
    assert CanStall(Start(cipher), wire, n) <==> |wire| <= n - 1 + READ_SIZE;
  }

  // ---------------------------------------------------------------- a row of them

  predicate IsBad(five: seq<byte>)
  {
    |five| == 5 && !LengthOk(PacketLength(five))
  }

  /** Only at its end are five such bytes passed over. */
  lemma BadIsSkipped(bad: seq<byte>, cipher: Rc4State)
    requires IsBad(bad)
    ensures |Apply(cipher, bad)| == 5
    ensures Feed(Machine(Packets([]), cipher), Apply(cipher, bad)) == Ran(Machine(Packets([]), Advance(cipher, 5)), [])
    ensures forall k: nat :: SkipAt(Machine(Packets([]), cipher), Apply(cipher, bad), k) <==> k == 5
  {
    hide Feed, LengthOk, PacketLength, Apply, Advance, SkipAt;
    ApplyUndo(cipher, bad);
    ApplyFront(cipher, bad, 5);
    assert Apply(cipher, bad)[..5] == Apply(cipher, bad);
    FeedBadLength(cipher, Apply(cipher, bad));
    var r := Reader(Kex, cipher, Apply(cipher, bad), [], [], NoPrefix);
    assert Represents(r) == Machine(Packets([]), cipher);
    forall k: nat | SkipAt(Machine(Packets([]), cipher), Apply(cipher, bad), k)
      ensures k == 5
    {
      SkipInside(Machine(Packets([]), cipher), Apply(cipher, bad), k);
      SkipsOnlyAtFive(r, k);
    }
  }

  lemma SkipInside(m: Machine, wire: seq<byte>, k: nat)
    requires SkipAt(m, wire, k)
    ensures 0 < k <= |wire|
  {
  }

  /** A length out of range `j` of a row of `n` after the line. */
  predicate InRow(line: seq<byte>, n: nat, k: nat)
  {
    exists j :: 1 <= j <= n && k == |line| + 5 * j
  }

  function Row(line: seq<byte>, bads: seq<seq<byte>>, n: nat): seq<byte>
    requires n <= |bads|
  {
    line + Flatten(bads[..n])
  }

  lemma RowStep(line: seq<byte>, bads: seq<seq<byte>>, n: nat)
    requires 0 < n <= |bads|
    ensures Row(line, bads, n) == Row(line, bads, n - 1) + bads[n - 1]
  {
    assert bads[..n] == bads[..n - 1] + [bads[n - 1]];
    var last: seq<seq<byte>> := [bads[n - 1]];
    FlattenConcat(bads[..n - 1], last);
    assert last[1..] == [] && Flatten(last) == bads[n - 1] + Flatten(last[1..]);
    assert line + (Flatten(bads[..n - 1]) + bads[n - 1]) == line + Flatten(bads[..n - 1]) + bads[n - 1];
  }

  lemma {:induction false} RowFeeds(cipher: Rc4State, line: seq<byte>, bads: seq<seq<byte>>, n: nat)
    requires IsLine(line) && BANNER_START <= line && n <= |bads| && forall i :: 0 <= i < |bads| ==> IsBad(bads[i])
    ensures |Row(line, bads, n)| == |line| + 5 * n
    ensures Feed(Start(cipher), Apply(cipher, Row(line, bads, n)))
         == Ran(Machine(Packets([]), Advance(cipher, |line| + 5 * n)), line)
    ensures forall k: nat :: SkipAt(Start(cipher), Apply(cipher, Row(line, bads, n)), k) <==> InRow(line, n, k)
  {
    hide Feed, Apply, Advance, SkipAt, IsLine, IsBad, Row;
    if n == 0 {
      RowBegins(cipher, line, bads);
    } else {
      RowFeeds(cipher, line, bads, n - 1);
      RowStep(line, bads, n);
      BadIsLong(bads[n - 1]);
      var x, c := Row(line, bads, n - 1), Advance(cipher, |line| + 5 * (n - 1));
      ApplyConcat(cipher, x, bads[n - 1]);
      BadIsSkipped(bads[n - 1], c);
      FeedConcat(Start(cipher), Apply(cipher, x), Apply(c, bads[n - 1]));
      AdvanceAdd(cipher, |line| + 5 * (n - 1), 5);
      assert line + [] == line;
      RowSkips(cipher, line, n, Apply(cipher, x), Apply(c, bads[n - 1]));
    }
  }

  lemma BadIsLong(bad: seq<byte>)
    requires IsBad(bad)
    ensures |bad| == 5
  {
  }

  lemma RowBegins(cipher: Rc4State, line: seq<byte>, bads: seq<seq<byte>>)
    requires IsLine(line) && BANNER_START <= line
    ensures Row(line, bads, 0) == line
    ensures Feed(Start(cipher), Apply(cipher, line)) == Ran(Machine(Packets([]), Advance(cipher, |line|)), line)
    ensures forall k: nat :: !SkipAt(Start(cipher), Apply(cipher, line), k)
  {
    hide Feed, Apply, Advance, SkipAt, IsLine;
    LineReads(line, cipher);
    assert bads[..0] == [] && line + [] == line;
  }

  lemma RowSkips(cipher: Rc4State, line: seq<byte>, n: nat, x: seq<byte>, y: seq<byte>)
    requires n > 0 && |x| == |line| + 5 * (n - 1)
    requires forall k: nat :: SkipAt(Start(cipher), x, k) <==> InRow(line, n - 1, k)
    requires forall k: nat :: SkipAt(Feed(Start(cipher), x).state, y, k) <==> k == 5
    ensures forall k: nat :: SkipAt(Start(cipher), x + y, k) <==> InRow(line, n, k)
  {
    hide Feed, SkipAt;
    forall k: nat
      ensures SkipAt(Start(cipher), x + y, k) <==> InRow(line, n, k)
    {
      if SkipAt(Start(cipher), x + y, k) {
        if k <= |x| { SkipInFirst(Start(cipher), x, y, k); } else { SkipInSecond(Start(cipher), x, y, k); }
      }
      InRowMore(line, n, k);
      if InRow(line, n - 1, k) { SkipInLonger(Start(cipher), x, y, k); }
      if k == |line| + 5 * n { SkipLater(Start(cipher), x, y, 5); }
    }
  }

  lemma InRowMore(line: seq<byte>, n: nat, k: nat)
    requires n > 0
    ensures InRow(line, n, k) <==> InRow(line, n - 1, k) || k == |line| + 5 * n
  {
    if InRow(line, n - 1, k) {
      var j :| 1 <= j <= n - 1 && k == |line| + 5 * j;
    }
    if k == |line| + 5 * n { assert 1 <= n <= n; }
  }

  /** Each of them allows one more read. */
  lemma {:induction false} RowMost(cipher: Rc4State, line: seq<byte>, bads: seq<seq<byte>>, wire: seq<byte>, n: nat)
    requires IsLine(line) && BANNER_START <= line && forall i :: 0 <= i < |bads| ==> IsBad(bads[i])
    requires n <= |bads| && Apply(cipher, Row(line, bads, |bads|)) <= wire && |line| + 5 * |bads| <= |wire|
    requires forall k: nat :: SkipAt(Start(cipher), wire, k) <==> InRow(line, |bads|, k)
    requires forall i: nat :: i <= |bads| ==> Feed(Start(cipher), wire[..|line| + 5 * i]).out == line
    ensures n == 0 ==> MostAfter(Start(cipher), wire[..|line|]) == Most(|line| + READ_SIZE, |line| + READ_SIZE)
    ensures n > 0 ==>
      var on := |line| + 4 + (n + 1) * READ_SIZE;
      MostAfter(Start(cipher), wire[..|line| + 5 * n]) == Most(on, on) && MostAt(Start(cipher), wire, |line| + 5 * n) == on - READ_SIZE
  {
    hide Feed, SkipAt, Apply, MostAfter, IsLine, IsBad, Row;
    if n == 0 {
      MostWithoutSkips(Start(cipher), wire, |line|);
    } else {
      RowMost(cipher, line, bads, wire, n - 1);
      var i, j := |line| + 5 * (n - 1), |line| + 5 * n;
      FeedGrows(Start(cipher), wire, i, j - 1);
      FeedGrows(Start(cipher), wire, j - 1, j);
      assert InRow(line, |bads|, j);
      NotInRow(line, |bads|, n);
      MostAlong(Start(cipher), wire, i, j - 1);
      MostOnSkip(Start(cipher), wire, j);
    }
  }

  lemma NotInRow(line: seq<byte>, size: nat, n: nat)
    requires n > 0
    ensures forall k: nat :: |line| + 5 * (n - 1) < k <= |line| + 5 * n - 1 ==> !InRow(line, size, k)
  {
  }

  lemma MostOnSkip(m: Machine, wire: seq<byte>, n: nat)
    requires SkipAt(m, wire, n)
    ensures 0 < n <= |wire|
    ensures var before := MostAfter(m, wire[..n - 1]);
            var on := Max(n + READ_SIZE, Max(before.any, before.dry + READ_SIZE));
            MostAfter(m, wire[..n]) == Most(on, on)
  {
    hide Feed;
    SkipInPrefix(m, wire, n);
    assert wire[..n][..n - 1] == wire[..n - 1];
  }

  /** An identification line, lengths out of range, and a packet, as they come over the wire. */
  function RowWire(cipher: Rc4State, line: seq<byte>, bads: seq<seq<byte>>, packet: seq<byte>): seq<byte>
  {
    Apply(cipher, Row(line, bads, |bads|) + packet)
  }

  lemma RowWireFeeds(cipher: Rc4State, line: seq<byte>, bads: seq<seq<byte>>, packet: seq<byte>)
    requires IsLine(line) && BANNER_START <= line && forall i :: 0 <= i < |bads| ==> IsBad(bads[i])
    requires IsPacket(packet)
    ensures var wire := RowWire(cipher, line, bads, packet);
            && |wire| == |line| + 5 * |bads| + |packet|
            && Feed(Start(cipher), wire).out == line + Normalized(packet)
            && Apply(cipher, Row(line, bads, |bads|)) <= wire
            && forall k: nat :: SkipAt(Start(cipher), wire, k) <==> InRow(line, |bads|, k)
  {
    hide Feed, SkipAt, Apply, Advance, IsLine, IsBad, IsNewKeys, Row, Normalized, PacketLength;
    var x := Row(line, bads, |bads|);
    var c := Advance(cipher, |x|);
    RowFeeds(cipher, line, bads, |bads|);
    PacketReads(packet, c);
    ApplyConcat(cipher, x, packet);
    var w, y := Apply(cipher, x), Apply(c, packet);
    FeedConcat(Start(cipher), w, y);
    forall k: nat
      ensures SkipAt(Start(cipher), w + y, k) <==> InRow(line, |bads|, k)
    {
      if SkipAt(Start(cipher), w + y, k) {
        if k <= |w| { SkipInFirst(Start(cipher), w, y, k); } else { SkipInSecond(Start(cipher), w, y, k); }
      }
      if InRow(line, |bads|, k) { SkipInLonger(Start(cipher), w, y, k); }
    }
  }

  /** Up to each of the lengths out of range only the line has come out. */
  lemma RowOutput(cipher: Rc4State, line: seq<byte>, bads: seq<seq<byte>>, packet: seq<byte>, n: nat)
    requires IsLine(line) && BANNER_START <= line && forall i :: 0 <= i < |bads| ==> IsBad(bads[i])
    requires n <= |bads|
    ensures |line| + 5 * n <= |RowWire(cipher, line, bads, packet)|
    ensures Feed(Start(cipher), RowWire(cipher, line, bads, packet)[..|line| + 5 * n]).out == line
  {
    hide Feed, Apply, SkipAt, IsLine, IsBad;
    RowFeeds(cipher, line, bads, n);
    RowFeeds(cipher, line, bads, |bads|);
    var plain := Row(line, bads, |bads|) + packet;
    assert bads == bads[..n] + bads[n..] && bads[..|bads|] == bads;
    FlattenConcat(bads[..n], bads[n..]);
    assert plain[..|line| + 5 * n] == Row(line, bads, n);
    ApplyFront(cipher, plain, |line| + 5 * n);
  }

  lemma RowStalls(cipher: Rc4State, line: seq<byte>, bads: seq<seq<byte>>, packet: seq<byte>, n: nat)
    requires IsLine(line) && BANNER_START <= line && forall i :: 0 <= i < |bads| ==> IsBad(bads[i])
    requires IsPacket(packet) && 0 < n <= |bads|
    ensures |line| + 5 * n <= |RowWire(cipher, line, bads, packet)|
    ensures CanStall(Start(cipher), RowWire(cipher, line, bads, packet), |line| + 5 * n)
       <==> 5 * |bads| + |packet| <= 4 + n * READ_SIZE
  {
    hide Feed, SkipAt, IsLine, IsBad, IsNewKeys, Row, RowWire, Apply, MostAfter, MostAt, PacketLength, Normalized;
    var wire := RowWire(cipher, line, bads, packet);
    RowWireFeeds(cipher, line, bads, packet);
    forall i: nat | i <= |bads|
      ensures Feed(Start(cipher), wire[..|line| + 5 * i]).out == line
    {
      RowOutput(cipher, line, bads, packet, i);
    }
    RowMost(cipher, line, bads, wire, n);
    assert InRow(line, |bads|, |line| + 5 * n);
  }

  /**
   * After a row of lengths out of range a packet is delivered in every run exactly when it is too long
   * to be received before the last of them is passed, each of them having allowed one more read.
   */
  lemma RowOfBadLengths(cipher: Rc4State, line: seq<byte>, bads: seq<seq<byte>>, packet: seq<byte>)
    requires IsLine(line) && BANNER_START <= line && forall i :: 0 <= i < |bads| ==> IsBad(bads[i])
    requires IsPacket(packet) && bads != []
    ensures SkipAt(Start(cipher), RowWire(cipher, line, bads, packet), |line| + 5)
    ensures AlwaysComplete(cipher, RowWire(cipher, line, bads, packet))
       <==> |packet| >= |bads| * READ_SIZE - 5 * (|bads| - 1)
  {
    hide Feed, SkipAt, IsLine, IsBad, IsNewKeys, Row, RowWire, CanStall, AlwaysComplete, PacketLength, Normalized;
    var wire, size := RowWire(cipher, line, bads, packet), |bads|;
    RowWireFeeds(cipher, line, bads, packet);
    assert InRow(line, size, |line| + 5 * 1);
    NormalizedIsLong(packet);
    AlwaysCompleteIff(cipher, wire);
    RowStalls(cipher, line, bads, packet, size);
    RowOutput(cipher, line, bads, packet, size);
    if |packet| >= size * READ_SIZE - 5 * (size - 1) {
      forall n: nat
        ensures !CanStall(Start(cipher), wire, n)
      {
        RowNeverStalls(cipher, line, bads, packet, n);
      }
    }
  }

  lemma NormalizedIsLong(packet: seq<byte>)
    requires |packet| >= 5
    ensures Normalized(packet) != []
  {
  }

  lemma RowNeverStalls(cipher: Rc4State, line: seq<byte>, bads: seq<seq<byte>>, packet: seq<byte>, n: nat)
    requires IsLine(line) && BANNER_START <= line && forall i :: 0 <= i < |bads| ==> IsBad(bads[i])
    requires IsPacket(packet) && bads != [] && |packet| >= |bads| * READ_SIZE - 5 * (|bads| - 1)
    ensures !CanStall(Start(cipher), RowWire(cipher, line, bads, packet), n)
  {
    hide Feed, SkipAt, IsLine, IsBad, IsNewKeys, Row, RowWire, PacketLength, Normalized;
    RowWireFeeds(cipher, line, bads, packet);
    if CanStall(Start(cipher), RowWire(cipher, line, bads, packet), n) {
      assert InRow(line, |bads|, n);
      var j :| 1 <= j <= |bads| && n == |line| + 5 * j;
      RowStalls(cipher, line, bads, packet, j);
    }
  }
}
