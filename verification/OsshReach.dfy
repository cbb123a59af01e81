/** How much can have been received when the read loop stops, reading only so much at a time. */
module OsshReach {
  import opened Bytes
  import opened Rc4Cipher
  import opened OsshPacket
  import opened OsshRead
  import opened OsshDelivery

  /** The most that the program takes from the socket at once. */
  const READ_SIZE: nat := 8192

  predicate Sized(script: seq<Event>)
  {
    forall k :: 0 <= k < |script| && script[k].Filled? ==> |script[k].data| <= READ_SIZE
  }

  function Max(a: nat, b: nat): nat
  {
    if a < b then b else a
  }

  /** The most that can have been received, in any case and with nothing in the buffer. */
  datatype Most = Most(any: nat, dry: nat)

  /**
   * How much can have been received when the loop goes on after `wire`. Before it went on it may have
   * stopped there for lack of input, with everything delivered, and read once more; or it goes on with
   * what it already had. At a length out of range it stops: callers then take what is in the buffer,
   * and when that is empty it is read once more before the loop goes on.
   */
  function MostAfter(m: Machine, wire: seq<byte>): Most
    decreases |wire|
  {
    if wire == [] then Most(READ_SIZE, READ_SIZE)
    else
      var front := wire[..|wire| - 1];
      var before := MostAfter(m, front);
      var anew := |wire| + READ_SIZE;
      if SkipAt(m, wire, |wire|) then
        var on := Max(anew, Max(before.any, before.dry + READ_SIZE));
        Most(on, on)
      else if Feed(m, wire).out != Feed(m, front).out then Most(Max(anew, before.any), anew)
      else Most(Max(anew, before.any), Max(anew, before.dry))
  }

  /** The most that can have been received when the loop stops at a length out of range with nothing in the buffer. */
  function MostAt(m: Machine, wire: seq<byte>, n: nat): nat
    requires 0 < n <= |wire|
  {
    MostAfter(m, wire[..n - 1]).dry
  }

  // ---------------------------------------------------------------- the bound along the stream

  lemma {:induction false} MostInOrder(m: Machine, wire: seq<byte>)
    ensures |wire| + READ_SIZE <= MostAfter(m, wire).dry <= MostAfter(m, wire).any
    decreases |wire|
  {
    hide Feed, SkipAt;
    if wire != [] { MostInOrder(m, wire[..|wire| - 1]); }
  }

  lemma FeedGrows(m: Machine, wire: seq<byte>, i: nat, j: nat)
    requires i <= j <= |wire|
    ensures Feed(m, wire[..i]).out <= Feed(m, wire[..j]).out
  {
    hide Feed;
    assert wire[..j] == wire[..i] + wire[i..j];
    FeedConcat(m, wire[..i], wire[i..j]);
  }

  lemma {:induction false} MostGrows(m: Machine, wire: seq<byte>, i: nat, j: nat)
    requires i <= j <= |wire|
    ensures MostAfter(m, wire[..i]).any <= MostAfter(m, wire[..j]).any
    ensures Feed(m, wire[..i]).out == Feed(m, wire[..j]).out ==> MostAfter(m, wire[..i]).dry <= MostAfter(m, wire[..j]).dry
    decreases j
  {
    hide Feed, SkipAt;
    if i < j {
      MostGrows(m, wire, i, j - 1);
      FeedGrows(m, wire, i, j - 1);
      FeedGrows(m, wire, j - 1, j);
      assert wire[..j][..j - 1] == wire[..j - 1];
    }
  }

  /** A length out of range yields nothing, and after it the bound is that of any going on. */
  lemma MostAfterSkip(m: Machine, wire: seq<byte>, n: nat)
    requires SkipAt(m, wire, n)
    ensures 0 < n <= |wire|
    ensures var before, after := MostAfter(m, wire[..n - 1]), MostAfter(m, wire[..n]);
            before.any <= after.dry && before.dry + READ_SIZE <= after.dry
  {
    hide Feed, LengthOk, PacketLength, Xor, KeyByte;
    assert wire[..n][..n - 1] == wire[..n - 1] && wire[..n][n - 1] == wire[n - 1];
    assert SkipAt(m, wire[..n], n);
  }

  /** While the identification line is read nothing but lack of input stops the loop. */
  lemma {:induction false} MostInBanner(m: Machine, wire: seq<byte>)
    requires Feed(m, wire).state.core.Banner?
    ensures MostAfter(m, wire).any == |wire| + READ_SIZE
    decreases |wire|
  {
    if wire != [] {
      hide Normalized, Xor, KeyByte, Next, PacketLength, Feed;
      var front, last := wire[..|wire| - 1], wire[|wire| - 1];
      assert wire == front + [last];
      FeedConcat(m, front, [last]);
      FeedOne(Feed(m, front).state, last);
      MostInBanner(m, front);
      MostInOrder(m, front);
    }
  }

  // ---------------------------------------------------------------- what every run keeps

  ghost predicate NoSkipsIn(start: Machine, wire: seq<byte>, i: nat, j: nat)
  {
    forall n: nat :: i < n <= j ==> !SkipAt(start, wire, n)
  }

  /** The loop, having read as far as `i`, will not stop before `j`, and the bound there holds. */
  ghost predicate Ahead(start: Machine, received: seq<byte>, i: nat, j: nat)
  {
    i <= j <= |received| && NoSkipsIn(start, received, i, j) && |received| <= MostAfter(start, received[..j]).dry
  }

  /** How far the loop has read. */
  function Position(received: seq<byte>, r: Reader): nat
    requires |r.rin| <= |received|
  {
    |received| - |r.rin|
  }

  ghost predicate Within(start: Machine, received: seq<byte>, r: Reader)
  {
    |r.rin| <= |received| && exists j: nat :: Ahead(start, received, Position(received, r), j)
  }

  lemma IsWithin(start: Machine, received: seq<byte>, r: Reader, j: nat)
    requires |r.rin| <= |received| && Ahead(start, received, |received| - |r.rin|, j)
    ensures Within(start, received, r)
  {
    hide Ahead;
    assert Ahead(start, received, Position(received, r), j);
  }

  lemma NoSkipsBeyond(start: Machine, wire: seq<byte>, i: nat)
    requires i <= |wire| && NoSkips(Feed(start, wire[..i]).state, wire[i..])
    ensures NoSkipsIn(start, wire, i, |wire|)
  {
    hide Feed, SkipAt;
    assert wire == wire[..i] + wire[i..];
    if n: nat :| i < n <= |wire| && SkipAt(start, wire, n) { SkipInSecond(start, wire[..i], wire[i..], n); }
  }

  lemma ClearHasNoSkips(m: Machine, wire: seq<byte>)
    requires m.core == Clear
    ensures NoSkips(m, wire)
  {
    forall n: nat | 0 < n <= |wire|
      ensures !SkipAt(m, wire, n)
    {
      FeedClear(m, wire[..n - 1]);
    }
  }

  /** Input too short for the loop to go on holds no length out of range. */
  lemma ShortHasNoSkips(r: Reader)
    requires OsshRead.Valid(r) && Short(r)
    ensures NoSkips(Represents(r), r.rin)
  {
    forall n: nat | 0 < n <= |r.rin|
      ensures !SkipAt(Represents(r), r.rin, n)
    {
      var front := r.(rin := r.rin[..n - 1]);
      assert Represents(front) == Represents(r);
      ShortStarves(front);
    }
  }

  lemma RestHasNoSkips(start: Machine, received: seq<byte>, delivered: seq<byte>, r: Reader)
    requires Tracks(start, received, delivered, r) && (r.phase == Done || Short(r))
    ensures Ahead(start, received, |received| - |r.rin|, |received|)
  {
    hide Feed, SkipAt, MostAfter;
    var i := |received| - |r.rin|;
    if r.phase == Done { ClearHasNoSkips(Represents(r), r.rin); } else { ShortHasNoSkips(r); }
    NoSkipsBeyond(start, received, i);
    assert received[..|received|] == received;
    MostInOrder(start, received);
  }

  /** Where the loop stops after reading on from `i`, the bound holds again. */
  lemma StopAtSkip(start: Machine, received: seq<byte>, i: nat, j: nat, n: nat)
    requires Ahead(start, received, i, j) && i < n && SkipAt(start, received, n)
    ensures n <= |received| && Ahead(start, received, n, n)
    ensures Feed(start, received[..i]).out == Feed(start, received[..n]).out ==> |received| <= MostAt(start, received, n)
  {
    hide Feed, MostAfter;
    MostAfterSkip(start, received, n);
    MostGrows(start, received, j, n - 1);
    MostInOrder(start, received[..j]);
    FeedGrows(start, received, i, j);
    FeedGrows(start, received, j, n - 1);
    FeedGrows(start, received, n - 1, n);
  }

  lemma StopAtBanner(start: Machine, received: seq<byte>, i: nat, j: nat, n: nat)
    requires Ahead(start, received, i, j) && i < n && BannerEnd(start, received, n)
    ensures exists k: nat :: Ahead(start, received, n, k)
  {
    hide Feed, MostAfter, SkipAt;
    if n <= j {
      assert Ahead(start, received, n, j);
    } else {
      MostInBanner(start, received[..n - 1]);
      MostGrows(start, received, j, n - 1);
      MostInOrder(start, received[..j]);
      MostInOrder(start, received[..n]);
      assert Ahead(start, received, n, n);
    }
  }

  /** How a call can go away empty-handed: with nothing left to decode, or at a length out of range, within the bound. */
  ghost predicate DryWithin(start: Machine, received: seq<byte>, r: Reader)
  {
    && r.rbuf == [] && |r.rin| <= |received|
    && var n := |received| - |r.rin|;
       || (r.phase == Done && r.rin == []) || Short(r)
       || (SkipAt(start, received, n) && |received| <= MostAt(start, received, n))
  }

  lemma ProcessWithin(start: Machine, received: seq<byte>, delivered: seq<byte>, r: Reader)
    requires Tracks(start, received, delivered, r) && Within(start, received, r)
    ensures var s := ProcessRead(r);
            && Tracks(start, received, delivered, s) && Within(start, received, s)
            && (s.rbuf == [] && !(s.phase == Done && s.rin != []) ==> DryWithin(start, received, s))
  {
    hide Feed, Represents, SkipAt, BannerEnd, ProcessRead, Ahead, MostAt;
    TracksProcess(start, received, delivered, r);
    var s := ProcessRead(r);
    var i, n := |received| - |r.rin|, |received| - |s.rin|;
    var j: nat :| Ahead(start, received, Position(received, r), j);
    if s.phase == Done || Short(s) {
      RestHasNoSkips(start, received, delivered, s);
      IsWithin(start, received, s, |received|);
    } else if SkipAt(start, received, n) {
      StopAtSkip(start, received, i, j, n);
      IsWithin(start, received, s, n);
      if s.rbuf == [] { NothingOutput(start, received, delivered, r, s); }
    } else {
      StopAtBanner(start, received, i, j, n);
      var k: nat :| Ahead(start, received, n, k);
      IsWithin(start, received, s, k);
    }
  }

  lemma BufferGrows(r: Reader)
    requires OsshRead.Valid(r)
    ensures r.rbuf <= ProcessRead(r).rbuf
  {
    hide ProcessRead, Stopped;
    ProcessReadKeeps(r);
  }

  lemma NothingOutput(start: Machine, received: seq<byte>, delivered: seq<byte>, r: Reader, s: Reader)
    requires Tracks(start, received, delivered, r) && Tracks(start, received, delivered, s)
    requires s == ProcessRead(r) && s.rbuf == []
    ensures Feed(start, received[..|received| - |r.rin|]).out == Feed(start, received[..|received| - |s.rin|]).out
  {
    hide Feed, Represents, ProcessRead;
    BufferGrows(r);
  }

  /** One more read. */
  lemma ArrivalWithin(start: Machine, received: seq<byte>, delivered: seq<byte>, s: Reader, data: seq<byte>)
    requires Tracks(start, received, delivered, s) && DryWithin(start, received, s) && |data| <= READ_SIZE
    ensures Within(start, received + data, s.(rin := s.rin + data))
  {
    hide Feed, Represents, SkipAt, MostAfter;
    var all, n := received + data, |received| - |s.rin|;
    if Short(s) || s.phase == Done {
      RestHasNoSkips(start, received, delivered, s);
      assert all[..|received|] == received;
      SameSkips(start, received, data, n, |received|);
      MostInOrder(start, received);
      IsWithin(start, all, s.(rin := s.rin + data), |received|);
    } else {
      MostAfterSkip(start, received, n);
      assert all[..n] == received[..n];
      IsWithin(start, all, s.(rin := s.rin + data), n);
    }
  }

  lemma SameSkips(start: Machine, x: seq<byte>, y: seq<byte>, i: nat, j: nat)
    requires j <= |x| && NoSkipsIn(start, x, i, j)
    ensures NoSkipsIn(start, x + y, i, j)
  {
    hide SkipAt;
    if n: nat :| i < n <= j && SkipAt(start, x + y, n) { SkipInFirst(start, x, y, n); }
  }

  lemma PassThroughWithin(start: Machine, received: seq<byte>, r: Reader)
    requires r.rin == []
    ensures Within(start, received, r)
  {
    hide SkipAt, MostAfter;
    assert received[..|received|] == received;
    MostInOrder(start, received);
    IsWithin(start, received, r, |received|);
  }

  lemma SameUnread(start: Machine, received: seq<byte>, r: Reader, r': Reader)
    requires Within(start, received, r) && r'.rin == r.rin
    ensures Within(start, received, r')
  {
    hide Ahead;
    var j: nat :| Ahead(start, received, Position(received, r), j);
    IsWithin(start, received, r', j);
  }

  lemma RoundWithin(
    start: Machine, received: seq<byte>, delivered: seq<byte>, r: Reader, room: nat, script: seq<Event>)
    requires Tracks(start, received, delivered, r) && Within(start, received, r) && Sized(script)
    ensures var t := OneRound(r, room, script);
            var p := t.polled;
            var all := received + Data(script[..p.used]);
            Within(start, all, p.reader) && (t.done && p.status != Delivered ==> DryWithin(start, all, p.reader))
  {
    hide Feed, ProcessRead, Represents, Data, SkipAt, Short, MostAfter, Ahead, MostAt;
    ProcessWithin(start, received, delivered, r);
    DataOne(received, script);
    assert received + [] == received;
    var s := ProcessRead(r);
    if s.rbuf != [] {
      SameUnread(start, received, s, OneRound(r, room, script).polled.reader);
    } else if s.phase == Done && s.rin != [] {
      PassThroughWithin(start, received, s.(rbuf := s.rbuf + s.rin, rin := []));
    } else if script != [] && script[0].Filled? {
      ArrivalWithin(start, received, delivered, s, script[0].data);
    }
  }

  lemma {:induction false} PollReadWithin(
    start: Machine, received: seq<byte>, delivered: seq<byte>, r: Reader, room: nat, script: seq<Event>)
    requires Tracks(start, received, delivered, r) && Within(start, received, r) && Sized(script)
    ensures var p := PollRead(r, room, script);
            var all := received + Data(script[..p.used]);
            Within(start, all, p.reader) && (p.status != Delivered ==> DryWithin(start, all, p.reader))
    decreases |script|, |r.rin|
  {
    hide Feed, Represents, OneRound, Within, DryWithin;
    var t := OneRound(r, room, script);
    RoundTracks(start, received, delivered, r, room, script);
    RoundWithin(start, received, delivered, r, room, script);
    if !t.done {
      var p := PollRead(r, room, script);
      var now := Data(script[..t.polled.used]);
      var rest := script[t.polled.used..];
      var q := PollRead(t.polled.reader, room, rest);
      assert script[..p.used] == script[..t.polled.used] + rest[..q.used];
      DataConcat(script[..t.polled.used], rest[..q.used]);
      assert received + Data(script[..p.used]) == received + now + Data(rest[..q.used]);
      assert delivered + t.polled.out == delivered;
      PollReadWithin(start, received + now, delivered, t.polled.reader, room, rest);
    }
  }

  lemma {:induction false} PollsWithin(
    start: Machine, received: seq<byte>, delivered: seq<byte>, r: Reader, rooms: seq<nat>, script: seq<Event>)
    requires Tracks(start, received, delivered, r) && Within(start, received, r) && Sized(script) && rooms != []
    ensures var p := Polls(r, rooms, script);
            var all := received + Data(script[..p.used]);
            Within(start, all, p.reader) && (p.status != Delivered ==> DryWithin(start, all, p.reader))
    decreases |rooms|
  {
    hide Feed, Represents, PollRead, Within, DryWithin;
    var p := Polls(r, rooms, script);
    var first := PollRead(r, rooms[0], script);
    PollReadTracks(start, received, delivered, r, rooms[0], script);
    PollReadWithin(start, received, delivered, r, rooms[0], script);
    if |rooms| > 1 {
      var now := Data(script[..first.used]);
      var rest := Polls(first.reader, rooms[1..], script[first.used..]);
      var later := Data(script[first.used..][..rest.used]);
      assert script[..p.used] == script[..first.used] + script[first.used..][..rest.used];
      DataConcat(script[..first.used], script[first.used..][..rest.used]);
      assert received + Data(script[..p.used]) == received + now + later;
      PollsWithin(start, received + now, delivered + first.out, first.reader, rooms[1..], script[first.used..]);
    }
  }

  /** In every run that reads so much at a time, a call that goes away empty-handed does so within the bound. */
  lemma RunsStayWithin(cipher: Rc4State, rooms: seq<nat>, script: seq<Event>)
    requires rooms != [] && Sized(script)
    ensures var p := Polls(Opened(cipher), rooms, script);
            p.status != Delivered ==> DryWithin(Start(cipher), Data(script[..p.used]), p.reader)
  {
    hide Polls, Data, DryWithin, Within, Tracks;
    OpenedTracks(cipher);
    PassThroughWithin(Start(cipher), [], Opened(cipher));
    PollsWithin(Start(cipher), [], [], Opened(cipher), rooms, script);
    var taken := Data(script[..Polls(Opened(cipher), rooms, script).used]);
    assert [] + taken == taken;
  }
}
