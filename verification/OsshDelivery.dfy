/** What a caller of the obfuscated SSH stream reads, over every run and every chunking. */
module OsshDelivery {
  import opened Bytes
  import opened Rc4Cipher
  import opened OsshRead
  import opened Transducer

  /** What the socket answers to one read: data (none at end of file), not ready, or an error. */
  datatype Event = Filled(data: seq<byte>) | Blocked | Failed

  /** How a read call ends; the first two are the same success to the caller. */
  datatype Status = Delivered | EndOfFile | Waiting | Error

  /** The fields after a call, how much of the socket's script it used, and what the caller got. */
  datatype Polled = Polled(reader: Reader, used: nat, out: seq<byte>, status: Status)

  /** Once around the loop of a read call: how it ends, or how it goes on. */
  datatype Round = Round(done: bool, polled: Polled)

  function OneRound(r: Reader, room: nat, script: seq<Event>): (t: Round)
    requires OsshRead.Valid(r)
    ensures OsshRead.Valid(t.polled.reader) && t.polled.used <= |script| && |t.polled.out| <= room
    ensures !t.done ==> t.polled.used > 0 || |t.polled.reader.rin| < |r.rin|
  {
    var s := ProcessRead(r);
    if s.rbuf != [] then
      var n := if room < |s.rbuf| then room else |s.rbuf|;
      Round(true, Polled(s.(rbuf := s.rbuf[n..]), 0, s.rbuf[..n], Delivered))
    else if s.phase == Done && s.rin != [] then
      Round(false, Polled(s.(rbuf := s.rbuf + s.rin, rin := []), 0, [], Delivered))
    else if script == [] then Round(true, Polled(s, 0, [], Waiting))
    else
      match script[0]
      case Blocked => Round(true, Polled(s, 1, [], Waiting))
      case Failed => Round(true, Polled(s, 1, [], Error))
      case Filled(data) =>
        if data == [] then Round(true, Polled(s, 1, [], EndOfFile))
        else Round(false, Polled(s.(rin := s.rin + data), 1, [], Delivered))
  }

  /** One read call with room for `room` bytes, the socket answering from `script`. */
  function PollRead(r: Reader, room: nat, script: seq<Event>): (p: Polled)
    requires OsshRead.Valid(r)
    ensures OsshRead.Valid(p.reader) && p.used <= |script| && |p.out| <= room
    decreases |script|, |r.rin|
  {
    var t := OneRound(r, room, script);
    if t.done then t.polled
    else
      var p := PollRead(t.polled.reader, room, script[t.polled.used..]);
      p.(used := t.polled.used + p.used)
  }

  /** Successive read calls, each with its own room. */
  function Polls(r: Reader, rooms: seq<nat>, script: seq<Event>): (p: Polled)
    requires OsshRead.Valid(r) && rooms != []
    ensures OsshRead.Valid(p.reader) && p.used <= |script|
    decreases |rooms|
  {
    var first := PollRead(r, rooms[0], script);
    if |rooms| == 1 then first
    else
      var rest := Polls(first.reader, rooms[1..], script[first.used..]);
      Polled(rest.reader, first.used + rest.used, first.out + rest.out, rest.status)
  }

  /** The bytes in a list of socket answers. */
  function Data(script: seq<Event>): seq<byte>
  {
    if script == [] then []
    else (if script[0].Filled? then script[0].data else []) + Data(script[1..])
  }

  lemma {:induction false} DataConcat(x: seq<Event>, y: seq<Event>)
    ensures Data(x + y) == Data(x) + Data(y)
  {
    if x == [] {
      assert x + y == y;
    } else {
      assert (x + y)[1..] == x[1..] + y;
      DataConcat(x[1..], y);
    }
  }

  // ---------------------------------------------------------------- the refinement

  /**
   * The fields are where the byte-by-byte machine is once it has read what the program has read of
   * `received`, and what it has produced was delivered or is buffered; the rest is unread.
   */
  ghost predicate Tracks(start: Machine, received: seq<byte>, delivered: seq<byte>, r: Reader)
  {
    && OsshRead.Valid(r)
    && |r.rin| <= |received| && r.rin == received[|received| - |r.rin|..]
    && Feed(start, received[..|received| - |r.rin|]) == Ran(Represents(r), delivered + r.rbuf)
  }

  /** What the machine makes of everything: delivered, buffered, and what the unread input still holds. */
  lemma TracksAll(start: Machine, received: seq<byte>, delivered: seq<byte>, r: Reader)
    requires Tracks(start, received, delivered, r)
    ensures Feed(start, received) == Ran(Pending(r).state, delivered + r.rbuf + Pending(r).out)
  {
    hide Feed, Represents;
    var read := received[..|received| - |r.rin|];
    assert received == read + r.rin;
    FeedConcat(start, read, r.rin);
  }

  /** Nothing is buffered, and the loop stopped at the end of the input or after a length out of range. */
  ghost predicate Dry(start: Machine, received: seq<byte>, r: Reader)
  {
    && r.rbuf == [] && |r.rin| <= |received|
    && ((r.phase == Done && r.rin == []) || Short(r) || SkipAt(start, received, |received| - |r.rin|))
  }

  lemma TracksProcess(start: Machine, received: seq<byte>, delivered: seq<byte>, r: Reader)
    requires Tracks(start, received, delivered, r)
    ensures var s := ProcessRead(r);
            && Tracks(start, received, delivered, s)
            && (s.phase == Done || Short(s) || SkipAt(start, received, |received| - |s.rin|)
                || (s.rbuf != [] && BannerEnd(start, received, |received| - |s.rin|)))
            && (if s == r then s.phase == Done || Short(s) else |s.rin| < |r.rin|)
  {
    hide Feed, Represents, SkipAt, BannerEnd, Short, ProcessRead;
    ProcessReadKeeps(r);
    NothingReadNothingChanged(r);
    var s := ProcessRead(r);
    var read, now := received[..|received| - |r.rin|], r.rin[..Taken(r, s)];
    assert received == read + r.rin && received[..|received| - |s.rin|] == read + now;
    FeedConcat(start, read, now);
    assert delivered + r.rbuf + s.rbuf[|r.rbuf|..] == delivered + s.rbuf;
    if SkipAt(Represents(r), r.rin, Taken(r, s)) { SkipLater(start, read, r.rin, Taken(r, s)); }
    if BannerEnd(Represents(r), r.rin, Taken(r, s)) { BannerLater(start, read, r.rin, Taken(r, s)); }
  }

  lemma TracksArrival(start: Machine, received: seq<byte>, delivered: seq<byte>, r: Reader, data: seq<byte>)
    requires Tracks(start, received, delivered, r)
    ensures Tracks(start, received + data, delivered, r.(rin := r.rin + data))
  {
    hide Feed;
    var all, n := received + data, |received| - |r.rin|;
    assert all[..n] == received[..n] && all[n..] == received[n..] + data;
    assert Represents(r.(rin := r.rin + data)) == Represents(r);
  }

  lemma TracksPassThrough(start: Machine, received: seq<byte>, delivered: seq<byte>, r: Reader)
    requires Tracks(start, received, delivered, r) && r.phase == Done
    ensures Tracks(start, received, delivered, r.(rbuf := r.rbuf + r.rin, rin := []))
  {
    FeedClear(Represents(r), r.rin);
    var r' := r.(rbuf := r.rbuf + r.rin, rin := []);
    assert Represents(r') == Represents(r);
    hide Feed, Represents;
    TracksAll(start, received, delivered, r);
    assert received[..|received|] == received && received[|received|..] == [];
    assert delivered + r.rbuf + r.rin == delivered + r'.rbuf;
  }

  lemma TracksHandOver(start: Machine, received: seq<byte>, delivered: seq<byte>, r: Reader, n: nat)
    requires Tracks(start, received, delivered, r) && n <= |r.rbuf|
    ensures Tracks(start, received, delivered + r.rbuf[..n], r.(rbuf := r.rbuf[n..]))
  {
    var r' := r.(rbuf := r.rbuf[n..]);
    assert Represents(r') == Represents(r);
    hide Feed, Represents;
    assert delivered + r.rbuf == delivered + r.rbuf[..n] + r.rbuf[n..];
  }

  /** Nothing comes out of the stream after a length out of range. */
  ghost predicate QuietAfterSkip(start: Machine, received: seq<byte>)
  {
    forall n: nat :: SkipAt(start, received, n) ==> Feed(start, received[..n]).out == Feed(start, received).out
  }

  /** A reader run dry has delivered everything when what it has not read holds nothing, and only then. */
  lemma DryIsComplete(start: Machine, received: seq<byte>, delivered: seq<byte>, r: Reader)
    requires Tracks(start, received, delivered, r) && Dry(start, received, r)
    ensures delivered == Feed(start, received).out <==> Pending(r).out == []
    ensures QuietAfterSkip(start, received) ==> delivered == Feed(start, received).out
  {
    TracksAll(start, received, delivered, r);
    assert delivered + [] == delivered && delivered + [] + Pending(r).out == delivered + Pending(r).out;
    if Short(r) {
      ShortStarves(r);
    } else if r.phase == Done && r.rin == [] {
      FeedClear(Represents(r), []);
    } else {
      hide Feed, Represents;
      assert Feed(start, received[..|received| - |r.rin|]).out == delivered;
    }
  }

  lemma DataOne(received: seq<byte>, script: seq<Event>)
    ensures received + Data(script[..0]) == received
    ensures script != [] ==> Data(script[..1]) == if script[0].Filled? then script[0].data else []
  {
    if script != [] { assert script[..1][1..] == []; }
  }

  lemma RoundTracks(
    start: Machine, received: seq<byte>, delivered: seq<byte>, r: Reader, room: nat, script: seq<Event>)
    requires Tracks(start, received, delivered, r)
    ensures var t := OneRound(r, room, script);
            var p := t.polled;
            && Tracks(start, received + Data(script[..p.used]), delivered + p.out, p.reader)
            && (!t.done ==> p.out == [])
            && (t.done && p.status != Delivered ==> Dry(start, received + Data(script[..p.used]), p.reader))
  {
    hide Feed, ProcessRead, Represents, Data, SkipAt, Short;
    var p := OneRound(r, room, script).polled;
    TracksProcess(start, received, delivered, r);
    DataOne(received, script);
    assert delivered + [] == delivered && received + [] == received;
    var s := ProcessRead(r);
    if s.rbuf != [] {
      TracksHandOver(start, received, delivered, s, |p.out|);
    } else if s.phase == Done && s.rin != [] {
      TracksPassThrough(start, received, delivered, s);
    } else if script != [] && script[0].Filled? {
      TracksArrival(start, received, delivered, s, script[0].data);
    }
  }

  /** One call, whatever room it has and whatever arrives; a call that gets no data has run the reader dry. */
  lemma {:induction false} PollReadTracks(
    start: Machine, received: seq<byte>, delivered: seq<byte>, r: Reader, room: nat, script: seq<Event>)
    requires Tracks(start, received, delivered, r)
    ensures var p := PollRead(r, room, script);
            && Tracks(start, received + Data(script[..p.used]), delivered + p.out, p.reader)
            && (p.status != Delivered ==> Dry(start, received + Data(script[..p.used]), p.reader))
    decreases |script|, |r.rin|
  {
    hide Feed, Represents, OneRound, Dry;
    var t := OneRound(r, room, script);
    RoundTracks(start, received, delivered, r, room, script);
    if !t.done {
      var p := PollRead(r, room, script);
      var now := Data(script[..t.polled.used]);
      var rest := script[t.polled.used..];
      var q := PollRead(t.polled.reader, room, rest);
      assert script[..p.used] == script[..t.polled.used] + rest[..q.used];
      DataConcat(script[..t.polled.used], rest[..q.used]);
      assert received + Data(script[..p.used]) == received + now + Data(rest[..q.used]);
      assert delivered + t.polled.out == delivered;
      PollReadTracks(start, received + now, delivered, t.polled.reader, room, rest);
    }
  }

  lemma {:induction false} PollsTrack(
    start: Machine, received: seq<byte>, delivered: seq<byte>, r: Reader, rooms: seq<nat>, script: seq<Event>)
    requires Tracks(start, received, delivered, r) && rooms != []
    ensures var p := Polls(r, rooms, script);
            && Tracks(start, received + Data(script[..p.used]), delivered + p.out, p.reader)
            && (p.status != Delivered ==> Dry(start, received + Data(script[..p.used]), p.reader))
    decreases |rooms|
  {
    hide Feed, Represents, PollRead, Dry;
    var p := Polls(r, rooms, script);
    var first := PollRead(r, rooms[0], script);
    PollReadTracks(start, received, delivered, r, rooms[0], script);
    if |rooms| > 1 {
      var now := Data(script[..first.used]);
      var rest := Polls(first.reader, rooms[1..], script[first.used..]);
      var later := Data(script[first.used..][..rest.used]);
      assert script[..p.used] == script[..first.used] + script[first.used..][..rest.used];
      DataConcat(script[..first.used], script[first.used..][..rest.used]);
      assert received + Data(script[..p.used]) == received + now + later;
      PollsTrack(start, received + now, delivered + first.out, first.reader, rooms[1..], script[first.used..]);
      assert delivered + first.out + rest.out == delivered + p.out;
    }
  }

  /** A stream just opened: nothing received, the cipher at its start. */
  function Opened(cipher: Rc4State): Reader
  {
    Reader(Ident, cipher, [], [], [], NoPrefix)
  }

  function Start(cipher: Rc4State): Machine
  {
    Machine(Banner([]), cipher)
  }

  lemma OpenedTracks(cipher: Rc4State)
    ensures Tracks(Start(cipher), [], [], Opened(cipher))
  {
    var r := Opened(cipher);
    assert Represents(r) == Start(cipher);
  }

  /**
   * However the stream is cut into arrivals and whatever room the caller has, what it gets is a
   * prefix of what the byte-by-byte machine makes of the bytes taken from the socket. When a call
   * goes away empty-handed it is all of it exactly when the bytes not yet read hold nothing, which
   * is so unless something follows a length out of range.
   */
  lemma AnyChunkingDeliversTheStream(cipher: Rc4State, rooms: seq<nat>, script: seq<Event>)
    requires rooms != []
    ensures var p := Polls(Opened(cipher), rooms, script);
            var taken := Data(script[..p.used]);
            var all := Feed(Start(cipher), taken).out;
            && p.out <= all
            && (p.status != Delivered ==> (p.out == all <==> Pending(p.reader).out == []))
            && (p.status != Delivered && QuietAfterSkip(Start(cipher), taken) ==> p.out == all)
  {
    hide Feed, Polls, Represents, Tracks, Dry, QuietAfterSkip;
    var p := Polls(Opened(cipher), rooms, script);
    var taken := Data(script[..p.used]);
    OpenedTracks(cipher);
    assert [] + taken == taken && [] + p.out == p.out;
    PollsTrack(Start(cipher), [], [], Opened(cipher), rooms, script);
    TracksAll(Start(cipher), taken, p.out, p.reader);
    assert p.out + p.reader.rbuf + Pending(p.reader).out == p.out + (p.reader.rbuf + Pending(p.reader).out);
    if p.status != Delivered { DryIsComplete(Start(cipher), taken, p.out, p.reader); }
  }

  /** Two cuttings of one stream: of what they have delivered, one is the beginning of the other. */
  lemma ChunkingsAgree(cipher: Rc4State, rooms1: seq<nat>, script1: seq<Event>, rooms2: seq<nat>, script2: seq<Event>)
    requires rooms1 != [] && rooms2 != []
    requires Data(script1[..Polls(Opened(cipher), rooms1, script1).used])
          == Data(script2[..Polls(Opened(cipher), rooms2, script2).used])
    ensures var p1, p2 := Polls(Opened(cipher), rooms1, script1), Polls(Opened(cipher), rooms2, script2);
            && (p1.out <= p2.out || p2.out <= p1.out)
            && (p1.status != Delivered && p2.status != Delivered
                && QuietAfterSkip(Start(cipher), Data(script1[..p1.used]))
                ==> p1.out == p2.out)
  {
    hide Feed, Polls, Represents, QuietAfterSkip, Tracks;
    AnyChunkingDeliversTheStream(cipher, rooms1, script1);
    AnyChunkingDeliversTheStream(cipher, rooms2, script2);
  }
}
