/** Calls one after the other: what they hand over, and that calls enough hand over everything. */
module OsshCalls {
  import opened Bytes
  import opened Rc4Cipher
  import opened OsshRead
  import opened OsshDelivery

  // ---------------------------------------------------------------- calls one after the other

  lemma {:induction false} PollsConcat(r: Reader, rooms1: seq<nat>, rooms2: seq<nat>, script: seq<Event>)
    requires OsshRead.Valid(r) && rooms1 != [] && rooms2 != []
    ensures var p1 := Polls(r, rooms1, script);
            var p2 := Polls(p1.reader, rooms2, script[p1.used..]);
            Polls(r, rooms1 + rooms2, script) == Polled(p2.reader, p1.used + p2.used, p1.out + p2.out, p2.status)
    decreases |rooms1|
  {
    hide PollRead;
    var rooms := rooms1 + rooms2;
    var first := PollRead(r, rooms1[0], script);
    assert rooms[0] == rooms1[0];
    if |rooms1| == 1 {
      assert rooms[1..] == rooms2;
    } else {
      var later := script[first.used..];
      assert rooms[1..] == rooms1[1..] + rooms2;
      PollsConcat(first.reader, rooms1[1..], rooms2, later);
      var q := Polls(first.reader, rooms1[1..], later);
      assert later[q.used..] == script[first.used + q.used..];
      Associative(first.out, q.out, Polls(q.reader, rooms2, later[q.used..]).out);
    }
  }

  /** The next call has something to hand over without the socket. */
  predicate HandsOver(r: Reader)
    requires OsshRead.Valid(r)
  {
    var s := ProcessRead(r);
    s.rbuf != [] || (s.phase == Done && s.rin != [])
  }

  /** What it hands over given enough room, and the fields it leaves. */
  function Handed(r: Reader): seq<byte>
    requires OsshRead.Valid(r)
  {
    var s := ProcessRead(r);
    if s.rbuf != [] then s.rbuf else s.rin
  }

  function Emptied(r: Reader): (r': Reader)
    requires OsshRead.Valid(r)
    ensures OsshRead.Valid(r') && |r'.rin| <= |r.rin|
  {
    var s := ProcessRead(r);
    s.(rbuf := [], rin := if s.rbuf != [] then s.rin else [])
  }

  /** As much from the beginning of `bytes` as there is room for. */
  function Least(bytes: seq<byte>, room: nat): (fitting: seq<byte>)
    ensures |fitting| == if room < |bytes| then room else |bytes|
    ensures fitting <= bytes
  {
    bytes[..if room < |bytes| then room else |bytes|]
  }

  /** Of what is there, the caller gets as much as it has room for, and the rest stays for the next call. */
  lemma CallHandsOver(r: Reader, room: nat, script: seq<Event>)
    requires OsshRead.Valid(r) && HandsOver(r)
    ensures var out := Least(Handed(r), room);
            PollRead(r, room, script) == Polled(Emptied(r).(rbuf := Handed(r)[|out|..]), 0, out, Delivered)
  {
    var s := ProcessRead(r);
    if s.rbuf == [] {
      var s' := s.(rbuf := s.rin, rin := []);
      assert [] + s.rin == s.rin && script[0..] == script;
      assert ProcessRead(s') == s';
      hide ProcessRead;
      assert OneRound(r, room, script) == Round(false, Polled(s', 0, [], Delivered));
    }
  }

  lemma CallHandsOverAll(r: Reader, script: seq<Event>)
    requires OsshRead.Valid(r) && HandsOver(r)
    ensures PollRead(r, |Handed(r)|, script) == Polled(Emptied(r), 0, Handed(r), Delivered)
  {
    hide PollRead, HandsOver, ProcessRead;
    CallHandsOver(r, |Handed(r)|, script);
    assert Least(Handed(r), |Handed(r)|) == Handed(r);
  }

  predicate HasData(event: Event)
  {
    event.Filled? && event.data != []
  }

  /** What a call used of the answers was data, up to the last, which says how the call ends. */
  ghost predicate Ends(p: Polled, room: nat, script: seq<Event>)
  {
    && p.used <= |script| && (forall k :: 0 <= k < p.used - 1 ==> HasData(script[k]))
    && match p.status
       case Delivered => (p.used > 0 ==> HasData(script[p.used - 1])) && (room > 0 ==> p.out != [])
       case Waiting =>
         && p.out == []
         && (if p.used > 0 && !HasData(script[p.used - 1]) then script[p.used - 1] == Blocked
             else p.used == |script|)
       case EndOfFile => p.out == [] && p.used > 0 && script[p.used - 1] == Filled([])
       case Error => p.out == [] && p.used > 0 && script[p.used - 1] == Failed
  }

  lemma EndsOneMore(p: Polled, room: nat, script: seq<Event>)
    requires script != [] && HasData(script[0]) && Ends(p, room, script[1..])
    ensures Ends(p.(used := 1 + p.used), room, script)
  {
    assert forall k :: 0 < k <= p.used ==> script[k] == script[1..][k - 1];
  }

  lemma EndsFirst(r: Reader, room: nat, script: seq<Event>)
    requires OsshRead.Valid(r)
    ensures var t := OneRound(r, room, script);
            if t.done then Ends(t.polled, room, script) else t.polled.used == 0 || (t.polled.used == 1 && HasData(script[0]))
  {
    hide ProcessRead;
  }

  /**
   * A call that has nothing to hand over reads on for as long as data comes; what ends it is bytes to
   * hand over, or the first answer of another kind, or the end of the answers. With any room at all,
   * a call that delivers delivers something.
   */
  lemma {:induction false} CallEnds(r: Reader, room: nat, script: seq<Event>)
    requires OsshRead.Valid(r)
    ensures Ends(PollRead(r, room, script), room, script)
    decreases |script|, |r.rin|
  {
    hide OneRound, Ends;
    var t := OneRound(r, room, script);
    EndsFirst(r, room, script);
    if !t.done {
      var n := t.polled.used;
      CallEnds(t.polled.reader, room, script[n..]);
      assert script[0..] == script;
      if n == 1 { EndsOneMore(PollRead(t.polled.reader, room, script[1..]), room, script); }
    }
  }

  lemma CallWaits(r: Reader, room: nat, script: seq<Event>)
    requires OsshRead.Valid(r) && !HandsOver(r) && (script == [] || script[0] == Blocked)
    ensures PollRead(r, room, script) == Polled(ProcessRead(r), if script == [] then 0 else 1, [], Waiting)
  {
    hide ProcessRead;
  }

  /** Handing over makes progress. */
  lemma EmptiedIsLess(r: Reader)
    requires OsshRead.Valid(r) && HandsOver(r)
    ensures |Emptied(r).rin| < |r.rin| || (|Emptied(r).rin| == |r.rin| && |Emptied(r).rbuf| < |r.rbuf|)
  {
    NothingReadNothingChanged(r);
    hide ProcessRead;
  }

  lemma FirstCallThen(r: Reader, room: nat, rooms: seq<nat>, script: seq<Event>)
    requires OsshRead.Valid(r) && rooms != []
    ensures var p := PollRead(r, room, script);
            var q := Polls(p.reader, rooms, script[p.used..]);
            Polls(r, [room] + rooms, script) == Polled(q.reader, p.used + q.used, p.out + q.out, q.status)
  {
    hide PollRead;
    assert ([room] + rooms)[1..] == rooms;
  }

  // ---------------------------------------------------------------- nothing is lost for good

  lemma HandedIsPending(r: Reader)
    requires OsshRead.Valid(r) && HandsOver(r)
    ensures Emptied(r).rbuf == [] && r.rbuf + Pending(r).out == Handed(r) + Pending(Emptied(r)).out
  {
    var s := ProcessRead(r);
    ProcessReadKeeps(r);
    KeepsPending(r, s);
    hide ProcessRead, Keeps, Stopped;
    if s.rbuf == [] { ClearPending(s); } else { SamePending(s); }
  }

  lemma ClearPending(s: Reader)
    requires OsshRead.Valid(s) && s.phase == Done
    ensures Pending(s).out == s.rin && Pending(s.(rin := [])).out == []
    ensures [] + s.rin == s.rin + []
  {
    FeedClear(Represents(s), s.rin);
  }

  lemma SamePending(s: Reader)
    requires OsshRead.Valid(s)
    ensures Pending(s.(rbuf := [])) == Pending(s)
  {
    assert Represents(s.(rbuf := [])) == Represents(s);
  }

  lemma StillHasNothing(r: Reader)
    requires OsshRead.Valid(r) && !HandsOver(r) && ProcessRead(r) == r
    ensures r.rbuf == [] && Pending(r).out == []
  {
    hide ProcessRead;
    ProcessReadKeeps(r);
    if Short(r) {
      ShortStarves(r);
    } else {
      FeedClear(Represents(r), []);
    }
  }

  /** Without any further input, calls enough deliver all that has been received can yield. */
  lemma {:induction false} EnoughCalls(r: Reader) returns (rooms: seq<nat>)
    requires OsshRead.Valid(r)
    ensures rooms != [] && Polls(r, rooms, []).out == r.rbuf + Pending(r).out
    decreases |r.rin|, |r.rbuf|
  {
    hide PollRead, ProcessRead, Handed, Emptied, Pending;
    var none: seq<Event> := [];
    assert none[0..] == none;
    if HandsOver(r) {
      CallHandsOverAll(r, []);
      EmptiedIsLess(r);
      HandedIsPending(r);
      var more := EnoughCalls(Emptied(r));
      FirstCallThen(r, |Handed(r)|, more, []);
      assert [] + Pending(Emptied(r)).out == Pending(Emptied(r)).out;
      rooms := [|Handed(r)|] + more;
    } else {
      CallWaits(r, 0, []);
      var s := ProcessRead(r);
      if s == r {
        StillHasNothing(r);
        rooms := [0];
      } else {
        NothingReadNothingChanged(r);
        ProcessReadKeeps(r);
        KeepsPending(r, s);
        var more := EnoughCalls(s);
        FirstCallThen(r, 0, more, []);
        assert [] + Polls(s, more, []).out == Polls(s, more, []).out;
        rooms := [0] + more;
      }
    }
  }

  /** The tracking of a run from the beginning. */
  lemma PollsFromStart(cipher: Rc4State, rooms: seq<nat>, script: seq<Event>)
    requires rooms != []
    ensures var p := Polls(Opened(cipher), rooms, script);
            && Tracks(Start(cipher), Data(script[..p.used]), p.out, p.reader)
            && (p.status != Delivered ==> Dry(Start(cipher), Data(script[..p.used]), p.reader))
  {
    hide Polls, Tracks, Dry, Data;
    var p := Polls(Opened(cipher), rooms, script);
    OpenedTracks(cipher);
    PollsTrack(Start(cipher), [], [], Opened(cipher), rooms, script);
    assert [] + Data(script[..p.used]) == Data(script[..p.used]) && [] + p.out == p.out;
  }

  /** After any run, calls enough deliver all of the machine's output, whatever has arrived and however. */
  lemma NothingIsLostForGood(cipher: Rc4State, rooms: seq<nat>, script: seq<Event>) returns (more: seq<nat>)
    requires rooms != []
    ensures var p := Polls(Opened(cipher), rooms, script);
            more != [] && p.out + Polls(p.reader, more, []).out == Feed(Start(cipher), Data(script[..p.used])).out
  {
    hide Feed, Polls, Represents;
    var p := Polls(Opened(cipher), rooms, script);
    var taken := Data(script[..p.used]);
    PollsFromStart(cipher, rooms, script);
    TracksAll(Start(cipher), taken, p.out, p.reader);
    more := EnoughCalls(p.reader);
    Associative(p.out, p.reader.rbuf, Pending(p.reader).out);
  }
}
