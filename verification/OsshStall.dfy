/** Calls that go away empty-handed with input unread: for which streams that can happen, and how. */
module OsshStall {
  import opened Bytes
  import opened Rc4Cipher
  import opened OsshPacket
  import opened OsshRead
  import opened OsshDelivery
  import opened OsshCalls
  import opened OsshReach
  import opened Transducer

  // ---------------------------------------------------------------- where a length is passed over

  /** Going back over the bytes of an unfinished packet. */
  lemma {:induction false} Back(m: Machine, wire: seq<byte>, k: nat)
    requires m.core.Banner? && Feed(m, wire).state.core.Packets? && k <= |Feed(m, wire).state.core.partial|
    ensures k <= |wire|
    ensures var partial := Feed(m, wire).state.core.partial;
            var before := Feed(m, wire[..|wire| - k]);
            before.state.core == Packets(partial[..|partial| - k]) && before.out == Feed(m, wire).out
  {
    if k == 0 {
      assert wire[..|wire|] == wire;
    } else {
      BackOne(m, wire);
      hide Feed;
      var front := wire[..|wire| - 1];
      Back(m, front, k - 1);
      assert front[..|front| - (k - 1)] == wire[..|wire| - k];
    }
  }

  lemma BackOne(m: Machine, wire: seq<byte>)
    requires m.core.Banner? && Feed(m, wire).state.core.Packets? && Feed(m, wire).state.core.partial != []
    ensures wire != []
    ensures var partial := Feed(m, wire).state.core.partial;
            var before := Feed(m, wire[..|wire| - 1]);
            before.state.core == Packets(partial[..|partial| - 1]) && before.out == Feed(m, wire).out
  {
    assert wire != [];
    hide Normalized, Xor, KeyByte, Next, PacketLength, Feed;
    var front, last := wire[..|wire| - 1], wire[|wire| - 1];
    assert wire == front + [last];
    FeedConcat(m, front, [last]);
    FeedOne(Feed(m, front).state, last);
  }

  /** Before a length out of range a packet was to begin, and its five bytes yield nothing. */
  lemma SkipShape(cipher: Rc4State, wire: seq<byte>, n: nat)
    requires SkipAt(Start(cipher), wire, n)
    ensures 5 < n <= |wire|
    ensures var before := Feed(Start(cipher), wire[..n - 5]);
            && before.state.core == Packets([])
            && !LengthOk(PacketLength(Apply(before.state.cipher, wire[n - 5..n])))
            && Feed(Start(cipher), wire[..n]).out == before.out
  {
    hide Feed, LengthOk, PacketLength, Apply, Advance, Xor, KeyByte;
    var front := wire[..n - 1];
    Back(Start(cipher), front, 4);
    var a, four, five := wire[..n - 5], wire[n - 5..n - 1], wire[n - 5..n];
    assert front[..|front| - 4] == a && front == a + four && wire[..n] == a + five && five == four + [wire[n - 1]];
    var before := Feed(Start(cipher), a);
    var c := before.state.cipher;
    assert before.state == Machine(Packets([]), c);
    StartFeed(cipher);
    assert n == 5 ==> a == [];
    FeedConcat(Start(cipher), a, four);
    FourBytes(c, four);
    ApplyLast(c, four, wire[n - 1]);
    FeedConcat(Start(cipher), a, five);
    FeedBadLength(c, five);
    assert before.out + [] == before.out;
  }

  lemma StartFeed(cipher: Rc4State)
    ensures Feed(Start(cipher), []).state.core.Banner?
  {
  }

  lemma FourBytes(cipher: Rc4State, four: seq<byte>)
    requires |four| == 4
    ensures Feed(Machine(Packets([]), cipher), four)
         == Ran(Machine(Packets(Apply(cipher, four)), Advance(cipher, 4)), [])
  {
    hide Feed;
    assert [] + Apply(cipher, four) == Apply(cipher, four);
    FeedIncomplete([], cipher, four);
  }

  lemma CoreAfterSkip(m: Machine, wire: seq<byte>, n: nat)
    requires SkipAt(m, wire, n)
    ensures 0 < n <= |wire|
    ensures Feed(m, wire[..n]).state.core == Packets([]) && Feed(m, wire[..n]).out == Feed(m, wire[..n - 1]).out
  {
    hide Feed, LengthOk, PacketLength, Xor, KeyByte, Normalized;
    var front, last := wire[..n - 1], wire[n - 1];
    assert wire[..n] == front + [last];
    FeedConcat(m, front, [last]);
    FeedOne(Feed(m, front).state, last);
  }

  // ---------------------------------------------------------------- the loop stops at the first

  /** No length out of range ends among the first `n` unread bytes. */
  ghost predicate Unskipped(r: Reader, n: nat)
    requires OsshRead.Valid(r)
  {
    forall k: nat :: k <= n ==> !SkipAt(Represents(r), r.rin, k)
  }

  lemma FrontState(r: Reader, k: nat)
    requires OsshRead.Valid(r) && r.phase == Kex && 0 < k <= |r.rin|
    requires k <= if r.prefix.Prefix? then r.prefix.remaining else 5
    ensures Feed(Represents(r), r.rin[..k - 1]).state
         == Machine(Packets((if r.prefix.Prefix? then r.prefix.bytes else []) + Apply(r.cipher, r.rin[..k - 1])),
                    Advance(r.cipher, k - 1))
  {
    hide Feed, Apply, Advance;
    var front := r.(rin := r.rin[..k - 1]);
    assert Represents(front) == Represents(r);
    ShortStarves(front);
  }

  /** While a packet is incomplete only its fifth byte can end a length out of range. */
  lemma SkipsOnlyAtFive(r: Reader, k: nat)
    requires OsshRead.Valid(r) && r.phase == Kex && k <= |r.rin|
    requires k <= if r.prefix.Prefix? then r.prefix.remaining else 5
    requires SkipAt(Represents(r), r.rin, k)
    ensures r.prefix.NoPrefix? && k == 5 && !LengthOk(PacketLength(Apply(r.cipher, r.rin[..5])))
  {
    hide Feed, LengthOk, PacketLength, Xor, KeyByte, Apply, Advance, Represents;
    FrontState(r, k);
    if r.prefix.NoPrefix? && k == 5 {
      assert r.rin[..5] == r.rin[..4] + [r.rin[4]] && r.rin[..5 - 1] == r.rin[..4];
      ApplyLast(r.cipher, r.rin[..4], r.rin[4]);
      assert [] + Apply(r.cipher, r.rin[..4]) == Apply(r.cipher, r.rin[..4]);
    }
  }

  lemma BodyPasses(r: Reader)
    requires OsshRead.Valid(r) && r.phase == Kex && r.prefix.Prefix? && |r.rin| >= r.prefix.remaining
    ensures Unskipped(r, r.prefix.remaining)
  {
    hide SkipAt;
    if k: nat :| k <= r.prefix.remaining && SkipAt(Represents(r), r.rin, k) { SkipsOnlyAtFive(r, k); }
  }

  lemma PrefixPasses(r: Reader)
    requires OsshRead.Valid(r) && r.phase == Kex && r.prefix.NoPrefix? && |r.rin| >= 5
    ensures Unskipped(r, if LengthOk(PacketLength(Apply(r.cipher, r.rin[..5]))) then 5 else 4)
  {
    hide SkipAt, LengthOk, PacketLength;
    var n := if LengthOk(PacketLength(Apply(r.cipher, r.rin[..5]))) then 5 else 4;
    if k: nat :| k <= n && SkipAt(Represents(r), r.rin, k) { SkipsOnlyAtFive(r, k); }
  }

  lemma UnskippedThen(a: Reader, b: Reader, n: nat)
    requires OsshRead.Valid(a) && OsshRead.Valid(b) && Keeps(a, b)
    requires Unskipped(a, Taken(a, b)) && Unskipped(b, n)
    ensures Unskipped(a, Taken(a, b) + n)
  {
    hide Feed, Represents, SkipAt;
    var x := a.rin[..Taken(a, b)];
    assert a.rin == x + b.rin;
    if k: nat :| k <= Taken(a, b) + n && SkipAt(Represents(a), a.rin, k) {
      SkipInSecond(Represents(a), x, b.rin, k);
    }
  }

  /** How many of the bytes it takes a turn surely passes: all when the loop goes on. */
  function Passed(r: Reader, t: Turn): nat
    requires |t.reader.rin| <= |r.rin|
  {
    if t.again || |t.reader.rin| == |r.rin| then Taken(r, t.reader) else Taken(r, t.reader) - 1
  }

  lemma IdentPasses(r: Reader)
    requires OsshRead.Valid(r) && r.phase == Ident
    ensures Unskipped(r, if r.rin == [] then 0 else 1)
  {
  }

  lemma NewPacketPasses(r: Reader)
    requires OsshRead.Valid(r) && r.phase == Kex && r.prefix.NoPrefix? && |r.rin| >= 5
    ensures |KexTurn(r).reader.rin| <= |r.rin| && Unskipped(r, Passed(r, KexTurn(r)))
  {
    hide Represents, SkipAt, Feed, LengthOk, PacketLength, Normalized;
    PrefixPasses(r);
    PrefixTurnValid(r);
    var t := PrefixTurn(r).reader;
    if PrefixTurn(r).again {
      BodyTurnValid(t);
      if t.prefix.remaining > 0 && |t.rin| >= t.prefix.remaining {
        PrefixTurnKeeps(r);
        BodyPasses(t);
        UnskippedThen(r, t, t.prefix.remaining);
      }
    }
  }

  lemma TurnPasses(r: Reader)
    requires OsshRead.Valid(r)
    ensures |OneTurn(r).reader.rin| <= |r.rin| && Unskipped(r, Passed(r, OneTurn(r)))
  {
    TurnValid(r);
    match r.phase {
      case Ident => IdentPasses(r);
      case Kex =>
        if r.prefix.NoPrefix? && |r.rin| >= 5 {
          NewPacketPasses(r);
        } else if r.prefix.Prefix? && |r.rin| >= r.prefix.remaining {
          BodyPasses(r);
        }
      case Done =>
    }
  }

  /** One call of the read loop never passes a length out of range without stopping there. */
  lemma {:induction false} LoopStopsAtSkip(r: Reader, n: nat)
    requires OsshRead.Valid(r) && SkipAt(Represents(r), r.rin, n)
    ensures Taken(r, ProcessRead(r)) <= n
    decreases |r.rin|
  {
    hide Represents, SkipAt, OneTurn, Feed;
    TurnValid(r);
    TurnIsKept(r);
    TurnPasses(r);
    var t := OneTurn(r);
    if t.again {
      SkipIsLater(r, t.reader, n);
      LoopStopsAtSkip(t.reader, n - Taken(r, t.reader));
    }
  }

  lemma SkipIsLater(a: Reader, b: Reader, n: nat)
    requires OsshRead.Valid(a) && OsshRead.Valid(b) && Keeps(a, b)
    requires SkipAt(Represents(a), a.rin, n) && n > Taken(a, b)
    ensures SkipAt(Represents(b), b.rin, n - Taken(a, b))
  {
    hide Represents, SkipAt, Feed;
    var x := a.rin[..Taken(a, b)];
    assert a.rin == x + b.rin;
    SkipInSecond(Represents(a), x, b.rin, n);
  }

  // ---------------------------------------------------------------- ways through a run

  /**
   * A way to bring a run into the middle of a call: the room of each call before it, the answers of
   * the socket so far, what callers have got, and the fields as the loop goes round again.
   */
  datatype Way = Way(rooms: seq<nat>, script: seq<Event>, out: seq<byte>, reader: Reader)

  /** The call goes on from there, with whatever room it has and whatever the socket answers next. */
  ghost predicate Resumes(cipher: Rc4State, w: Way, room: nat, rest: seq<Event>)
    requires OsshRead.Valid(w.reader)
  {
    var p := PollRead(w.reader, room, rest);
    Polls(Opened(cipher), w.rooms + [room], w.script + rest)
      == Polled(p.reader, |w.script| + p.used, w.out + p.out, p.status)
  }

  ghost predicate Leads(cipher: Rc4State, w: Way)
  {
    OsshRead.Valid(w.reader) && forall room: nat, rest: seq<Event> :: Resumes(cipher, w, room, rest)
  }

  /** The way takes just these bytes from the socket, never too many at once. */
  ghost predicate OnWay(cipher: Rc4State, taken: seq<byte>, w: Way)
  {
    && Leads(cipher, w) && Sized(w.script) && Data(w.script) == taken
    && Tracks(Start(cipher), taken, w.out, w.reader)
  }

  lemma WayBegins(cipher: Rc4State)
    ensures OnWay(cipher, [], Way([], [], [], Opened(cipher)))
  {
    hide PollRead;
    OpenedTracks(cipher);
    var w := Way([], [], [], Opened(cipher));
    forall room: nat, rest: seq<Event>
      ensures Resumes(cipher, w, room, rest)
    {
      assert [] + [room] == [room] && [] + rest == rest;
      var p := PollRead(Opened(cipher), room, rest);
      assert [] + p.out == p.out;
    }
  }

  lemma CallReads(r: Reader, room: nat, data: seq<byte>, rest: seq<Event>)
    requires OsshRead.Valid(r) && !HandsOver(r) && data != []
    ensures var s := ProcessRead(r);
            var p := PollRead(s.(rin := s.rin + data), room, rest);
            PollRead(r, room, [Filled(data)] + rest) == p.(used := p.used + 1)
  {
    var all := [Filled(data)] + rest;
    assert all[1..] == rest;
    hide ProcessRead;
  }

  lemma LeadsOnReading(cipher: Rc4State, w: Way, data: seq<byte>)
    requires Leads(cipher, w) && !HandsOver(w.reader) && data != []
    ensures var s := ProcessRead(w.reader);
            Leads(cipher, Way(w.rooms, w.script + [Filled(data)], w.out, s.(rin := s.rin + data)))
  {
    hide PollRead, ProcessRead, HandsOver, Polls;
    var s := ProcessRead(w.reader);
    var w' := Way(w.rooms, w.script + [Filled(data)], w.out, s.(rin := s.rin + data));
    forall room: nat, rest: seq<Event>
      ensures Resumes(cipher, w', room, rest)
    {
      assert Resumes(cipher, w, room, [Filled(data)] + rest);
      CallReads(w.reader, room, data, rest);
      assert w'.script + rest == w.script + ([Filled(data)] + rest);
    }
  }

  lemma LeadsOnHanding(cipher: Rc4State, w: Way)
    requires Leads(cipher, w) && HandsOver(w.reader)
    ensures Leads(cipher, Way(w.rooms + [|Handed(w.reader)|], w.script, w.out + Handed(w.reader), Emptied(w.reader)))
  {
    hide PollRead, ProcessRead, HandsOver, Handed, Emptied;
    var h := Handed(w.reader);
    var w' := Way(w.rooms + [|h|], w.script, w.out + h, Emptied(w.reader));
    forall room: nat, rest: seq<Event>
      ensures Resumes(cipher, w', room, rest)
    {
      assert Resumes(cipher, w, |h|, rest);
      CallHandsOverAll(w.reader, rest);
      PollsConcat(Opened(cipher), w.rooms + [|h|], [room], w.script + rest);
      assert (w.script + rest)[|w.script|..] == rest;
    }
  }

  lemma LeadsOnPausing(cipher: Rc4State, w: Way)
    requires Leads(cipher, w) && !HandsOver(w.reader)
    ensures Leads(cipher, Way(w.rooms + [0], w.script + [Blocked], w.out, ProcessRead(w.reader)))
  {
    hide PollRead, ProcessRead, HandsOver;
    var w' := Way(w.rooms + [0], w.script + [Blocked], w.out, ProcessRead(w.reader));
    forall room: nat, rest: seq<Event>
      ensures Resumes(cipher, w', room, rest)
    {
      assert Resumes(cipher, w, 0, [Blocked] + rest);
      CallWaits(w.reader, 0, [Blocked] + rest);
      PollsConcat(Opened(cipher), w.rooms + [0], [room], w'.script + rest);
      assert w'.script + rest == w.script + ([Blocked] + rest);
      assert (w'.script + rest)[|w'.script|..] == rest;
      assert w.out + [] == w.out;
    }
  }

  lemma DataPush(script: seq<Event>, event: Event)
    ensures Data(script + [event]) == Data(script) + if event.Filled? then event.data else []
  {
    DataConcat(script, [event]);
    assert [event][1..] == [];
    assert Data([event]) == (if event.Filled? then event.data else []) + Data([]);
  }

  lemma WayReads(cipher: Rc4State, taken: seq<byte>, w: Way, data: seq<byte>) returns (w': Way)
    requires OnWay(cipher, taken, w) && !HandsOver(w.reader) && 0 < |data| <= READ_SIZE
    ensures OnWay(cipher, taken + data, w') && w'.out == w.out
    ensures var s := ProcessRead(w.reader); w'.reader == s.(rin := s.rin + data)
  {
    hide Leads, ProcessRead, HandsOver, Data, Feed, Represents, SkipAt, Short, BannerEnd;
    var s := ProcessRead(w.reader);
    w' := Way(w.rooms, w.script + [Filled(data)], w.out, s.(rin := s.rin + data));
    LeadsOnReading(cipher, w, data);
    DataPush(w.script, Filled(data));
    TracksProcess(Start(cipher), taken, w.out, w.reader);
    TracksArrival(Start(cipher), taken, w.out, s, data);
  }

  lemma EmptiedTracks(start: Machine, received: seq<byte>, delivered: seq<byte>, r: Reader)
    requires Tracks(start, received, delivered, r) && HandsOver(r)
    ensures Tracks(start, received, delivered + Handed(r), Emptied(r))
  {
    hide ProcessRead, Feed, Represents, SkipAt, Short, BannerEnd;
    TracksProcess(start, received, delivered, r);
    var s := ProcessRead(r);
    if s.rbuf != [] {
      TracksHandOver(start, received, delivered, s, |s.rbuf|);
      assert s.rbuf[|s.rbuf|..] == [] && s.rbuf[..|s.rbuf|] == s.rbuf;
    } else {
      TracksPassThrough(start, received, delivered, s);
      var s' := s.(rbuf := s.rbuf + s.rin, rin := []);
      assert s'.rbuf == s.rin;
      TracksHandOver(start, received, delivered, s', |s'.rbuf|);
      assert s'.rbuf[|s'.rbuf|..] == [] && s'.rbuf[..|s'.rbuf|] == s.rin;
    }
  }

  lemma WayHands(cipher: Rc4State, taken: seq<byte>, w: Way) returns (w': Way)
    requires OnWay(cipher, taken, w) && HandsOver(w.reader)
    ensures OnWay(cipher, taken, w') && w'.reader == Emptied(w.reader)
  {
    hide Leads, Feed, Represents, Handed, Emptied, HandsOver, ProcessRead;
    LeadsOnHanding(cipher, w);
    EmptiedTracks(Start(cipher), taken, w.out, w.reader);
    w' := Way(w.rooms + [|Handed(w.reader)|], w.script, w.out + Handed(w.reader), Emptied(w.reader));
  }

  lemma WayPauses(cipher: Rc4State, taken: seq<byte>, w: Way) returns (w': Way)
    requires OnWay(cipher, taken, w) && !HandsOver(w.reader)
    ensures OnWay(cipher, taken, w') && w'.reader == ProcessRead(w.reader)
  {
    hide Leads, ProcessRead, HandsOver, Data, Feed, Represents, SkipAt, Short, BannerEnd;
    LeadsOnPausing(cipher, w);
    DataPush(w.script, Blocked);
    assert taken + [] == taken;
    TracksProcess(Start(cipher), taken, w.out, w.reader);
    w' := Way(w.rooms + [0], w.script + [Blocked], w.out, ProcessRead(w.reader));
  }

  // ---------------------------------------------------------------- everything decoded and delivered

  predicate Settled(r: Reader)
    requires OsshRead.Valid(r)
  {
    !HandsOver(r) && ProcessRead(r) == r
  }

  lemma {:induction false} Settle(cipher: Rc4State, taken: seq<byte>, w: Way) returns (w': Way)
    requires OnWay(cipher, taken, w)
    ensures OnWay(cipher, taken, w') && Settled(w'.reader)
    decreases |w.reader.rin|, |w.reader.rbuf|
  {
    hide ProcessRead, HandsOver, Emptied, Leads, Feed, Represents, Data;
    if HandsOver(w.reader) {
      EmptiedIsLess(w.reader);
      w' := WayHands(cipher, taken, w);
      w' := Settle(cipher, taken, w');
    } else if ProcessRead(w.reader) == w.reader {
      w' := w;
    } else {
      NothingReadNothingChanged(w.reader);
      w' := WayPauses(cipher, taken, w);
      w' := Settle(cipher, taken, w');
    }
  }

  lemma {:induction false} Drain(cipher: Rc4State, wire: seq<byte>, n: nat) returns (w: Way)
    requires n <= |wire|
    ensures OnWay(cipher, wire[..n], w) && Settled(w.reader)
    decreases n
  {
    hide Settled, Leads, Feed, Represents, Data, ProcessRead;
    if n == 0 {
      WayBegins(cipher);
      w := Settle(cipher, [], Way([], [], [], Opened(cipher)));
    } else {
      w := Drain(cipher, wire, n - 1);
      SettledHandsNothing(w.reader);
      w := WayReads(cipher, wire[..n - 1], w, [wire[n - 1]]);
      assert wire[..n] == wire[..n - 1] + [wire[n - 1]];
      w := Settle(cipher, wire[..n], w);
    }
  }

  lemma SettledHandsNothing(r: Reader)
    requires OsshRead.Valid(r) && Settled(r)
    ensures !HandsOver(r) && ProcessRead(r) == r && r.rbuf == []
    ensures (r.phase == Done && r.rin == []) || Short(r)
  {
    NothingReadNothingChanged(r);
    hide ProcessRead;
  }

  // ---------------------------------------------------------------- ways to have as much as possible

  /** A way on which the loop has read no further than `v`, with nothing to stop it on the way there. */
  ghost predicate To(cipher: Rc4State, wire: seq<byte>, size: nat, v: nat, w: Way)
  {
    && v <= size <= |wire| && OnWay(cipher, wire[..size], w)
    && size - |w.reader.rin| <= v && NoSkipsIn(Start(cipher), wire, size - |w.reader.rin|, v)
  }

  /** Nothing is in the buffer, nor will anything be by then. */
  ghost predicate DryTo(cipher: Rc4State, wire: seq<byte>, size: nat, v: nat, w: Way)
  {
    && To(cipher, wire, size, v, w) && w.reader.rbuf == []
    && Feed(Start(cipher), wire[..size - |w.reader.rin|]).out == Feed(Start(cipher), wire[..v]).out
  }

  /** Everything up to `v` has been delivered, and the rest comes with one read. */
  lemma Anew(cipher: Rc4State, wire: seq<byte>, size: nat, v: nat) returns (w: Way)
    requires v <= size <= |wire| && size <= v + READ_SIZE
    ensures DryTo(cipher, wire, size, v, w)
  {
    hide Settled, Leads, Data, Feed, Represents, SkipAt, ProcessRead, MostAfter;
    w := Drain(cipher, wire, v);
    SettledHandsNothing(w.reader);
    var r := w.reader;
    var i := v - |r.rin|;
    RestHasNoSkips(Start(cipher), wire[..v], w.out, r);
    NothingPending(Start(cipher), wire[..v], w.out, r);
    assert wire == wire[..v] + wire[v..];
    SameSkips(Start(cipher), wire[..v], wire[v..], i, v);
    assert wire[..v][..i] == wire[..i];
    if v < size {
      w := WayReads(cipher, wire[..v], w, wire[v..size]);
      assert wire[..size] == wire[..v] + wire[v..size];
    }
  }

  lemma NothingPending(start: Machine, received: seq<byte>, delivered: seq<byte>, r: Reader)
    requires Tracks(start, received, delivered, r) && r.rbuf == []
    requires (r.phase == Done && r.rin == []) || Short(r)
    ensures Feed(start, received[..|received| - |r.rin|]).out == Feed(start, received).out == delivered
  {
    TracksAll(start, received, delivered, r);
    assert delivered + [] == delivered;
    if Short(r) { ShortStarves(r); } else { FeedClear(Represents(r), []); }
  }

  /** From such a way the loop gets to the length out of range, or hands something over before. */
  lemma GetsToSkip(cipher: Rc4State, wire: seq<byte>, size: nat, n: nat, w: Way)
    requires 0 < n <= size && To(cipher, wire, size, n - 1, w) && SkipAt(Start(cipher), wire, n)
    ensures var s := ProcessRead(w.reader);
            && |s.rin| <= size && size - |s.rin| <= n && (size - |s.rin| == n || s.rbuf != [])
            && size - |w.reader.rin| <= size - |s.rin|
            && Tracks(Start(cipher), wire[..size], w.out, s)
  {
    hide Feed, Represents, SkipAt, BannerEnd, Short, ProcessRead, MostAfter, Leads, Data;
    var r, s := w.reader, ProcessRead(w.reader);
    var i := size - |r.rin|;
    var received := wire[..size];
    assert wire == received + wire[size..];
    SkipInFirst(Start(cipher), received, wire[size..], n);
    TracksProcess(Start(cipher), received, w.out, r);
    assert received == received[..i] + r.rin;
    SkipInSecond(Start(cipher), received[..i], r.rin, n);
    LoopStopsAtSkip(r, n - i);
    if s.phase == Done || Short(s) {
      RestHasNoSkips(Start(cipher), received, w.out, s);
    } else if SkipAt(Start(cipher), received, size - |s.rin|) {
      SkipInLonger(Start(cipher), received, wire[size..], size - |s.rin|);
    }
  }

  lemma NotDoneAtSkip(cipher: Rc4State, wire: seq<byte>, size: nat, n: nat, out: seq<byte>, s: Reader)
    requires n <= size <= |wire| && SkipAt(Start(cipher), wire, n)
    requires Tracks(Start(cipher), wire[..size], out, s) && size - |s.rin| == n
    ensures s.phase == Kex
  {
    hide Feed, SkipAt;
    CoreAfterSkip(Start(cipher), wire, n);
    assert wire[..size][..n] == wire[..n];
  }

  /** Callers take what comes before, until the loop stands right after the length out of range. */
  lemma {:induction false} PassTo(cipher: Rc4State, wire: seq<byte>, size: nat, n: nat, w: Way) returns (w': Way)
    requires 0 < n <= size && To(cipher, wire, size, n - 1, w) && SkipAt(Start(cipher), wire, n)
    ensures OnWay(cipher, wire[..size], w') && w'.reader.rbuf == [] && |w'.reader.rin| == size - n
    decreases |w.reader.rin|, |w.reader.rbuf|
  {
    hide Feed, SkipAt, ProcessRead, Leads, Data, Represents;
    GetsToSkip(cipher, wire, size, n, w);
    var s := ProcessRead(w.reader);
    if s.rbuf == [] {
      NotDoneAtSkip(cipher, wire, size, n, w.out, s);
      w' := WayPauses(cipher, wire[..size], w);
    } else {
      EmptiedIsLess(w.reader);
      w' := WayHands(cipher, wire[..size], w);
      if size - |s.rin| < n { w' := PassTo(cipher, wire, size, n, w'); }
    }
  }

  /** On a dry way it stops there with nothing in the buffer. */
  lemma DryAtSkip(cipher: Rc4State, wire: seq<byte>, size: nat, n: nat, w: Way)
    requires 0 < n <= size && DryTo(cipher, wire, size, n - 1, w) && SkipAt(Start(cipher), wire, n)
    ensures var s := ProcessRead(w.reader);
            && s.rbuf == [] && |s.rin| == size - n && !HandsOver(w.reader)
            && w.out == Feed(Start(cipher), wire[..n]).out
  {
    hide Feed, SkipAt, ProcessRead, Leads, Data, Represents;
    GetsToSkip(cipher, wire, size, n, w);
    var s := ProcessRead(w.reader);
    var i, k := size - |w.reader.rin|, size - |s.rin|;
    CoreAfterSkip(Start(cipher), wire, n);
    FeedGrows(Start(cipher), wire, i, k);
    FeedGrows(Start(cipher), wire, k, n);
    assert wire[..size][..k] == wire[..k] && wire[..size][..i] == wire[..i];
    assert s.rbuf == [];
    NotDoneAtSkip(cipher, wire, size, n, w.out, s);
  }

  /** One more read right after the length out of range. */
  lemma ReadsAtSkip(cipher: Rc4State, wire: seq<byte>, size: nat, more: nat, n: nat, w: Way) returns (w': Way)
    requires 0 < n <= size && DryTo(cipher, wire, size, n - 1, w) && SkipAt(Start(cipher), wire, n)
    requires size < more <= |wire| && more <= size + READ_SIZE
    ensures OnWay(cipher, wire[..more], w') && w'.reader.rbuf == [] && |w'.reader.rin| == more - n
  {
    hide Feed, SkipAt, ProcessRead, Leads, Data, Tracks, HandsOver;
    DryAtSkip(cipher, wire, size, n, w);
    w' := WayReads(cipher, wire[..size], w, wire[size..more]);
    assert wire[..more] == wire[..size] + wire[size..more];
  }

  lemma StandsAt(cipher: Rc4State, wire: seq<byte>, size: nat, n: nat, w: Way)
    requires n <= size <= |wire| && OnWay(cipher, wire[..size], w) && w.reader.rbuf == [] && |w.reader.rin| == size - n
    ensures DryTo(cipher, wire, size, n, w)
  {
    hide OnWay, Feed, SkipAt;
  }

  lemma ToNext(cipher: Rc4State, wire: seq<byte>, size: nat, n: nat, w: Way)
    requires 0 < n <= size && To(cipher, wire, size, n - 1, w) && !SkipAt(Start(cipher), wire, n)
    ensures To(cipher, wire, size, n, w)
    ensures DryTo(cipher, wire, size, n - 1, w) && Feed(Start(cipher), wire[..n]).out == Feed(Start(cipher), wire[..n - 1]).out
        ==> DryTo(cipher, wire, size, n, w)
  {
    hide OnWay, Feed, SkipAt;
  }

  lemma SkipInPrefix(m: Machine, wire: seq<byte>, n: nat)
    requires 0 < n <= |wire|
    ensures SkipAt(m, wire[..n], n) <==> SkipAt(m, wire, n)
  {
    hide Feed, LengthOk, PacketLength, Xor, KeyByte;
    assert wire[..n][..n - 1] == wire[..n - 1];
  }

  /** What the bound allows can be had. */
  lemma {:induction false} AsMuchAsPossible(cipher: Rc4State, wire: seq<byte>, size: nat, v: nat, dry: bool) returns (w: Way)
    requires v <= size <= |wire|
    requires var most := MostAfter(Start(cipher), wire[..v]); size <= if dry then most.dry else most.any
    ensures To(cipher, wire, size, v, w) && (dry ==> DryTo(cipher, wire, size, v, w))
    decreases v, dry
  {
    hide Feed, SkipAt, To, DryTo, Leads, OnWay, Tracks;
    if size <= v + READ_SIZE {
      w := Anew(cipher, wire, size, v);
      DryIsTo(cipher, wire, size, v, w);
    } else {
      var front := wire[..v][..v - 1];
      assert front == wire[..v - 1];
      var before := MostAfter(Start(cipher), front);
      SkipInPrefix(Start(cipher), wire, v);
      MostInOrder(Start(cipher), front);
      if !SkipAt(Start(cipher), wire, v) {
        w := AsMuchAsPossible(cipher, wire, size, v - 1, dry);
        ToNext(cipher, wire, size, v, w);
      } else {
        if size <= before.any {
          w := AsMuchAsPossible(cipher, wire, size, v - 1, false);
          w := PassTo(cipher, wire, size, v, w);
        } else {
          w := AsMuchAsPossible(cipher, wire, before.dry, v - 1, true);
          w := ReadsAtSkip(cipher, wire, before.dry, size, v, w);
        }
        StandsAt(cipher, wire, size, v, w);
        DryIsTo(cipher, wire, size, v, w);
      }
    }
  }

  lemma DryIsTo(cipher: Rc4State, wire: seq<byte>, size: nat, v: nat, w: Way)
    requires DryTo(cipher, wire, size, v, w)
    ensures To(cipher, wire, size, v, w)
  {
  }

  // ---------------------------------------------------------------- the exact condition

  /** A run that takes exactly this stream, so much at a time, and ends with a call that gets nothing. */
  ghost predicate ReadDry(cipher: Rc4State, wire: seq<byte>, rooms: seq<nat>, script: seq<Event>)
    requires rooms != []
  {
    var p := Polls(Opened(cipher), rooms, script);
    Sized(script) && p.status != Delivered && Data(script[..p.used]) == wire
  }

  /** In whatever chunks the stream arrives and whatever room callers have, once read dry it has been delivered. */
  ghost predicate AlwaysComplete(cipher: Rc4State, wire: seq<byte>)
  {
    forall rooms: seq<nat>, script: seq<Event> :: rooms != [] && ReadDry(cipher, wire, rooms, script) ==>
      Polls(Opened(cipher), rooms, script).out == Feed(Start(cipher), wire).out
  }

  /** The loop can stop at this length out of range with the whole stream received and nothing buffered. */
  predicate CanStall(start: Machine, wire: seq<byte>, n: nat)
  {
    SkipAt(start, wire, n) && |wire| <= MostAt(start, wire, n)
  }

  /** For such a length there is a run that has taken all of the stream and delivered only what comes before. */
  lemma StallsAtSkip(cipher: Rc4State, wire: seq<byte>, n: nat) returns (rooms: seq<nat>, script: seq<Event>)
    requires CanStall(Start(cipher), wire, n)
    ensures n <= |wire| && rooms != [] && ReadDry(cipher, wire, rooms, script)
    ensures Polls(Opened(cipher), rooms, script).out == Feed(Start(cipher), wire[..n]).out
  {
    hide Feed, PollRead, ProcessRead, Polls, MostAfter, Tracks, LengthOk, PacketLength;
    assert wire[..|wire|] == wire;
    var w := AsMuchAsPossible(cipher, wire, |wire|, n - 1, true);
    DryAtSkip(cipher, wire, |wire|, n, w);
    rooms, script := w.rooms + [0], w.script + [Blocked];
    assert Resumes(cipher, w, 0, [Blocked]);
    CallWaits(w.reader, 0, [Blocked]);
    DataPush(w.script, Blocked);
    assert w.out + [] == w.out && script[..|script|] == script && wire + [] == wire;
  }

  /** Nothing comes out of the stream after a length out of range at which the loop can stall. */
  ghost predicate QuietAfterStall(start: Machine, wire: seq<byte>)
  {
    forall n: nat :: CanStall(start, wire, n) ==> Feed(start, wire[..n]).out == Feed(start, wire).out
  }

  lemma QuietIsComplete(cipher: Rc4State, wire: seq<byte>, rooms: seq<nat>, script: seq<Event>)
    requires QuietAfterStall(Start(cipher), wire) && rooms != [] && ReadDry(cipher, wire, rooms, script)
    ensures Polls(Opened(cipher), rooms, script).out == Feed(Start(cipher), wire).out
  {
    hide Feed, Polls, MostAfter, SkipAt, Represents;
    PollsFromStart(cipher, rooms, script);
    RunsStayWithin(cipher, rooms, script);
    var p := Polls(Opened(cipher), rooms, script);
    var n := |wire| - |p.reader.rin|;
    assert p.out + [] == p.out;
    if (p.reader.phase == Done && p.reader.rin == []) || Short(p.reader) {
      NothingPending(Start(cipher), wire, p.out, p.reader);
    } else {
      assert CanStall(Start(cipher), wire, n);
    }
  }

  /**
   * Every run that has read a stream dry has delivered it whole, exactly when nothing comes out of the
   * stream after a length out of range at which the loop can stand with all of it received.
   */
  lemma AlwaysCompleteIff(cipher: Rc4State, wire: seq<byte>)
    ensures AlwaysComplete(cipher, wire) <==> QuietAfterStall(Start(cipher), wire)
  {
    hide Feed, Polls, ReadDry, CanStall;
    if QuietAfterStall(Start(cipher), wire) {
      forall rooms: seq<nat>, script: seq<Event> | rooms != [] && ReadDry(cipher, wire, rooms, script)
        ensures Polls(Opened(cipher), rooms, script).out == Feed(Start(cipher), wire).out
      {
        QuietIsComplete(cipher, wire, rooms, script);
      }
    }
    if AlwaysComplete(cipher, wire) {
      forall n: nat | CanStall(Start(cipher), wire, n)
        ensures n <= |wire| && Feed(Start(cipher), wire[..n]).out == Feed(Start(cipher), wire).out
      {
        var rooms, script := StallsAtSkip(cipher, wire, n);
      }
    }
  }
}
