/** The obfuscated stream object over a socket: both halves as the program updates them in place. */
module OsshStream {
  import opened Bytes
  import opened Rc4Cipher
  import opened OsshPacket
  import R = OsshRead
  import W = OsshWrite
  import D = OsshDelivery
  import C = OsshCalls

  /** What the socket answers to one write: so many bytes taken, not ready, or an error. */
  datatype Accept = Took(n: nat) | Full | Broke

  /** `Panic` ends the program in the middle of a write. */
  datatype Outcome = Ready | NotReady | Error | Panic

  // ---------------------------------------------------------------- writing to the socket

  /** What the socket has taken of the output, what is left, its answers still to come, and how it ended. */
  datatype Flushed = Flushed(sent: seq<byte>, rest: seq<byte>, answers: seq<Accept>, outcome: Outcome)

  function Flush(out: seq<byte>, accepts: seq<Accept>): Flushed
    decreases |accepts|
  {
    if out == [] then Flushed([], [], accepts, Ready)
    else if accepts == [] then Flushed([], out, [], NotReady)
    else
      match accepts[0]
      case Full => Flushed([], out, accepts[1..], NotReady)
      case Broke => Flushed([], out, accepts[1..], Error)
      case Took(n) =>
        if n == 0 then Flushed([], out, accepts[1..], Error)
        else
          var k := if n < |out| then n else |out|;
          var f := Flush(out[k..], accepts[1..]);
          f.(sent := out[..k] + f.sent)
  }

  /** How much the socket would take before it first takes nothing, and what it answers then. */
  function Room(accepts: seq<Accept>): nat
  {
    if accepts == [] || !accepts[0].Took? || accepts[0].n == 0 then 0 else accepts[0].n + Room(accepts[1..])
  }

  function Refusal(accepts: seq<Accept>): Outcome
  {
    if accepts == [] || accepts[0].Full? then NotReady
    else if accepts[0].Took? && accepts[0].n > 0 then Refusal(accepts[1..])
    else Error
  }

  /**
   * As much of the output goes out as the socket takes before it first takes nothing, from the
   * beginning and in order; that answer is how it ends, unless all has gone out before.
   */
  lemma {:induction false} FlushIs(out: seq<byte>, accepts: seq<Accept>)
    ensures var f, n := Flush(out, accepts), if Room(accepts) < |out| then Room(accepts) else |out|;
            && f.sent == out[..n] && f.rest == out[n..]
            && f.outcome == if Room(accepts) >= |out| then Ready else Refusal(accepts)
    decreases |accepts|
  {
    if out != [] && accepts != [] && accepts[0].Took? && accepts[0].n > 0 {
      var k := if accepts[0].n < |out| then accepts[0].n else |out|;
      FlushIs(out[k..], accepts[1..]);
      assert out == out[..k] + out[k..];
    }
  }

  lemma FlushConserves(out: seq<byte>, accepts: seq<Accept>)
    ensures var f := Flush(out, accepts);
            f.sent + f.rest == out && (f.outcome == Ready <==> f.rest == [])
    ensures Flush(out, accepts).outcome != Panic
  {
    hide Flush;
    FlushIs(out, accepts);
    RefusesNot(accepts);
  }

  lemma {:induction false} RefusesNot(accepts: seq<Accept>)
    ensures Refusal(accepts) == NotReady || Refusal(accepts) == Error
  {
    if accepts != [] { RefusesNot(accepts[1..]); }
  }

  /** A whole write call: the fields, what has gone out, the answers still to come, and how it ended. */
  datatype Wrote = Wrote(writer: W.Writer, sent: seq<byte>, answers: seq<Accept>, outcome: Outcome)

  /** The data is refused when old output cannot go out for now; an error at that point is passed over. */
  function WriteCall(w: W.Writer, accepts: seq<Accept>, data: seq<byte>): Wrote
  {
    var f := Flush(w.wout, accepts);
    if f.outcome == NotReady then Wrote(w.(wout := f.rest), f.sent, f.answers, NotReady)
    else
      var w' := W.Write(w.(wout := f.rest), data);
      if w'.phase == W.Crashed then Wrote(w', f.sent, f.answers, Panic)
      else
        var g := Flush(w'.wout, f.answers);
        Wrote(w'.(wout := g.rest), f.sent + g.sent, g.answers, if g.outcome == Error then Error else Ready)
  }

  /**
   * A write is refused exactly when the socket has no room for the old output and says so by not being
   * ready; a refused write changes nothing but what has gone out.
   */
  lemma RefusedIff(w: W.Writer, accepts: seq<Accept>, data: seq<byte>)
    requires w.phase != W.Crashed
    ensures WriteCall(w, accepts, data).outcome == NotReady
       <==> Room(accepts) < |w.wout| && Refusal(accepts) == NotReady
    ensures WriteCall(w, accepts, data).outcome == NotReady ==>
      var k := Room(accepts);
      && WriteCall(w, accepts, data).sent == w.wout[..k]
      && WriteCall(w, accepts, data).writer == w.(wout := w.wout[k..])
  {
    hide Flush, W.Write;
    FlushIs(w.wout, accepts);
  }

  /**
   * A write that has been taken fails exactly when the socket answers the new output with an error
   * before all of it is out.
   */
  lemma WriteFailsIff(w: W.Writer, accepts: seq<Accept>, data: seq<byte>)
    requires w.phase != W.Crashed
    ensures var call, f := WriteCall(w, accepts, data), Flush(w.wout, accepts);
            var out := W.Write(w.(wout := f.rest), data);
            (call.outcome == Error
             <==> && call.outcome != NotReady && out.phase != W.Crashed
                  && Room(f.answers) < |out.wout| && Refusal(f.answers) == Error)
  {
    hide W.Write, Flush;
    FlushIs(w.wout, accepts);
    FlushIs(W.Write(w.(wout := Flush(w.wout, accepts).rest), data).wout, Flush(w.wout, accepts).answers);
  }

  /** With room enough for the old output and the new, a write leaves nothing waiting. */
  lemma RoomEnough(w: W.Writer, accepts: seq<Accept>, data: seq<byte>)
    requires w.phase != W.Crashed && W.Write(w.(wout := []), data).phase != W.Crashed
    requires Room(accepts) >= |w.wout|
    requires Room(Flush(w.wout, accepts).answers) >= |W.Write(w.(wout := []), data).wout|
    ensures var call := WriteCall(w, accepts, data);
            && call.outcome == Ready && call.writer.wout == []
            && call.sent == w.wout + W.Write(w.(wout := []), data).wout
  {
    hide Flush, W.Write;
    FlushIs(w.wout, accepts);
    FlushIs(W.Write(w.(wout := []), data).wout, Flush(w.wout, accepts).answers);
    var all := w.wout;
    assert all[..|all|] == all && all[|all|..] == [];
    var out := W.Write(w.(wout := []), data).wout;
    assert out[..|out|] == out && out[|out|..] == [];
  }

  // ---------------------------------------------------------------- the objects

  /** The socket: its answers still to come, and the bytes it has taken. */
  class Socket {
    var arrivals: seq<D.Event>
    var accepts: seq<Accept>
    var sent: seq<byte>

    constructor (arrivals: seq<D.Event>, accepts: seq<Accept>)
      ensures this.arrivals == arrivals && this.accepts == accepts && sent == []
    {
      this.arrivals, this.accepts, sent := arrivals, accepts, [];
    }
  }

  class Stream {
    const socket: Socket
    const c2s: Rc4
    const s2c: Rc4
    var wphase: W.Phase
    var wbuf: seq<byte>
    var wout: seq<byte>
    var rphase: R.Phase
    var rin: seq<byte>
    var rbuf: seq<byte>
    var rline: seq<byte>
    var kexPrefix: R.Prefix

    // the history of the stream: how it was opened, what callers wrote and read, what arrived
    ghost const preamble: seq<byte>
    ghost const upward: Rc4State
    ghost const downward: Rc4State
    ghost var written: seq<byte>
    ghost var received: seq<byte>
    ghost var delivered: seq<byte>

    ghost predicate Separate()
      reads this, c2s, s2c
    {
      c2s.Valid() && s2c.Valid() && c2s != s2c && c2s.s != s2c.s
    }

    ghost function Writer(): W.Writer
      reads this, c2s, c2s.s
      requires c2s.Valid()
    {
      W.Writer(wphase, c2s.State(), wbuf, wout)
    }

    ghost function Reader(): R.Reader
      reads this, s2c, s2c.s
      requires s2c.Valid()
    {
      R.Reader(rphase, s2c.State(), rin, rbuf, rline, kexPrefix)
    }

    ghost predicate Valid()
      reads this, c2s, c2s.s, s2c, s2c.s
    {
      Separate() && R.Valid(Reader())
    }

    /** Everything put out since the stream was opened, flushed or not. */
    ghost function Emitted(): W.Writer
      reads this, c2s, c2s.s, socket
      requires c2s.Valid()
    {
      Writer().(wout := socket.sent + wout)
    }

    /** What the socket has got or will get is a function of the bytes written, not of the writes. */
    ghost predicate SendsTheStream()
      reads this, c2s, c2s.s, socket
    {
      c2s.Valid() && Emitted() == W.Written(preamble, upward, written)
    }

    /** Whatever has arrived, callers have got and will get what the byte-by-byte machine makes of it. */
    ghost predicate ReadsTheStream()
      reads this, s2c, s2c.s
    {
      s2c.Valid() && D.Tracks(D.Start(downward), received, delivered, Reader())
    }

    constructor (socket: Socket, seed: seq<byte>, c2sKey: seq<byte>, s2cKey: seq<byte>, padding: seq<byte>)
      requires c2sKey != [] && s2cKey != []
      ensures Valid() && this.socket == socket
      ensures fresh(c2s) && fresh(c2s.s) && fresh(s2c) && fresh(s2c.s)
      ensures Writer() == W.Opened(seed, KeySetup(c2sKey), padding)
      ensures Reader() == D.Opened(KeySetup(s2cKey))
      ensures seed <= wout && W.IsHeader(Apply(KeySetup(c2sKey), wout[|seed|..]), padding)
      ensures socket.sent == [] ==> SendsTheStream()
      ensures ReadsTheStream()
      ensures written == [] && received == [] && delivered == []
    {
      hide Apply, Advance, U32, W.Written, D.Tracks, R.Feed;
      var up := new Rc4(c2sKey);
      var down := new Rc4(s2cKey);
      var header := U32(MAGIC) + U32(|padding| % U32_SIZE) + padding;
      var hidden := up.Run(header);
      this.socket, c2s, s2c := socket, up, down;
      wphase, wbuf, wout := W.Ident, [], seed + hidden;
      rphase, rin, rbuf, rline, kexPrefix := R.Ident, [], [], [], R.NoPrefix;
      preamble := W.Preamble(seed, KeySetup(c2sKey), padding);
      upward, downward := Advance(KeySetup(c2sKey), |header|), KeySetup(s2cKey);
      written, received, delivered := [], [], [];
      new;
      W.EmptyWritten(preamble, upward);
      W.PreambleReads(seed, KeySetup(c2sKey), padding);
      D.OpenedTracks(downward);
    }

    // -------------------------------------------------------------- sending

    /** Moves the first `n` buffered bytes, enciphered, to the output. */
    method Emit(n: nat)
      requires Separate() && n <= |wbuf|
      modifies this`wbuf, this`wout, c2s, c2s.s
      ensures Writer() == W.Emit(old(Writer()), n) && |wbuf| == old(|wbuf|) - n
    {
      var out := c2s.Run(wbuf[..n]);
      wbuf, wout := wbuf[n..], wout + out;
    }

    method WriteIdent()
      requires Separate()
      modifies this`wphase, this`wbuf, this`wout, c2s, c2s.s
      ensures Writer() == W.IdentStep(old(Writer()))
    {
      hide Apply, Advance, W.Emit;
      if wphase == W.Ident {
        var at := W.FindCrlf(wbuf);
        if at.Some? {
          Emit(at.value + 2);
          wphase := W.Kex;
        }
      }
    }

    method WriteKex()
      requires Separate()
      modifies this`wphase, this`wbuf, this`wout, c2s, c2s.s
      ensures Writer() == W.KexLoop(old(Writer()))
    {
      hide Apply, Advance, Word, W.Emit;
      while wphase == W.Kex && |wbuf| >= 5
        invariant Separate()
        invariant W.KexLoop(Writer()) == W.KexLoop(old(Writer()))
        decreases |wbuf|, wphase == W.Kex
      {
        var length := PacketLength(wbuf);
        if !LengthOk(length) || |wbuf| < length + 4 {
          break;
        }
        if length == 1 {
          wphase, wbuf := W.Crashed, [];
          break;
        }
        var newKeys := wbuf[5] == MSG_NEWKEYS;
        Emit(length + 4);
        if newKeys {
          wphase := W.Done;
          break;
        }
      }
    }

    method ProcessWrite()
      requires Separate()
      modifies this`wphase, this`wbuf, this`wout, c2s, c2s.s
      ensures Writer() == W.ProcessWrite(old(Writer()))
    {
      hide Apply, Advance, W.IdentStep, W.KexLoop;
      WriteIdent();
      WriteKex();
      if wphase == W.Done && wbuf != [] {
        wout := wout + wbuf;
        wbuf := [];
      }
    }

    /** Passes output to the socket until it is gone or the socket stops taking it. */
    method FlushOut() returns (outcome: Outcome)
      modifies this`wout, socket`accepts, socket`sent
      ensures var f := Flush(old(wout), old(socket.accepts));
              && socket.sent == old(socket.sent) + f.sent && wout == f.rest
              && socket.accepts == f.answers && outcome == f.outcome
    {
      ghost var f := Flush(wout, socket.accepts);
      while wout != []
        invariant var g := Flush(wout, socket.accepts);
                  && f == g.(sent := f.sent) && socket.sent + g.sent == old(socket.sent) + f.sent
        decreases |socket.accepts|
      {
        if socket.accepts == [] {
          return NotReady;
        }
        var answer := socket.accepts[0];
        ghost var g := Flush(wout, socket.accepts);
        socket.accepts := socket.accepts[1..];
        match answer {
          case Full => return NotReady;
          case Broke => return Error;
          case Took(n) =>
            if n == 0 {
              return Error;
            }
            var k := if n < |wout| then n else |wout|;
            ghost var h := Flush(wout[k..], socket.accepts);
            assert g.sent == wout[..k] + h.sent;
            Associative(socket.sent, wout[..k], h.sent);
            socket.sent := socket.sent + wout[..k];
            wout := wout[k..];
        }
      }
      return Ready;
    }

    /**
     * One write call. It takes nothing when the old output cannot be flushed for now; otherwise it takes
     * all of `data`, and whatever the socket does no byte of output is lost or repeated.
     */
    method PollWrite(data: seq<byte>) returns (outcome: Outcome)
      requires Separate() && wphase != W.Crashed
      modifies this`wphase, this`wbuf, this`wout, this`written, c2s, c2s.s, socket`accepts, socket`sent
      ensures Separate()
      ensures var call := WriteCall(old(Writer()), old(socket.accepts), data);
              && Writer() == call.writer && socket.sent == old(socket.sent) + call.sent
              && socket.accepts == call.answers && outcome == call.outcome
      ensures outcome == NotReady ==> Emitted() == old(Emitted()) && written == old(written)
      ensures outcome != NotReady ==> Emitted() == W.Write(old(Emitted()), data) && written == old(written) + data
      ensures old(SendsTheStream()) ==> SendsTheStream()
    {
      hide Apply, Advance, Word, W.Emit, W.ProcessWrite, Flush;
      ghost var sent0 := socket.sent;
      ghost var f := Flush(wout, socket.accepts);
      FlushConserves(wout, socket.accepts);
      Associative(sent0, f.sent, f.rest);
      var flushed := FlushOut();
      if flushed == NotReady {
        return NotReady;
      }
      W.WriteExtends(preamble, upward, written, data);
      written := written + data;
      wbuf := wbuf + data;
      ghost var before := Writer();
      W.ProcessWriteAppends(before, socket.sent);
      ProcessWrite();
      if wphase == W.Crashed {
        return Panic;
      }
      ghost var g := Flush(wout, socket.accepts);
      FlushConserves(wout, socket.accepts);
      Associative(socket.sent, g.sent, g.rest);
      Associative(sent0, f.sent, g.sent);
      flushed := FlushOut();
      return if flushed == Error then Error else Ready;
    }

    // -------------------------------------------------------------- receiving

    method ReadIdent() returns (again: bool)
      requires Valid() && rphase == R.Ident
      modifies this`rin, this`rbuf, this`rline, this`rphase, s2c, s2c.s
      ensures R.Turn(Reader(), again) == R.IdentTurn(old(Reader()))
    {
      hide Apply, Advance;
      if rin == [] {
        return false;
      }
      var byte := s2c.Run(rin[..1]);
      rin := rin[1..];
      rline := rline + byte;
      if |rline| > MAX_LINE {
        rline := [];
        return true;
      }
      if R.EndsLine(rline) {
        if BANNER_START <= rline {
          rbuf := rbuf + rline;
          rline := [];
          rphase := R.Kex;
          return false;
        }
        rline := [];
      }
      return true;
    }

    method ReadPrefix() returns (again: bool)
      requires Valid() && rphase == R.Kex
      modifies this`rin, this`kexPrefix, s2c, s2c.s
      ensures R.Turn(Reader(), again) == R.PrefixTurn(old(Reader()))
    {
      hide Apply, Advance, Word;
      if kexPrefix.Prefix? {
        return true;
      }
      if |rin| < 5 {
        return false;
      }
      var prefix := s2c.Run(rin[..5]);
      rin := rin[5..];
      var length := PacketLength(prefix);
      if !LengthOk(length) {
        return false;
      }
      kexPrefix := R.Prefix(prefix, length - 1);
      return true;
    }

    method ReadBody() returns (again: bool)
      requires Separate() && R.HasPrefix(Reader())
      modifies this`rin, this`rbuf, this`rphase, this`kexPrefix, s2c, s2c.s
      ensures R.Turn(Reader(), again) == R.BodyTurn(old(Reader()))
    {
      hide Apply, Advance, Word, Normalized;
      var remaining := kexPrefix.remaining;
      if |rin| < remaining {
        return false;
      }
      var packet := kexPrefix.bytes;
      kexPrefix := R.NoPrefix;
      var rest := s2c.Run(rin[..remaining]);
      rin := rin[remaining..];
      packet := packet + rest;
      var newKeys := |packet| > 5 && packet[5] == MSG_NEWKEYS;
      var normalized := Normalize(packet);
      rbuf := rbuf + normalized;
      if newKeys {
        rphase := R.Done;
      }
      return !newKeys;
    }

    method ReadKex() returns (again: bool)
      requires Valid() && rphase == R.Kex
      modifies this`rin, this`rbuf, this`rphase, this`kexPrefix, s2c, s2c.s
      ensures R.Turn(Reader(), again) == R.KexTurn(old(Reader()))
    {
      hide R.PrefixTurn, R.BodyTurn;
      R.PrefixTurnValid(Reader());
      again := ReadPrefix();
      if again {
        again := ReadBody();
      }
    }

    /** Deciphers and decodes what has arrived. */
    method ProcessRead()
      requires Valid()
      modifies this`rin, this`rbuf, this`rline, this`rphase, this`kexPrefix, s2c, s2c.s
      ensures Valid()
      ensures Reader() == R.ProcessRead(old(Reader()))
    {
      hide R.IdentTurn, R.KexTurn, Apply, Advance, Word, Normalized;
      var going := true;
      while going
        invariant Valid()
        invariant (if going then R.ProcessRead(Reader()) else Reader()) == R.ProcessRead(old(Reader()))
        decreases |rin|, going
      {
        R.TurnValid(Reader());
        match rphase {
          case Ident => going := ReadIdent();
          case Kex => going := ReadKex();
          case Done => going := false;
        }
      }
    }

    /** One read call with room for `room` bytes. */
    method PollRead(room: nat) returns (out: seq<byte>, status: D.Status)
      requires Valid()
      modifies this`rin, this`rbuf, this`rline, this`rphase, this`kexPrefix, s2c, s2c.s, socket`arrivals
      modifies this`received, this`delivered
      ensures Valid()
      ensures var p := D.PollRead(old(Reader()), room, old(socket.arrivals));
              && (Reader(), out, status) == (p.reader, p.out, p.status)
              && socket.arrivals == old(socket.arrivals)[p.used..]
              && received == old(received) + D.Data(old(socket.arrivals)[..p.used])
      ensures |out| <= room && delivered == old(delivered) + out
      ensures C.HandsOver(old(Reader())) ==>
        && out == C.Least(C.Handed(old(Reader())), room) && status == D.Delivered
        && rbuf == C.Handed(old(Reader()))[|out|..] && socket.arrivals == old(socket.arrivals)
      ensures old(ReadsTheStream()) ==> ReadsTheStream()
      ensures old(ReadsTheStream()) ==> delivered <= R.Feed(D.Start(downward), received).out
      ensures old(ReadsTheStream()) && status != D.Delivered ==>
                && (delivered == R.Feed(D.Start(downward), received).out <==> R.Pending(Reader()).out == [])
                && (D.QuietAfterSkip(D.Start(downward), received)
                    ==> delivered == R.Feed(D.Start(downward), received).out)
    {
      hide R.ProcessRead, D.PollRead, R.Feed, R.Represents, D.Data, D.QuietAfterSkip, D.Tracks, D.Dry;
      ghost var script := socket.arrivals;
      ghost var start, r0 := D.Start(downward), Reader();
      ghost var p := D.PollRead(r0, room, script);
      out, status := Poll(room);
      if C.HandsOver(r0) { C.CallHandsOver(r0, room, script); }
      if D.Tracks(start, received, delivered, r0) {
        D.PollReadTracks(start, received, delivered, r0, room, script);
        D.TracksAll(start, received + D.Data(script[..p.used]), delivered + out, Reader());
        Associative(delivered + out, rbuf, R.Pending(Reader()).out);
        if status != D.Delivered {
          D.DryIsComplete(start, received + D.Data(script[..p.used]), delivered + out, Reader());
        }
      }
      received, delivered := received + D.Data(script[..p.used]), delivered + out;
    }

    /** Once around the loop of a read call. */
    method OneRound(room: nat) returns (done: bool, used: nat, out: seq<byte>, status: D.Status)
      requires Valid()
      modifies this`rin, this`rbuf, this`rline, this`rphase, this`kexPrefix, s2c, s2c.s, socket`arrivals
      ensures Valid() && used <= old(|socket.arrivals|)
      ensures D.Round(done, D.Polled(Reader(), used, out, status)) == D.OneRound(old(Reader()), room, old(socket.arrivals))
      ensures socket.arrivals == old(socket.arrivals)[used..]
    {
      hide R.ProcessRead;
      ProcessRead();
      if rbuf != [] {
        var n := if room < |rbuf| then room else |rbuf|;
        out := rbuf[..n];
        rbuf := rbuf[n..];
        return true, 0, out, D.Delivered;
      }
      if rphase == R.Done && rin != [] {
        rbuf := rbuf + rin;
        rin := [];
        return false, 0, [], D.Delivered;
      }
      if socket.arrivals == [] {
        return true, 0, [], D.Waiting;
      }
      var event := socket.arrivals[0];
      socket.arrivals := socket.arrivals[1..];
      match event {
        case Blocked => return true, 1, [], D.Waiting;
        case Failed => return true, 1, [], D.Error;
        case Filled(data) =>
          if data == [] {
            return true, 1, [], D.EndOfFile;
          }
          rin := rin + data;
          return false, 1, [], D.Delivered;
      }
    }

    method Poll(room: nat) returns (out: seq<byte>, status: D.Status)
      requires Valid()
      modifies this`rin, this`rbuf, this`rline, this`rphase, this`kexPrefix, s2c, s2c.s, socket`arrivals
      ensures Valid()
      ensures var p := D.PollRead(old(Reader()), room, old(socket.arrivals));
              && (Reader(), out, status) == (p.reader, p.out, p.status)
              && socket.arrivals == old(socket.arrivals)[p.used..]
    {
      hide R.ProcessRead, D.OneRound;
      ghost var script := socket.arrivals;
      ghost var target := D.PollRead(Reader(), room, script);
      ghost var total: nat := 0;
      var done, used := false, 0;
      out, status := [], D.Delivered;
      while !done
        invariant Valid()
        invariant total <= |script| && socket.arrivals == script[total..]
        invariant if done then target == D.Polled(Reader(), total, out, status)
                  else var p := D.PollRead(Reader(), room, socket.arrivals); p.(used := total + p.used) == target
        decreases !done, |socket.arrivals|, |rin|
      {
        done, used, out, status := OneRound(room);
        total := total + used;
      }
    }
  }
}
