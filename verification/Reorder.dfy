/** The control channel's reorder buffer: out-of-order packets in, an in-order stream out. */
module Reorder {
  import opened Bytes

  const MAX_BUFFERED: nat := 32
  const LAST_ID: u32 := 0xffff_ffff

  /** The next id expected, the packets ahead of it, and what has been fed to TLS. */
  datatype Receiver = Receiver(next: u32, ahead: map<u32, seq<byte>>, fed: seq<seq<byte>>)

  datatype Arrival = Arrival(id: u32, payload: seq<byte>)

  function Successor(id: u32): u32
  {
    (id + 1) % U32_SIZE
  }

  function FeedNext(r: Receiver, payload: seq<byte>): Receiver
  {
    Receiver(Successor(r.next), r.ahead, r.fed + [payload])
  }

  /** Feeds what has become due. */
  function Drain(r: Receiver): Receiver
    decreases |r.ahead|
  {
    if r.next in r.ahead then
      Drain(FeedNext(r.(ahead := r.ahead - {r.next}), r.ahead[r.next]))
    else r
  }

  function Accept(r: Receiver, a: Arrival): Receiver
  {
    if a.id < r.next then r
    else if a.id > r.next then
      if |r.ahead| < MAX_BUFFERED then r.(ahead := r.ahead[a.id := a.payload]) else r
    else Drain(FeedNext(r, a.payload))
  }

  function Opened(start: u32): Receiver
  {
    Receiver(start, map[], [])
  }

  function Run(start: u32, arrivals: seq<Arrival>): Receiver
  {
    if arrivals == [] then Opened(start)
    else Accept(Run(start, arrivals[..|arrivals| - 1]), arrivals[|arrivals| - 1])
  }

  // ---------------------------------------------------------------- safety, whatever arrives

  /** Fed is one payload that arrived for each consecutive id; buffered is only what lies ahead. */
  ghost predicate Safe(start: u32, arrivals: seq<Arrival>, r: Receiver)
  {
    && r.next == start + |r.fed|
    && |r.ahead| <= MAX_BUFFERED
    && (forall id :: id in r.ahead ==> r.next < id < LAST_ID && Arrival(id, r.ahead[id]) in arrivals)
    && (forall k :: 0 <= k < |r.fed| ==> Arrival(start + k, r.fed[k]) in arrivals)
  }

  /** The same before the buffer has been drained: the next id may itself be buffered. */
  ghost predicate Drainable(start: u32, arrivals: seq<Arrival>, r: Receiver)
  {
    && r.next == start + |r.fed|
    && |r.ahead| <= MAX_BUFFERED
    && (forall id :: id in r.ahead ==> r.next <= id < LAST_ID && Arrival(id, r.ahead[id]) in arrivals)
    && (forall k :: 0 <= k < |r.fed| ==> Arrival(start + k, r.fed[k]) in arrivals)
  }

  /** One packet that has become due. */
  function FeedDue(r: Receiver): Receiver
    requires r.next in r.ahead
  {
    FeedNext(r.(ahead := r.ahead - {r.next}), r.ahead[r.next])
  }

  lemma DrainOnce(r: Receiver)
    ensures Drain(r) == if r.next in r.ahead then Drain(FeedDue(r)) else r
    ensures r.next in r.ahead ==> |FeedDue(r).ahead| == |r.ahead| - 1
  {
    if r.next in r.ahead { RemoveSize(r.ahead, r.next); }
  }

  lemma DueDrainable(start: u32, arrivals: seq<Arrival>, r: Receiver)
    requires Drainable(start, arrivals, r) && r.next in r.ahead
    ensures Drainable(start, arrivals, FeedDue(r))
  {
    RemoveSize(r.ahead, r.next);
    var fed := FeedDue(r).fed;
    forall k | 0 <= k < |fed|
      ensures start + k < U32_SIZE && Arrival(start + k, fed[k]) in arrivals
    {
      if k == |r.fed| { assert Arrival(r.next, r.ahead[r.next]) in arrivals; }
    }
  }

  lemma NothingDueSafe(start: u32, arrivals: seq<Arrival>, r: Receiver)
    requires Drainable(start, arrivals, r) && r.next !in r.ahead
    ensures Safe(start, arrivals, r)
  {
  }

  lemma {:induction false} DrainSafe(start: u32, arrivals: seq<Arrival>, r: Receiver)
    requires Drainable(start, arrivals, r)
    ensures Safe(start, arrivals, Drain(r))
    decreases |r.ahead|
  {
    hide Drain, Drainable, Safe, FeedDue;
    DrainOnce(r);
    if r.next in r.ahead {
      DueDrainable(start, arrivals, r);
      DrainSafe(start, arrivals, FeedDue(r));
    } else {
      NothingDueSafe(start, arrivals, r);
    }
  }

  lemma RemoveSize(m: map<u32, seq<byte>>, id: u32)
    requires id in m
    ensures |m - {id}| == |m| - 1
  {
    assert (m - {id}).Keys == m.Keys - {id};
  }

  lemma FedDrainable(start: u32, arrivals: seq<Arrival>, r: Receiver, a: Arrival)
    requires Safe(start, arrivals, r) && a in arrivals && a.id == r.next != LAST_ID
    ensures Drainable(start, arrivals, FeedNext(r, a.payload))
  {
  }

  lemma BufferedSafe(start: u32, arrivals: seq<Arrival>, r: Receiver, a: Arrival)
    requires Safe(start, arrivals, r) && a in arrivals && r.next < a.id < LAST_ID && |r.ahead| < MAX_BUFFERED
    ensures Safe(start, arrivals, r.(ahead := r.ahead[a.id := a.payload]))
  {
    var ahead := r.ahead[a.id := a.payload];
    assert ahead.Keys == r.ahead.Keys + {a.id};
  }

  lemma AcceptSafe(start: u32, arrivals: seq<Arrival>, r: Receiver, a: Arrival)
    requires Safe(start, arrivals, r) && a in arrivals && a.id != LAST_ID
    ensures Safe(start, arrivals, Accept(r, a))
  {
    hide Drain, Drainable, Safe, FeedNext;
    if a.id == r.next {
      FedDrainable(start, arrivals, r, a);
      DrainSafe(start, arrivals, FeedNext(r, a.payload));
    } else if a.id > r.next && |r.ahead| < MAX_BUFFERED {
      BufferedSafe(start, arrivals, r, a);
    }
  }

  lemma SafeMore(start: u32, arrivals: seq<Arrival>, more: seq<Arrival>, r: Receiver)
    requires Safe(start, arrivals, r) && arrivals <= more
    ensures Safe(start, more, r)
  {
  }

  /** In every run that does not reach the last id of the id space. */
  lemma {:induction false} RunSafe(start: u32, arrivals: seq<Arrival>)
    requires forall a :: a in arrivals ==> a.id != LAST_ID
    ensures Safe(start, arrivals, Run(start, arrivals))
  {
    hide Accept;
    if arrivals != [] {
      var n := |arrivals| - 1;
      RunSafe(start, arrivals[..n]);
      SafeMore(start, arrivals[..n], arrivals, Run(start, arrivals[..n]));
      AcceptSafe(start, arrivals, Run(start, arrivals[..n]), arrivals[n]);
    }
  }

  // ---------------------------------------------------------------- completeness

  /** What every packet with a given id carries. */
  type Content = u32 -> seq<byte>

  function Packets(content: Content, ids: seq<u32>): (arrivals: seq<Arrival>)
    ensures |arrivals| == |ids|
    ensures forall k :: 0 <= k < |ids| ==> arrivals[k] == Arrival(ids[k], content(ids[k]))
  {
    seq(|ids|, k requires 0 <= k < |ids| => Arrival(ids[k], content(ids[k])))
  }

  /** The program drops a packet exactly when it is ahead and the buffer is full. */
  predicate Drops(r: Receiver, id: u32)
  {
    id > r.next && |r.ahead| >= MAX_BUFFERED
  }

  function After(start: u32, content: Content, ids: seq<u32>, n: nat): Receiver
    requires n <= |ids|
  {
    Run(start, Packets(content, ids)[..n])
  }

  /** The ids that arrived and were not dropped. */
  ghost function Kept(start: u32, content: Content, ids: seq<u32>, n: nat): set<u32>
    requires n <= |ids|
  {
    set k | 0 <= k < n && !Drops(After(start, content, ids, k), ids[k]) :: ids[k]
  }

  /** `next` is the least id from the start that was not kept; everything below it has been fed. */
  ghost predicate Complete(start: u32, content: Content, kept: set<u32>, r: Receiver)
  {
    && start <= r.next && r.next !in kept
    && (forall id :: start <= id < r.next ==> id in kept)
    && |r.fed| == r.next - start
    && (forall k :: 0 <= k < |r.fed| ==> r.fed[k] == content(start + k))
    && (forall id :: id in r.ahead <==> id in kept && id > r.next)
    && (forall id :: id in r.ahead ==> r.ahead[id] == content(id))
  }

  ghost predicate AlmostComplete(start: u32, content: Content, kept: set<u32>, r: Receiver)
  {
    && start <= r.next
    && (forall id :: start <= id < r.next ==> id in kept)
    && |r.fed| == r.next - start
    && (forall k :: 0 <= k < |r.fed| ==> r.fed[k] == content(start + k))
    && (forall id :: id in r.ahead <==> id in kept && id >= r.next)
    && (forall id :: id in r.ahead ==> r.ahead[id] == content(id))
  }

  lemma DueComplete(start: u32, content: Content, kept: set<u32>, r: Receiver)
    requires AlmostComplete(start, content, kept, r) && LAST_ID !in kept && r.next in r.ahead
    ensures AlmostComplete(start, content, kept, FeedDue(r)) && FeedDue(r).next == r.next + 1
  {
    assert r.next in kept;
  }

  lemma NothingDueComplete(start: u32, content: Content, kept: set<u32>, r: Receiver)
    requires AlmostComplete(start, content, kept, r) && r.next !in r.ahead
    ensures Complete(start, content, kept, r)
  {
  }

  lemma {:induction false} DrainComplete(start: u32, content: Content, kept: set<u32>, r: Receiver)
    requires AlmostComplete(start, content, kept, r) && LAST_ID !in kept
    ensures Complete(start, content, kept, Drain(r)) && Drain(r).next >= r.next
    decreases |r.ahead|
  {
    hide Drain, AlmostComplete, Complete, FeedDue;
    DrainOnce(r);
    if r.next in r.ahead {
      DueComplete(start, content, kept, r);
      DrainComplete(start, content, kept, FeedDue(r));
    } else {
      NothingDueComplete(start, content, kept, r);
    }
  }

  lemma FedComplete(start: u32, content: Content, kept: set<u32>, r: Receiver)
    requires Complete(start, content, kept, r) && r.next != LAST_ID
    ensures AlmostComplete(start, content, kept + {r.next}, FeedNext(r, content(r.next)))
    ensures FeedNext(r, content(r.next)).next == r.next + 1
  {
  }

  lemma AcceptComplete(start: u32, content: Content, kept: set<u32>, r: Receiver, id: u32)
    requires Complete(start, content, kept, r) && LAST_ID !in kept && id != LAST_ID
    ensures Complete(start, content, if Drops(r, id) then kept else kept + {id}, Accept(r, Arrival(id, content(id))))
    ensures Accept(r, Arrival(id, content(id))).next >= r.next
  {
    if id == r.next {
      hide Drain, Complete, AlmostComplete, FeedNext;
      FedComplete(start, content, kept, r);
      DrainComplete(start, content, kept + {id}, FeedNext(r, content(id)));
    }
  }

  /** In every run in which equal ids carry equal payloads. */
  lemma {:induction false} RunComplete(start: u32, content: Content, ids: seq<u32>, n: nat)
    requires n <= |ids| && LAST_ID !in ids
    ensures Complete(start, content, Kept(start, content, ids, n), After(start, content, ids, n))
  {
    hide Accept, Drops;
    if n > 0 {
      RunComplete(start, content, ids, n - 1);
      var before := After(start, content, ids, n - 1);
      AcceptComplete(start, content, Kept(start, content, ids, n - 1), before, ids[n - 1]);
      KeptOneMore(start, content, ids, n - 1);
      var all := Packets(content, ids);
      assert all[..n][..n - 1] == all[..n - 1];
    } else {
      assert Packets(content, ids)[..0] == [];
    }
  }

  lemma KeptOneMore(start: u32, content: Content, ids: seq<u32>, n: nat)
    requires n < |ids|
    ensures Kept(start, content, ids, n + 1)
         == if Drops(After(start, content, ids, n), ids[n]) then Kept(start, content, ids, n)
            else Kept(start, content, ids, n) + {ids[n]}
  {
    hide Drops, After;
  }

  /** Every packet arrives at most 32 ids past the one then expected. */
  ghost predicate InWindow(start: u32, content: Content, ids: seq<u32>)
  {
    forall n :: 0 <= n < |ids| ==> ids[n] <= After(start, content, ids, n).next + MAX_BUFFERED
  }

  lemma {:induction false} SpanSize(s: set<u32>, low: int, width: nat)
    requires forall id :: id in s ==> low < id <= low + width
    ensures |s| <= width
  {
    if s != {} {
      if width == 0 {
        assert false;
      } else {
        var rest := s - {low + width};
        SpanSize(rest, low, width - 1);
        assert |s| <= |rest| + 1 by { if low + width in s { assert s == rest + {low + width}; } else { assert s == rest; } }
      }
    }
  }

  /** One more arrival, seen from the run. */
  lemma AfterOneMore(start: u32, content: Content, ids: seq<u32>, n: nat)
    requires n < |ids| && LAST_ID !in ids
    ensures After(start, content, ids, n + 1) == Accept(After(start, content, ids, n), Arrival(ids[n], content(ids[n])))
    ensures After(start, content, ids, n + 1).next >= After(start, content, ids, n).next
    ensures Kept(start, content, ids, n + 1)
         == if Drops(After(start, content, ids, n), ids[n]) then Kept(start, content, ids, n)
            else Kept(start, content, ids, n) + {ids[n]}
  {
    hide Accept, Drops, Complete;
    RunComplete(start, content, ids, n);
    KeptOneMore(start, content, ids, n);
    AcceptComplete(start, content, Kept(start, content, ids, n), After(start, content, ids, n), ids[n]);
    var all := Packets(content, ids);
    assert all[..n + 1][..n] == all[..n];
  }

  lemma {:induction false} KeptNearby(start: u32, content: Content, ids: seq<u32>, n: nat)
    requires n <= |ids| && LAST_ID !in ids && InWindow(start, content, ids)
    ensures forall id :: id in Kept(start, content, ids, n) ==> id <= After(start, content, ids, n).next + MAX_BUFFERED
  {
    hide Accept, Drops, Run;
    if n > 0 {
      KeptNearby(start, content, ids, n - 1);
      AfterOneMore(start, content, ids, n - 1);
    }
  }

  /** Inside the window a packet is dropped only when it is already buffered. */
  lemma WindowKeeps(start: u32, content: Content, ids: seq<u32>, n: nat)
    requires n < |ids| && LAST_ID !in ids && InWindow(start, content, ids)
    ensures Drops(After(start, content, ids, n), ids[n]) ==> ids[n] in Kept(start, content, ids, n)
  {
    hide Accept, Run;
    var r := After(start, content, ids, n);
    RunComplete(start, content, ids, n);
    KeptNearby(start, content, ids, n);
    if Drops(r, ids[n]) && ids[n] !in r.ahead {
      var keys := r.ahead.Keys + {ids[n]};
      assert |keys| == |r.ahead.Keys| + 1;
      SpanSize(keys, r.next, MAX_BUFFERED);
      assert false;
    }
  }

  ghost function Received(ids: seq<u32>, n: nat): set<u32>
    requires n <= |ids|
  {
    set k | 0 <= k < n :: ids[k]
  }

  lemma {:induction false} WindowKeepsAll(start: u32, content: Content, ids: seq<u32>, n: nat)
    requires n <= |ids| && LAST_ID !in ids && InWindow(start, content, ids)
    ensures Kept(start, content, ids, n) == Received(ids, n)
  {
    hide Accept, Drops, Run, After;
    if n > 0 {
      WindowKeepsAll(start, content, ids, n - 1);
      AfterOneMore(start, content, ids, n - 1);
      WindowKeeps(start, content, ids, n - 1);
      assert Received(ids, n) == Received(ids, n - 1) + {ids[n - 1]};
    }
  }

  /** Inside the window nothing received is lost: the stream goes on to the least id not yet received. */
  lemma WindowComplete(start: u32, content: Content, ids: seq<u32>)
    requires LAST_ID !in ids && InWindow(start, content, ids)
    ensures Complete(start, content, Received(ids, |ids|), After(start, content, ids, |ids|))
  {
    hide After;
    RunComplete(start, content, ids, |ids|);
    WindowKeepsAll(start, content, ids, |ids|);
  }

  /** Two arrival orders of the same ids feed the same stream. */
  lemma OrderDoesNotMatter(start: u32, content: Content, ids1: seq<u32>, ids2: seq<u32>)
    requires LAST_ID !in ids1 && InWindow(start, content, ids1)
    requires LAST_ID !in ids2 && InWindow(start, content, ids2)
    requires Received(ids1, |ids1|) == Received(ids2, |ids2|)
    ensures var r1, r2 := After(start, content, ids1, |ids1|), After(start, content, ids2, |ids2|);
            r1.next == r2.next && r1.fed == r2.fed
  {
    hide After;
    WindowComplete(start, content, ids1);
    WindowComplete(start, content, ids2);
    var r1, r2 := After(start, content, ids1, |ids1|), After(start, content, ids2, |ids2|);
    assert r1.next !in Received(ids2, |ids2|) && r2.next !in Received(ids1, |ids1|);
  }

  // ---------------------------------------------------------------- when packets are lost

  /** Every packet that is dropped for want of room comes again when it can be kept. */
  ghost predicate DropsMadeGood(start: u32, content: Content, ids: seq<u32>)
  {
    forall k: nat :: k < |ids| && Drops(After(start, content, ids, k), ids[k]) ==> ids[k] in Kept(start, content, ids, |ids|)
  }

  lemma ReceivedUnlessLost(start: u32, content: Content, ids: seq<u32>)
    ensures Kept(start, content, ids, |ids|) <= Received(ids, |ids|)
    ensures DropsMadeGood(start, content, ids) ==> Kept(start, content, ids, |ids|) == Received(ids, |ids|)
  {
    hide Drops, After;
  }

  lemma SameNextSameIds(start: u32, content: Content, a: set<u32>, b: set<u32>, r: Receiver, id: u32)
    requires Complete(start, content, a, r) && Complete(start, content, b, r) && id >= start && id in a
    ensures id in b
  {
  }

  lemma {:induction false} StartBelowNext(start: u32, content: Content, ids: seq<u32>, n: nat)
    requires n <= |ids| && LAST_ID !in ids
    ensures start <= After(start, content, ids, n).next
  {
    hide After;
    RunComplete(start, content, ids, n);
  }

  /** The stream goes on to the least id not received exactly when what is dropped comes again in time. */
  lemma CompleteIff(start: u32, content: Content, ids: seq<u32>)
    requires LAST_ID !in ids
    ensures Complete(start, content, Received(ids, |ids|), After(start, content, ids, |ids|))
       <==> DropsMadeGood(start, content, ids)
  {
    hide After, Complete;
    var n := |ids|;
    RunComplete(start, content, ids, n);
    ReceivedUnlessLost(start, content, ids);
    if Complete(start, content, Received(ids, n), After(start, content, ids, n)) {
      forall k: nat | k < n && Drops(After(start, content, ids, k), ids[k])
        ensures ids[k] in Kept(start, content, ids, n)
      {
        StartBelowNext(start, content, ids, k);
        SameNextSameIds(start, content, Received(ids, n), Kept(start, content, ids, n), After(start, content, ids, n), ids[k]);
      }
    }
  }

  lemma AfterPrefix(start: u32, content: Content, ids: seq<u32>, more: seq<u32>, k: nat)
    requires k <= |ids|
    ensures After(start, content, ids + more, k) == After(start, content, ids, k)
  {
    hide Run;
    assert Packets(content, ids + more)[..k] == Packets(content, ids)[..k];
  }

  /** An id that is ahead of a full buffer and not in it has not been kept, nor is it now. */
  lemma NeverKept(start: u32, content: Content, ids: seq<u32>, id: u32, more: seq<u32>)
    requires LAST_ID !in ids && id !in more
    requires var r := After(start, content, ids, |ids|); Drops(r, id) && id !in r.ahead
    ensures id !in Kept(start, content, ids + [id] + more, |ids| + 1 + |more|)
  {
    hide After, Drops;
    var all := ids + [id] + more;
    RunComplete(start, content, ids, |ids|);
    DroppedIsAhead(After(start, content, ids, |ids|), id);
    assert id !in Kept(start, content, ids, |ids|);
    assert forall j: nat :: |ids| < j < |all| ==> all[j] in more;
    forall k: nat | k < |all| && all[k] == id
      ensures Drops(After(start, content, all, k), id)
    {
      assert all == ids + ([id] + more);
      AfterPrefix(start, content, ids, [id] + more, k);
    }
  }

  lemma DroppedIsAhead(r: Receiver, id: u32)
    requires Drops(r, id)
    ensures id > r.next
  {
  }

  /**
   * For every full buffer and every id ahead that is not in it: the packet is lost, and until it comes
   * again the stream never gets past it, whatever else arrives.
   */
  lemma FullBufferLosesPacket(start: u32, content: Content, ids: seq<u32>, id: u32, more: seq<u32>)
    requires LAST_ID !in ids && LAST_ID !in more && id != LAST_ID && id !in more
    requires var r := After(start, content, ids, |ids|); Drops(r, id) && id !in r.ahead
    ensures var all := ids + [id] + more;
            var r := After(start, content, all, |all|);
            && id in Received(all, |all|) && r.next <= id && |r.fed| <= id - start
            && !Complete(start, content, Received(all, |all|), r)
  {
    hide After, Drops;
    var all := ids + [id] + more;
    NeverKept(start, content, ids, id, more);
    assert all[|ids|] == id;
    AfterPrefix(start, content, ids, [id] + more, |ids|);
    assert all == ids + ([id] + more);
    StartBelowNext(start, content, ids, |ids|);
    DroppedIsAhead(After(start, content, ids, |ids|), id);
    RunComplete(start, content, all, |all|);
    CompleteIff(start, content, all);
  }

  // ---------------------------------------------------------------- one id beyond the window

  /** The ids 3, 4, ... in order, on a stream that waits for 1. */
  function Far(n: nat): seq<u32>
    requires n <= MAX_BUFFERED
  {
    seq(n, k => 3 + k)
  }

  lemma BufferGrows(r: Receiver, a: Arrival)
    requires a.id > r.next && |r.ahead| < MAX_BUFFERED && a.id !in r.ahead
    ensures var r' := Accept(r, a);
            r'.next == r.next && r'.fed == r.fed && r'.ahead.Keys == r.ahead.Keys + {a.id} && |r'.ahead| == |r.ahead| + 1
  {
    var r' := Accept(r, a);
    assert r'.ahead.Keys == r.ahead.Keys + {a.id};
  }

  lemma {:induction false} FarFills(content: Content, ids: seq<u32>, n: nat)
    requires n <= MAX_BUFFERED && n <= |ids| && forall k :: 0 <= k < n ==> ids[k] == 3 + k
    ensures var r := After(1, content, ids, n);
            r.next == 1 && r.fed == [] && |r.ahead| == n && forall id :: id in r.ahead <==> 3 <= id < 3 + n
  {
    hide Accept;
    var all := Packets(content, ids);
    if n > 0 {
      FarFills(content, ids, n - 1);
      assert all[..n][..n - 1] == all[..n - 1];
      BufferGrows(After(1, content, ids, n - 1), all[n - 1]);
    }
  }

  /**
   * With id 34 the first 33 past the expected one, the buffer is full when 2 comes: 2 is dropped,
   * and after 1 the stream stops at 2 although every id from 1 to 34 has been received.
   */
  lemma BeyondWindowLosesPackets(content: Content)
    ensures var ids := Far(MAX_BUFFERED) + [2, 1];
            && 2 in Received(ids, |ids|) && 1 in Received(ids, |ids|)
            && After(1, content, ids, |ids|).next == 2
            && After(1, content, ids, |ids|).fed == [content(1)]
  {
    var n := MAX_BUFFERED;
    var ids := Far(n) + [2, 1];
    var all := Packets(content, ids);
    assert forall k :: 0 <= k < n ==> ids[k] == Far(n)[k];
    FarFills(content, ids, n);
    assert ids[n] == 2 && ids[n + 1] == 1;
    assert all[..n + 1][..n] == all[..n] && all[..n + 2][..n + 1] == all[..n + 1];
    var full := After(1, content, ids, n);
    assert After(1, content, ids, n + 1) == full;
    assert After(1, content, ids, n + 2) == FeedNext(full, content(1));
  }
}
