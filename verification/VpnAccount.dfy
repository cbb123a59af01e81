/** One VPN account: the tunnel in its slot, what it publishes about it, and when the tunnel is closed. */
module VpnAccount {
  import opened Bytes
  import opened Options

  type Instant = nat

  /** How a tunnel is used: its open connections, and since when it has been seen without any. */
  datatype Use = Use(connections: nat, idleSince: Option<Instant>)

  datatype State = State(
    slot: Option<Use>, port: nat, ready: bool, failures: nat, notBefore: Instant, generation: nat)

  /** How an attempt to connect ends: with a bound bridge port, without a bridge, or without a tunnel. */
  datatype Attempt = Up(port: nat) | NoBridge | Down

  const UNUSED: State := State(None, 0, false, 0, 0, 0)

  /** In milliseconds. */
  function Backoff(failures: nat): nat
  {
    Doubled(1000, if failures < 8 then failures else 8)
  }

  function Elapsed(since: Instant, now: Instant): nat
  {
    if since < now then now - since else 0
  }

  // ---------------------------------------------------------------- operations

  datatype Lived = Lived(ok: bool, after: State)

  function Connect(s: State, now: Instant, attempt: Attempt): Lived
  {
    match attempt
    case Up(port) => Lived(true, s.(failures := 0, ready := true, port := port, slot := Some(Use(0, None))))
    case NoBridge => Lived(false, s)
    case Down =>
      Lived(false, s.(failures := s.failures + 1, notBefore := now + Backoff(s.failures + 1), ready := false,
                      generation := s.generation + 1))
  }

  /** The tunnel to use: the one in the slot, or a new one unless it is too early to try. */
  function Live(s: State, now: Instant, attempt: Attempt): Lived
  {
    if s.slot.Some? then Lived(true, s.(slot := Some(s.slot.value.(idleSince := None))))
    else if now < s.notBefore then Lived(false, s)
    else Connect(s, now, attempt)
  }

  /** A first look without connections starts the idle clock. */
  function Look(u: Use, now: Instant): Use
  {
    if u.connections == 0 && u.idleSince.None? then u.(idleSince := Some(now)) else u
  }

  predicate IdleExpired(u: Use, now: Instant, timeout: nat)
  {
    u.connections == 0 && Elapsed(Look(u, now).idleSince.value, now) >= timeout
  }

  function Reap(s: State, now: Instant, timeout: nat): State
  {
    if s.slot.None? then s
    else if IdleExpired(s.slot.value, now, timeout) then
      s.(slot := None, port := 0, ready := false, generation := s.generation + 1)
    else if s.slot.value.connections > 0 then s.(slot := Some(s.slot.value.(idleSince := None)))
    else s.(slot := Some(Look(s.slot.value, now)))
  }

  /** What is asked before a candidate is chosen. */
  predicate BridgeReady(s: State)
  {
    s.ready && s.port != 0
  }

  function OpenOne(u: Use): Use
  {
    u.(connections := u.connections + 1)
  }

  function DropOne(u: Use, now: Instant): Use
    requires u.connections > 0
  {
    Use(u.connections - 1, if u.connections == 1 then Some(now) else u.idleSince)
  }

  // ---------------------------------------------------------------- the program's objects

  class Tunnel {
    var connections: nat
    var idleSince: Option<Instant>

    ghost function Value(): Use
      reads this
    {
      Use(connections, idleSince)
    }

    constructor ()
      ensures Value() == Use(0, None)
    {
      connections, idleSince := 0, None;
    }

    method Expired(now: Instant, timeout: nat) returns (expired: bool)
      modifies this
      ensures expired == IdleExpired(old(Value()), now, timeout)
      ensures Value() == Look(old(Value()), now)
    {
      if connections > 0 {
        return false;
      }
      if idleSince.None? {
        idleSince := Some(now);
      }
      var elapsed := if idleSince.value < now then now - idleSince.value else 0;
      return elapsed >= timeout;
    }
  }

  /** An open connection; it keeps its tunnel even when the account has dropped it. */
  class Guard {
    const tunnel: Tunnel

    constructor (tunnel: Tunnel)
      modifies tunnel
      ensures this.tunnel == tunnel && tunnel.Value() == OpenOne(old(tunnel.Value()))
    {
      this.tunnel := tunnel;
      new;
      tunnel.connections := tunnel.connections + 1;
    }

    method Drop(now: Instant)
      requires tunnel.connections > 0
      modifies tunnel
      ensures tunnel.Value() == DropOne(old(tunnel.Value()), now)
    {
      tunnel.connections := tunnel.connections - 1;
      if tunnel.connections == 0 {
        tunnel.idleSince := Some(now);
      }
    }
  }

  class Account {
    const timeout: nat
    var slot: Tunnel?
    var port: nat
    var ready: bool
    var failures: nat
    var notBefore: Instant
    var generation: nat

    ghost function Value(): State
      reads this, slot
    {
      State(if slot == null then None else Some(slot.Value()), port, ready, failures, notBefore, generation)
    }

    constructor (timeout: nat)
      ensures Value() == UNUSED && this.timeout == timeout
    {
      this.timeout := timeout;
      slot, port, ready, failures, notBefore, generation := null, 0, false, 0, 0, 0;
    }

    method GetLive(now: Instant, attempt: Attempt) returns (tunnel: Tunnel?)
      modifies this, slot
      ensures Lived(tunnel != null, Value()) == Live(old(Value()), now, attempt)
      ensures tunnel != null ==> slot == tunnel
      ensures old(slot) != null ==> slot == old(slot)
      ensures old(slot) == null && slot != null ==> fresh(slot)
    {
      if slot != null {
        slot.idleSince := None;
        return slot;
      }
      if now < notBefore {
        return null;
      }
      tunnel := ConnectTunnel(now, attempt);
    }

    method ConnectTunnel(now: Instant, attempt: Attempt) returns (tunnel: Tunnel?)
      requires slot == null
      modifies this
      ensures Lived(tunnel != null, Value()) == Connect(old(Value()), now, attempt)
      ensures slot == tunnel && (tunnel != null ==> fresh(tunnel))
    {
      match attempt {
        case Up(bound) =>
          tunnel := new Tunnel();
          failures := 0;
          ready := true;
          port := bound;
          slot := tunnel;
        case NoBridge =>
          tunnel := null;
        case Down =>
          failures := failures + 1;
          notBefore := now + Backoff(failures);
          ready := false;
          generation := generation + 1;
          tunnel := null;
      }
    }

    method ReapIdle(now: Instant)
      modifies this, slot
      ensures Value() == Reap(old(Value()), now, timeout)
      ensures slot == null || slot == old(slot)
    {
      if slot == null {
        return;
      }
      var expired := slot.Expired(now, timeout);
      if !expired {
        if slot.connections > 0 {
          slot.idleSince := None;
        }
        return;
      }
      slot.idleSince := None;
      ready := false;
      generation := generation + 1;
      port := 0;
      slot := null;
    }

    method IsReady() returns (r: bool)
      ensures r <==> BridgeReady(Value())
    {
      return ready && port != 0;
    }

    /** The port in the published address, if there is one. */
    method ProxyUrl() returns (r: Option<nat>)
      ensures r == if Value().port == 0 then None else Some(Value().port)
    {
      if port == 0 {
        return None;
      }
      return Some(port);
    }
  }

  // ---------------------------------------------------------------- every run

  /** A tunnel brought up at some time, with the time of its last use through the account. */
  datatype History = History(use: Use, lastUsed: Instant)

  /**
   * An account with every tunnel it ever had, which of them is in the slot, the calls that have got a
   * tunnel and wait for it to open a connection, the connections open through the account, and those
   * open through the tunnels' SOCKS bridges, which the program does not count. A bridge stays up when
   * the account has dropped its tunnel.
   */
  datatype World = World(
    account: State, tunnels: seq<History>, current: Option<nat>, opening: multiset<nat>, guards: multiset<nat>,
    bridged: multiset<nat>, now: Instant)

  const START: World := World(UNUSED, [], None, multiset{}, multiset{}, multiset{}, 0)

  datatype Step =
    | Wait(time: nat)
    | CallLive(attempt: Attempt, took: nat)
    | Opened(tunnel: nat)
    | Abandoned(tunnel: nat)
    | Dropped(tunnel: nat)
    | BridgeOpened(tunnel: nat)
    | BridgeClosed(tunnel: nat)
    | Reaped(timeout: nat)

  /** A bridge is bound to a port, and there is one for every tunnel; only what is open can be closed. */
  predicate Enabled(w: World, step: Step)
  {
    match step
    case CallLive(attempt, _) => attempt.Up? ==> attempt.port != 0
    case Opened(i) => w.opening[i] > 0
    case Abandoned(i) => w.opening[i] > 0
    case BridgeOpened(i) => i < |w.tunnels|
    case BridgeClosed(i) => w.bridged[i] > 0
    case Dropped(i) => w.guards[i] > 0 && i < |w.tunnels| && w.tunnels[i].use.connections > 0
    case _ => true
  }

  /** The tunnel `i` is used: by the account too, when it is in the slot. */
  function WithUse(w: World, i: nat, use: Use): World
  {
    if i >= |w.tunnels| then w
    else
      var tunnels := w.tunnels[i := History(use, w.now)];
      if w.current == Some(i) then w.(tunnels := tunnels, account := w.account.(slot := Some(use)))
      else w.(tunnels := tunnels)
  }

  function AfterLive(w: World, lived: Lived): World
  {
    if !lived.ok then w.(account := lived.after)
    else if w.current.Some? && w.current.value < |w.tunnels| && lived.after.slot.Some? then
      var i := w.current.value;
      WithUse(w, i, lived.after.slot.value).(opening := w.opening[i := w.opening[i] + 1])
    else
      var i := |w.tunnels|;
      w.(account := lived.after, tunnels := w.tunnels + [History(Use(0, None), w.now)], current := Some(i),
         opening := w.opening[i := w.opening[i] + 1])
  }

  function AfterReap(w: World, after: State): World
  {
    if after.slot.None? then w.(account := after, current := None)
    else if w.current.Some? && w.current.value < |w.tunnels| then
      var i := w.current.value;
      w.(account := after, tunnels := w.tunnels[i := w.tunnels[i].(use := after.slot.value)])
    else w
  }

  /** A call makes an attempt when there is no tunnel and the back-off is over; only then does it take time. */
  predicate Attempts(w: World)
  {
    w.account.slot.None? && w.now >= w.account.notBefore
  }

  function Until(w: World, took: nat): Instant
  {
    if Attempts(w) then w.now + took else w.now
  }

  /** The back-off after a failed attempt counts from the beginning of it. */
  function Next(w: World, step: Step): World
    requires Enabled(w, step)
  {
    match step
    case Wait(time) => w.(now := w.now + time)
    case CallLive(attempt, took) => AfterLive(w.(now := Until(w, took)), Live(w.account, w.now, attempt))
    case Opened(i) =>
      if i >= |w.tunnels| then w
      else WithUse(w, i, OpenOne(w.tunnels[i].use))
             .(opening := w.opening[i := w.opening[i] - 1], guards := w.guards[i := w.guards[i] + 1])
    case Abandoned(i) => w.(opening := w.opening[i := w.opening[i] - 1])
    case Dropped(i) => WithUse(w, i, DropOne(w.tunnels[i].use, w.now)).(guards := w.guards[i := w.guards[i] - 1])
    case BridgeOpened(i) => w.(bridged := w.bridged[i := w.bridged[i] + 1])
    case BridgeClosed(i) => w.(bridged := w.bridged[i := w.bridged[i] - 1])
    case Reaped(timeout) => AfterReap(w, Reap(w.account, w.now, timeout))
  }

  predicate TunnelOk(h: History, guards: nat, now: Instant)
  {
    && h.use.connections == guards
    && h.lastUsed <= now
    && (h.use.connections == 0 && h.use.idleSince.Some? ==> h.lastUsed <= h.use.idleSince.value <= now)
  }

  /** What is published agrees with the slot, and every tunnel counts exactly its connections through the account. */
  ghost predicate Invariant(w: World)
  {
    && (w.account.slot.Some? <==> w.account.ready)
    && (w.account.slot.Some? <==> w.account.port != 0)
    && (w.account.slot.Some? <==> w.current.Some?)
    && (w.current.Some? ==> w.current.value < |w.tunnels| && w.account.slot == Some(w.tunnels[w.current.value].use))
    && (forall i :: i in w.opening || i in w.guards ==> i < |w.tunnels|)
    && (forall i :: 0 <= i < |w.tunnels| ==> TunnelOk(w.tunnels[i], w.guards[i], w.now))
  }

  lemma StartHolds()
    ensures Invariant(START)
  {
  }

  lemma UseKeeps(w: World, i: nat, use: Use)
    requires Invariant(w) && i < |w.tunnels|
    requires use.connections == 0 && use.idleSince.Some? ==> use.idleSince.value == w.now
    ensures var w' := WithUse(w, i, use).(guards := w.guards[i := use.connections]);
            Invariant(w') && w'.account.generation == w.account.generation
  {
    var w' := WithUse(w, i, use).(guards := w.guards[i := use.connections]);
    forall k | 0 <= k < |w'.tunnels|
      ensures TunnelOk(w'.tunnels[k], w'.guards[k], w'.now)
    {
      assert TunnelOk(w.tunnels[k], w.guards[k], w.now);
    }
    forall k | k in w'.guards
      ensures k < |w'.tunnels|
    {
      assert k == i || k in w.guards;
    }
  }

  /** Which calls wait for a connection is of no matter, as long as their tunnels exist. */
  lemma OpeningKeeps(w: World, i: nat, n: nat)
    requires Invariant(w) && i < |w.tunnels|
    ensures Invariant(w.(opening := w.opening[i := n]))
  {
    var opening := w.opening[i := n];
    forall k | k in opening
      ensures k < |w.tunnels|
    {
      assert k == i || k in w.opening;
    }
  }

  lemma NewTunnelKeeps(w: World, start: Instant, port: nat)
    requires Invariant(w) && w.account.slot.None? && port != 0
    ensures Invariant(AfterLive(w, Connect(w.account, start, Up(port))))
  {
    var i := |w.tunnels|;
    var w1 := w.(account := Connect(w.account, start, Up(port)).after,
                 tunnels := w.tunnels + [History(Use(0, None), w.now)], current := Some(i));
    forall k | 0 <= k < |w1.tunnels|
      ensures TunnelOk(w1.tunnels[k], w1.guards[k], w1.now)
    {
      if k < i {
        assert TunnelOk(w.tunnels[k], w.guards[k], w.now);
      } else {
        assert k !in w.guards;
      }
    }
    OpeningKeeps(w1, i, w1.opening[i] + 1);
  }

  lemma LiveKeeps(w: World, start: Instant, attempt: Attempt)
    requires Invariant(w) && (attempt.Up? ==> attempt.port != 0)
    ensures Invariant(AfterLive(w, Live(w.account, start, attempt)))
  {
    hide Backoff;
    if w.current.Some? {
      var i := w.current.value;
      assert TunnelOk(w.tunnels[i], w.guards[i], w.now);
      var use := w.account.slot.value.(idleSince := None);
      UseKeeps(w, i, use);
      assert w.guards[i := use.connections] == w.guards;
      OpeningKeeps(WithUse(w, i, use), i, w.opening[i] + 1);
    } else if start >= w.account.notBefore && attempt.Up? {
      NewTunnelKeeps(w, start, attempt.port);
    }
  }

  lemma ReapKeeps(w: World, timeout: nat)
    requires Invariant(w)
    ensures Invariant(AfterReap(w, Reap(w.account, w.now, timeout)))
  {
    var w' := AfterReap(w, Reap(w.account, w.now, timeout));
    forall k | 0 <= k < |w'.tunnels|
      ensures TunnelOk(w'.tunnels[k], w'.guards[k], w'.now)
    {
      assert TunnelOk(w.tunnels[k], w.guards[k], w.now);
    }
  }

  /** No step breaks it; in particular no connection count is ever taken below zero. */
  lemma StepKeeps(w: World, step: Step)
    requires Invariant(w) && Enabled(w, step)
    ensures Invariant(Next(w, step))
  {
    hide Backoff, Invariant, TunnelOk, Live, Reap;
    match step
    case Wait(time) => WaitKeeps(w, time);
    case CallLive(attempt, took) =>
      WaitKeeps(w, Until(w, took) - w.now);
      LiveKeeps(w.(now := Until(w, took)), w.now, attempt);
    case Opened(i) =>
      OpeningExists(w, i);
      OpeningKeeps(w, i, w.opening[i] - 1);
      var w1 := w.(opening := w.opening[i := w.opening[i] - 1]);
      CountsGuards(w, i);
      UseKeeps(w1, i, OpenOne(w.tunnels[i].use));
    case Abandoned(i) =>
      OpeningExists(w, i);
      OpeningKeeps(w, i, w.opening[i] - 1);
    case Dropped(i) =>
      CountsGuards(w, i);
      UseKeeps(w, i, DropOne(w.tunnels[i].use, w.now));
    case BridgeOpened(i) => BridgeKeeps(w, w.bridged[i := w.bridged[i] + 1]);
    case BridgeClosed(i) => BridgeKeeps(w, w.bridged[i := w.bridged[i] - 1]);
    case Reaped(timeout) => ReapKeeps(w, timeout);
  }

  lemma BridgeKeeps(w: World, bridged: multiset<nat>)
    requires Invariant(w)
    ensures Invariant(w.(bridged := bridged))
  {
    var w' := w.(bridged := bridged);
    forall k | 0 <= k < |w'.tunnels|
      ensures TunnelOk(w'.tunnels[k], w'.guards[k], w'.now)
    {
      assert TunnelOk(w.tunnels[k], w.guards[k], w.now);
    }
  }

  lemma WaitKeeps(w: World, time: nat)
    requires Invariant(w)
    ensures Invariant(w.(now := w.now + time))
  {
    forall k | 0 <= k < |w.tunnels|
      ensures TunnelOk(w.tunnels[k], w.guards[k], w.now + time)
    {
      assert TunnelOk(w.tunnels[k], w.guards[k], w.now);
    }
  }

  lemma OpeningExists(w: World, i: nat)
    requires Invariant(w) && w.opening[i] > 0
    ensures i < |w.tunnels|
  {
    assert i in w.opening;
  }

  lemma CountsGuards(w: World, i: nat)
    requires Invariant(w) && i < |w.tunnels|
    ensures w.tunnels[i].use.connections == w.guards[i]
  {
    assert TunnelOk(w.tunnels[i], w.guards[i], w.now);
  }

  /** A connection that is open can be closed. */
  lemma DropIsPossible(w: World, i: nat)
    requires Invariant(w) && w.guards[i] > 0
    ensures Enabled(w, Dropped(i))
  {
    assert i in w.guards;
    assert TunnelOk(w.tunnels[i], w.guards[i], w.now);
  }

  ghost predicate Reaches(from: World, w: World, steps: seq<Step>)
    decreases |steps|
  {
    if steps == [] then w == from
    else
      var n := |steps| - 1;
      exists before: World :: Reaches(from, before, steps[..n]) && Enabled(before, steps[n]) && w == Next(before, steps[n])
  }

  ghost predicate Reachable(w: World, steps: seq<Step>)
  {
    Reaches(START, w, steps)
  }

  lemma {:induction false} RunsKeep(w: World, steps: seq<Step>)
    requires Reachable(w, steps)
    ensures Invariant(w)
    decreases |steps|
  {
    hide Next, Invariant;
    if steps == [] {
      StartHolds();
    } else {
      var n := |steps| - 1;
      var before: World :| Reaches(START, before, steps[..n]) && Enabled(before, steps[n]) && w == Next(before, steps[n]);
      RunsKeep(before, steps[..n]);
      StepKeeps(before, steps[n]);
    }
  }

  // ---------------------------------------------------------------- what is counted

  /** Where the steps lead; one that cannot happen leads nowhere. */
  function After(steps: seq<Step>): World
  {
    if steps == [] then START
    else
      var n := |steps| - 1;
      var before := After(steps[..n]);
      if Enabled(before, steps[n]) then Next(before, steps[n]) else before
  }

  lemma {:induction false} ReachesAfter(w: World, steps: seq<Step>)
    requires Reachable(w, steps)
    ensures w == After(steps)
    decreases |steps|
  {
    hide Next, Enabled;
    if steps != [] {
      var n := |steps| - 1;
      var before: World :| Reaches(START, before, steps[..n]) && Enabled(before, steps[n]) && w == Next(before, steps[n]);
      ReachesAfter(before, steps[..n]);
    }
  }

  /** The `k`-th step is an attempt to connect that ends without a tunnel, or with one. */
  predicate FailsAt(steps: seq<Step>, k: nat)
    requires k < |steps|
  {
    steps[k].CallLive? && steps[k].attempt == Down && Attempts(After(steps[..k]))
  }

  predicate ConnectsAt(steps: seq<Step>, k: nat)
    requires k < |steps|
  {
    steps[k].CallLive? && steps[k].attempt.Up? && Attempts(After(steps[..k]))
  }

  /** The `k`-th step drops the tunnel. */
  predicate DropsAt(steps: seq<Step>, k: nat)
    requires k < |steps|
  {
    After(steps[..k]).current.Some? && After(steps[..k + 1]).current.None?
  }

  function FailuresIn(steps: seq<Step>, from: nat): set<nat>
  {
    set k: nat | from <= k < |steps| && FailsAt(steps, k)
  }

  function MovesIn(steps: seq<Step>): set<nat>
  {
    set k: nat | k < |steps| && (FailsAt(steps, k) || DropsAt(steps, k))
  }

  lemma FrontSame(steps: seq<Step>, k: nat)
    requires steps != [] && k < |steps| - 1
    ensures var front := steps[..|steps| - 1];
            && (FailsAt(steps, k) <==> FailsAt(front, k)) && (ConnectsAt(steps, k) <==> ConnectsAt(front, k))
            && (DropsAt(steps, k) <==> DropsAt(front, k))
  {
    hide After;
    var front := steps[..|steps| - 1];
    assert front[..k] == steps[..k] && front[..k + 1] == steps[..k + 1];
  }

  lemma FailuresOneMore(steps: seq<Step>, from: nat)
    requires steps != [] && from <= |steps| - 1
    ensures var n := |steps| - 1;
            |FailuresIn(steps, from)| == |FailuresIn(steps[..n], from)| + if FailsAt(steps, n) then 1 else 0
  {
    hide FailsAt, ConnectsAt, DropsAt;
    var n := |steps| - 1;
    forall k: nat | k < n
      ensures FailsAt(steps, k) <==> FailsAt(steps[..n], k)
    {
      FrontSame(steps, k);
    }
    assert FailuresIn(steps, from) == FailuresIn(steps[..n], from) + if FailsAt(steps, n) then {n} else {};
  }

  lemma MovesOneMore(steps: seq<Step>)
    requires steps != []
    ensures var n := |steps| - 1;
            |MovesIn(steps)| == |MovesIn(steps[..n])| + if FailsAt(steps, n) || DropsAt(steps, n) then 1 else 0
  {
    hide FailsAt, ConnectsAt, DropsAt;
    var n := |steps| - 1;
    forall k: nat | k < n
      ensures FailsAt(steps, k) <==> FailsAt(steps[..n], k)
      ensures DropsAt(steps, k) <==> DropsAt(steps[..n], k)
    {
      FrontSame(steps, k);
    }
    assert MovesIn(steps) == MovesIn(steps[..n]) + if FailsAt(steps, n) || DropsAt(steps, n) then {n} else {};
  }

  /** What a step adds to the failures, or that it ends them, and whether it moves the generation on. */
  ghost predicate Counts(w: World, step: Step, w': World)
  {
    var attempted := step.CallLive? && Attempts(w);
    && w'.account.failures
       == (if attempted && step.attempt == Down then w.account.failures + 1
           else if attempted && step.attempt.Up? then 0 else w.account.failures)
    && w'.account.generation
       == (if (attempted && step.attempt == Down) || (w.current.Some? && w'.current.None?)
           then w.account.generation + 1 else w.account.generation)
  }

  lemma LiveCounts(w: World, attempt: Attempt, took: nat)
    requires Invariant(w) && Enabled(w, CallLive(attempt, took))
    ensures Counts(w, CallLive(attempt, took), Next(w, CallLive(attempt, took)))
  {
    hide Backoff, TunnelOk, IdleExpired;
  }

  lemma ReapCounts(w: World, timeout: nat)
    requires Invariant(w)
    ensures Counts(w, Reaped(timeout), Next(w, Reaped(timeout)))
  {
    hide Backoff, TunnelOk, IdleExpired;
  }

  lemma UseCounts(w: World, i: nat, use: Use)
    ensures WithUse(w, i, use).account.failures == w.account.failures
    ensures WithUse(w, i, use).account.generation == w.account.generation
    ensures WithUse(w, i, use).current == w.current
  {
  }

  lemma StepCounts(w: World, step: Step)
    requires Invariant(w) && Enabled(w, step)
    ensures Counts(w, step, Next(w, step))
  {
    match step {
      case CallLive(attempt, took) => LiveCounts(w, attempt, took);
      case Reaped(timeout) => ReapCounts(w, timeout);
      case Opened(i) =>
        hide Backoff, TunnelOk, IdleExpired, WithUse, Live, Reap;
        if i < |w.tunnels| { UseCounts(w, i, OpenOne(w.tunnels[i].use)); }
      case Dropped(i) =>
        hide Backoff, TunnelOk, IdleExpired, WithUse, Live, Reap;
        UseCounts(w, i, DropOne(w.tunnels[i].use, w.now));
      case _ =>
    }
  }

  /** So many attempts have failed since the last that brought up a tunnel, or since the start. */
  ghost predicate FailedSince(steps: seq<Step>, from: nat, failures: nat)
  {
    && from <= |steps| && (from == 0 || ConnectsAt(steps, from - 1))
    && (forall k :: from <= k < |steps| ==> !ConnectsAt(steps, k))
    && failures == |FailuresIn(steps, from)|
  }

  lemma FailedSinceMore(steps: seq<Step>, from: nat, failures: nat)
    requires steps != [] && FailedSince(steps[..|steps| - 1], from, failures) && !ConnectsAt(steps, |steps| - 1)
    ensures FailedSince(steps, from, failures + if FailsAt(steps, |steps| - 1) then 1 else 0)
  {
    hide FailsAt, ConnectsAt, DropsAt, FailuresIn;
    var n := |steps| - 1;
    FailuresOneMore(steps, from);
    if from > 0 { FrontSame(steps, from - 1); }
    forall k | from <= k < |steps|
      ensures !ConnectsAt(steps, k)
    {
      if k < n { FrontSame(steps, k); }
    }
  }

  lemma NoneFailedSince(steps: seq<Step>)
    requires steps == [] || ConnectsAt(steps, |steps| - 1)
    ensures FailedSince(steps, |steps|, 0)
  {
    NoneFromEnd(steps);
  }

  /** The count of failures is the number of attempts that have failed since a tunnel last came up. */
  lemma {:induction false} FailuresCounted(w: World, steps: seq<Step>) returns (from: nat)
    requires Reachable(w, steps)
    ensures FailedSince(steps, from, w.account.failures)
    decreases |steps|
  {
    if steps == [] {
      from := 0;
      NoneFailedSince(steps);
    } else {
      hide Next, Invariant, Enabled, After, FailedSince, Attempts;
      var n := |steps| - 1;
      var before: World :| Reaches(START, before, steps[..n]) && Enabled(before, steps[n]) && w == Next(before, steps[n]);
      ReachesAfter(before, steps[..n]);
      RunsKeep(before, steps[..n]);
      StepCounts(before, steps[n]);
      if ConnectsAt(steps, n) {
        from := |steps|;
        NoneFailedSince(steps);
      } else {
        from := FailuresCounted(before, steps[..n]);
        FailedSinceMore(steps, from, before.account.failures);
      }
    }
  }

  lemma NoneFromEnd(steps: seq<Step>)
    ensures FailuresIn(steps, |steps|) == {}
  {
  }

  lemma StepPort(w: World, step: Step)
    requires Invariant(w) && Enabled(w, step)
    ensures var w' := Next(w, step);
            if step.CallLive? && step.attempt.Up? && Attempts(w) then w'.account.port == step.attempt.port && w'.current.Some?
            else w'.current.Some? ==> w.current.Some? && w'.account.port == w.account.port
  {
    hide Backoff, TunnelOk, IdleExpired;
  }

  /** The `k`-th step brought up a tunnel on this port; none has been dropped or brought up since. */
  ghost predicate UpSince(steps: seq<Step>, k: nat, port: nat)
  {
    && k < |steps| && ConnectsAt(steps, k) && port == steps[k].attempt.port
    && forall j :: k < j < |steps| ==> !ConnectsAt(steps, j) && !DropsAt(steps, j)
  }

  lemma UpSinceMore(steps: seq<Step>, k: nat, port: nat)
    requires steps != [] && UpSince(steps[..|steps| - 1], k, port)
    requires !ConnectsAt(steps, |steps| - 1) && !DropsAt(steps, |steps| - 1)
    ensures UpSince(steps, k, port)
  {
    FrontSame(steps, k);
    hide ConnectsAt, DropsAt, FailsAt;
    forall j | k < j < |steps|
      ensures !ConnectsAt(steps, j) && !DropsAt(steps, j)
    {
      if j < |steps| - 1 { FrontSame(steps, j); }
    }
  }

  /** The port published while there is a tunnel is that of the bridge bound when it last came up. */
  lemma {:induction false} PortIsOfLast(w: World, steps: seq<Step>) returns (k: nat)
    requires Reachable(w, steps) && w.current.Some?
    ensures UpSince(steps, k, w.account.port)
    decreases |steps|
  {
    if steps != [] {
      hide Next, Invariant, Enabled, After, Attempts, UpSince, DropsAt;
      var n := |steps| - 1;
      var before: World :| Reaches(START, before, steps[..n]) && Enabled(before, steps[n]) && w == Next(before, steps[n]);
      ReachesAfter(before, steps[..n]);
      ReachesAfter(w, steps);
      RunsKeep(before, steps[..n]);
      StepPort(before, steps[n]);
      if ConnectsAt(steps, n) {
        k := n;
        JustUp(steps);
      } else {
        k := PortIsOfLast(before, steps[..n]);
        NotDropped(steps);
        UpSinceMore(steps, k, w.account.port);
      }
    }
  }

  lemma JustUp(steps: seq<Step>)
    requires steps != [] && ConnectsAt(steps, |steps| - 1)
    ensures UpSince(steps, |steps| - 1, steps[|steps| - 1].attempt.port)
  {
  }

  lemma NotDropped(steps: seq<Step>)
    requires steps != [] && After(steps).current.Some?
    ensures !DropsAt(steps, |steps| - 1)
  {
    hide After;
    assert steps[..|steps| - 1 + 1] == steps;
  }

  /** The generation is the number of failed attempts and dropped tunnels. */
  lemma {:induction false} GenerationCounts(w: World, steps: seq<Step>)
    requires Reachable(w, steps)
    ensures w.account.generation == |MovesIn(steps)|
    decreases |steps|
  {
    if steps == [] {
      assert MovesIn(steps) == {};
    } else {
      hide Next, Invariant, Enabled, MovesIn;
      var n := |steps| - 1;
      var before: World :| Reaches(START, before, steps[..n]) && Enabled(before, steps[n]) && w == Next(before, steps[n]);
      ReachesAfter(before, steps[..n]);
      ReachesAfter(w, steps);
      RunsKeep(before, steps[..n]);
      StepCounts(before, steps[n]);
      GenerationCounts(before, steps[..n]);
      MovesOneMore(steps);
      assert steps[..n + 1] == steps;
    }
  }

  /** A bridge is published exactly when there is a tunnel in the slot. */
  lemma BridgeReadyIffTunnel(w: World, steps: seq<Step>)
    requires Reachable(w, steps)
    ensures BridgeReady(w.account) <==> w.current.Some?
  {
    RunsKeep(w, steps);
  }

  /** The idle clock of a tunnel has run out; a first look only starts it. */
  predicate ClockOver(use: Use, now: Instant, timeout: nat)
  {
    match use.idleSince
    case None => timeout == 0
    case Some(since) => Elapsed(since, now) >= timeout
  }

  /**
   * A tunnel is dropped exactly when no connection is open through the account and the idle clock is
   * over, whatever the bridge carries.
   */
  lemma ReapedIff(w: World, steps: seq<Step>, timeout: nat)
    requires Reachable(w, steps) && w.current.Some?
    ensures var i := w.current.value;
            && i < |w.tunnels|
            && (Next(w, Reaped(timeout)).current.None?
                <==> w.guards[i] == 0 && ClockOver(w.tunnels[i].use, w.now, timeout))
    ensures forall bridged ::
      Next(w.(bridged := bridged), Reaped(timeout)) == Next(w, Reaped(timeout)).(bridged := bridged)
  {
    RunsKeep(w, steps);
    assert TunnelOk(w.tunnels[w.current.value], w.guards[w.current.value], w.now);
  }

  /** So it has not been used through the account for the whole timeout. */
  lemma ReapedOnlyWhenIdle(w: World, steps: seq<Step>, timeout: nat)
    requires Reachable(w, steps) && w.current.Some? && timeout > 0
    ensures Next(w, Reaped(timeout)).current.None? ==>
      var i := w.current.value;
      i < |w.tunnels| && w.guards[i] == 0 && w.tunnels[i].lastUsed + timeout <= w.now
  {
    RunsKeep(w, steps);
    assert TunnelOk(w.tunnels[w.current.value], w.guards[w.current.value], w.now);
  }

  /** The last connection closed, the tunnel is dropped at the first look after the timeout and not before. */
  lemma DroppedOnTime(w: World, steps: seq<Step>, time: nat, timeout: nat)
    requires Reachable(w, steps) && w.current.Some? && w.guards[w.current.value] == 1
    ensures var i := w.current.value;
            && Enabled(w, Dropped(i))
            && var idle := Next(Next(w, Dropped(i)), Wait(time));
               && idle.current == Some(i)
               && (Next(idle, Reaped(timeout)).current.None? <==> time >= timeout)
  {
    hide Invariant, Live, Backoff;
    RunsKeep(w, steps);
    DropIsPossible(w, w.current.value);
    SlotIs(w);
  }

  lemma SlotIs(w: World)
    requires Invariant(w) && w.current.Some?
    ensures var i := w.current.value;
            && i < |w.tunnels| && w.account.slot == Some(w.tunnels[i].use) && w.tunnels[i].use.connections == w.guards[i]
  {
    assert TunnelOk(w.tunnels[w.current.value], w.guards[w.current.value], w.now);
  }

  /** One that is asked for again and then not used is dropped so long after the first look. */
  lemma UnusedDroppedOnTime(w: World, steps: seq<Step>, attempt: Attempt, time: nat, timeout: nat)
    requires Reachable(w, steps) && w.current.Some? && w.guards[w.current.value] == 0 && timeout > 0
    requires attempt.Up? ==> attempt.port != 0
    ensures var seen := Next(Next(w, CallLive(attempt, 0)), Reaped(timeout));
            && seen.current == w.current
            && (Next(Next(seen, Wait(time)), Reaped(timeout)).current.None? <==> time >= timeout)
  {
    hide Invariant, Backoff;
    RunsKeep(w, steps);
    SlotIs(w);
  }

  lemma Extend(w: World, steps: seq<Step>, step: Step)
    requires Reachable(w, steps) && Enabled(w, step)
    ensures Reachable(Next(w, step), steps + [step])
  {
    hide Next, Enabled;
    assert (steps + [step])[..|steps|] == steps;
  }

  /**
   * For every port and timeout there is a run in which the account drops a tunnel over whose bridge a
   * connection has been open ever since the tunnel came up, and another has just been opened.
   */
  lemma BridgeInUseIsDropped(port: nat, timeout: nat) returns (w: World, steps: seq<Step>)
    requires port != 0 && timeout > 0
    ensures Reachable(w, steps) && w.current == Some(0) && w.bridged[0] == 2
    ensures Next(w, Reaped(timeout)).current == None && Next(w, Reaped(timeout)).bridged[0] == 2
  {
    hide Reachable, Next, Enabled;
    w, steps := BroughtUp(port);
    StepsUnused(port, None, 0, 0, timeout);
    Extend(w, steps, BridgeOpened(0));
    w, steps := Next(w, BridgeOpened(0)), steps + [BridgeOpened(0)];
    StepsUnused(port, None, 1, 0, timeout);
    Extend(w, steps, Reaped(timeout));
    w, steps := Next(w, Reaped(timeout)), steps + [Reaped(timeout)];
    StepsUnused(port, Some(0), 1, 0, timeout);
    Extend(w, steps, Wait(timeout));
    w, steps := Next(w, Wait(timeout)), steps + [Wait(timeout)];
    StepsUnused(port, Some(0), 1, timeout, timeout);
    Extend(w, steps, BridgeOpened(0));
    w, steps := Next(w, BridgeOpened(0)), steps + [BridgeOpened(0)];
    StepsUnused(port, Some(0), 2, timeout, timeout);
  }

  /** A first tunnel that nothing has used through the account, with so many connections over its bridge. */
  function Unused(port: nat, idleSince: Option<Instant>, bridged: nat, now: Instant): World
  {
    var use := Use(0, idleSince);
    World(State(Some(use), port, true, 0, 0, 0), [History(use, 0)], Some(0), multiset{}, multiset{},
          multiset{}[0 := bridged], now)
  }

  lemma BroughtUp(port: nat) returns (w: World, steps: seq<Step>)
    requires port != 0
    ensures Reachable(w, steps) && w == Unused(port, None, 0, 0)
  {
    hide Reachable;
    StartReachable();
    Extend(START, [], CallLive(Up(port), 0));
    w, steps := Next(START, CallLive(Up(port), 0)), [] + [CallLive(Up(port), 0)];
    Extend(w, steps, Abandoned(0));
    w, steps := Next(w, Abandoned(0)), steps + [Abandoned(0)];
    assert w.opening == multiset{};
  }

  lemma StepsUnused(port: nat, idleSince: Option<Instant>, bridged: nat, now: Instant, timeout: nat)
    requires timeout > 0
    ensures var w := Unused(port, idleSince, bridged, now);
            && w.bridged[0] == bridged && w.current == Some(0)
            && Enabled(w, BridgeOpened(0)) && Next(w, BridgeOpened(0)) == Unused(port, idleSince, bridged + 1, now)
            && Enabled(w, Reaped(timeout)) && Enabled(w, Wait(timeout))
            && Next(w, Wait(timeout)) == Unused(port, idleSince, bridged, now + timeout)
            && (idleSince == None ==> Next(w, Reaped(timeout)) == Unused(port, Some(now), bridged, now))
            && (idleSince == Some(0) && now == timeout ==>
                  Next(w, Reaped(timeout)).current == None && Next(w, Reaped(timeout)).bridged[0] == bridged)
  {
  }

  lemma StartReachable()
    ensures Reachable(START, [])
  {
  }

  /** While an account is in back-off nothing about it changes, in any run. */
  lemma {:induction false} FailureHoldsOff(w: World, w': World, steps: seq<Step>)
    requires Invariant(w) && Reaches(w, w', steps)
    requires w.account.slot.None? && w'.now < w.account.notBefore
    ensures Invariant(w') && w'.account == w.account && w.now <= w'.now
    decreases |steps|
  {
    hide Next, Invariant, Enabled;
    if steps != [] {
      var n := |steps| - 1;
      var before: World :| Reaches(w, before, steps[..n]) && Enabled(before, steps[n]) && w' == Next(before, steps[n]);
      TimeGoesOn(before, steps[n]);
      FailureHoldsOff(w, before, steps[..n]);
      StepKeeps(before, steps[n]);
      HeldOffStep(before, steps[n]);
    }
  }

  lemma TimeGoesOn(w: World, step: Step)
    requires Enabled(w, step)
    ensures w.now <= Next(w, step).now
  {
    hide Live, Reap;
  }

  lemma HeldOffStep(w: World, step: Step)
    requires Invariant(w) && Enabled(w, step) && w.account.slot.None? && w.now < w.account.notBefore
    ensures Next(w, step).account == w.account
  {
  }

  lemma FailedAttempt(w: World, took: nat)
    requires Attempts(w)
    ensures var w' := Next(w, CallLive(Down, took));
            && w'.now == w.now + took && w'.account.slot.None? && w'.account.failures == w.account.failures + 1
            && w'.account.notBefore == w.now + Backoff(w.account.failures + 1)
  {
    hide Backoff;
  }

  /** A failed attempt starts a back-off, in which nothing changes; it counts from the beginning of the attempt. */
  lemma FailureBacksOff(w: World, took: nat, w': World, steps: seq<Step>)
    requires Invariant(w) && Attempts(w)
    requires Reaches(Next(w, CallLive(Down, took)), w', steps) && w'.now < w.now + Backoff(w.account.failures + 1)
    ensures w'.account == Next(w, CallLive(Down, took)).account && w'.account.slot.None?
  {
    hide Backoff, Next, Invariant, Reaches;
    FailedAttempt(w, took);
    StepKeeps(w, CallLive(Down, took));
    FailureHoldsOff(Next(w, CallLive(Down, took)), w', steps);
  }

  /** So it holds the account off at all exactly when the attempt took less than the back-off. */
  lemma HeldOffIff(w: World, took: nat)
    requires Attempts(w)
    ensures !Attempts(Next(w, CallLive(Down, took))) <==> took < Backoff(w.account.failures + 1)
  {
    hide Backoff;
    FailedAttempt(w, took);
  }

  /** What an attempt takes that runs into the time limit for connecting. */
  const CONNECT_TIMEOUT: nat := 20_000

  /** Attempts that run into the time limit are not held off before the fifth failure in a row. */
  lemma TimeoutsHoldOffFromFifth(w: World)
    requires Attempts(w)
    ensures !Attempts(Next(w, CallLive(Down, CONNECT_TIMEOUT))) <==> w.account.failures >= 4
  {
    HeldOffIff(w, CONNECT_TIMEOUT);
    BackoffIs(w.account.failures + 1);
  }

  /** A second, doubled with every failure up to the eighth. */
  lemma BackoffIs(failures: nat)
    ensures Backoff(failures) == [1000, 2000, 4000, 8000, 16_000, 32_000, 64_000, 128_000, 256_000][
                                   if failures < 8 then failures else 8]
  {
    var n := if failures < 8 then failures else 8;
    assert Doubled(1000, 4) == 16_000 && Doubled(1000, 5) == 32_000;
    assert Doubled(1000, 6) == 64_000 && Doubled(1000, 7) == 128_000 && Doubled(1000, 8) == 256_000;
    assert Doubled(1000, 0) == 1000 && Doubled(1000, 1) == 2000 && Doubled(1000, 2) == 4000 && Doubled(1000, 3) == 8000;
    assert n == 0 || n == 1 || n == 2 || n == 3 || n == 4 || n == 5 || n == 6 || n == 7 || n == 8;
  }
}
