/** The SSH session manager: sessions come and go while it keeps their number at a target. */
module SshManager {
  import opened Bytes
  import opened Lists
  import opened Options
  import Rotation

  type Session = nat

  // ---------------------------------------------------------------- the program's own steps

  /** In milliseconds. */
  function Backoff(failures: nat): nat
  {
    var delay := Doubled(1000, if failures < 6 then failures else 6);
    if delay < 300_000 then delay else 300_000
  }

  /** A second, doubled with every failure up to the sixth; the limit of five minutes is never reached. */
  lemma BackoffIs(failures: nat)
    ensures Backoff(failures) == [1000, 2000, 4000, 8000, 16_000, 32_000, 64_000][if failures < 6 then failures else 6]
  {
    var n := if failures < 6 then failures else 6;
    assert Doubled(1000, 0) == 1000 && Doubled(1000, 1) == 2000 && Doubled(1000, 2) == 4000 && Doubled(1000, 3) == 8000;
    assert Doubled(1000, 4) == 16_000 && Doubled(1000, 5) == 32_000 && Doubled(1000, 6) == 64_000;
    assert n == 0 || n == 1 || n == 2 || n == 3 || n == 4 || n == 5 || n == 6;
  }

  datatype Picked = Picked(account: Option<nat>, rotate: Rotation.Counter)

  /** From the `k`-th turn on, the first account whose back-off is over. */
  function PickFrom(notBefore: seq<nat>, rotate: Rotation.Counter, now: nat, k: nat): Picked
    requires k <= |notBefore|
    decreases |notBefore| - k
  {
    if k == |notBefore| then Picked(None, Rotation.Plus(rotate, k))
    else
      var i := Rotation.Turn(rotate, |notBefore|, k);
      if notBefore[i] <= now then Picked(Some(i), Rotation.Plus(rotate, k + 1))
      else PickFrom(notBefore, rotate, now, k + 1)
  }

  function Without(sessions: seq<Session>, dead: set<Session>): (rest: seq<Session>)
    ensures |rest| <= |sessions| && forall s :: s in rest <==> s in sessions && s !in dead
  {
    Filter(sessions, (s: Session) => s !in dead)
  }

  function Members(sessions: seq<Session>): set<Session>
  {
    set s | s in sessions
  }

  class Manager {
    var sessions: seq<Session>
    var closed: set<Session>
    var notBefore: seq<nat>
    var failures: seq<nat>
    var rotate: Rotation.Counter
    var pending: nat
    var connecting: nat
    var generation: nat

    ghost predicate Valid()
      reads this
    {
      |notBefore| == |failures|
    }

    method PickAccount(now: nat) returns (index: Option<nat>)
      requires Valid()
      modifies this`rotate
      ensures Picked(index, rotate) == PickFrom(notBefore, old(rotate), now, 0)
      ensures FirstInTurn(notBefore, old(rotate), now, 0, index, rotate)
    {
      PickFromMeaning(notBefore, rotate, now, 0);
      var n := |notBefore|;
      var k := 0;
      Rotation.PlusNone(rotate);
      while k < n
        invariant 0 <= k <= n && rotate == Rotation.Plus(old(rotate), k)
        invariant PickFrom(notBefore, old(rotate), now, k) == PickFrom(notBefore, old(rotate), now, 0)
      {
        var i := rotate % n;
        Rotation.PlusOne(old(rotate), k);
        rotate := Rotation.Next(rotate);
        if notBefore[i] <= now {
          return Some(i);
        }
        k := k + 1;
      }
      return None;
    }

    /** An open session, in turn. */
    method PickSession() returns (picked: Option<Session>)
      modifies this`rotate
      ensures var alive := Without(sessions, closed);
              if alive == [] then picked == None && rotate == old(rotate)
              else picked == Some(alive[old(rotate) % |alive|]) && rotate == Rotation.Next(old(rotate))
    {
      var alive := Without(sessions, closed);
      if alive == [] {
        return None;
      }
      var index := rotate % |alive|;
      rotate := Rotation.Next(rotate);
      return Some(alive[index]);
    }

    method Reap()
      modifies this`sessions, this`generation
      ensures sessions == Without(old(sessions), closed)
      ensures generation == old(generation) + if exists s :: s in old(sessions) && s in closed then 1 else 0
    {
      var dead: seq<Session> := [];
      for i := 0 to |sessions|
        invariant forall s :: s in dead <==> s in sessions[..i] && s in closed
      {
        if sessions[i] in closed {
          dead := dead + [sessions[i]];
        }
      }
      assert sessions[..|sessions|] == sessions;
      if dead == [] {
        WithoutNone(sessions, closed);
        return;
      }
      assert dead[0] in old(sessions) && dead[0] in closed;
      var doomed := Members(dead);
      WithoutSame(sessions, doomed, closed);
      sessions := Without(sessions, doomed);
      generation := generation + 1;
    }

    /** The newest sessions are closed, as many as asked for, and the generation moves on if any was. */
    method Retire()
      modifies this`sessions, this`closed, this`pending, this`generation
      ensures pending == 0
      ensures var kept := if old(pending) < |old(sessions)| then |old(sessions)| - old(pending) else 0;
              && sessions == old(sessions)[..kept]
              && closed == old(closed) + Members(old(sessions)[kept..])
              && generation == old(generation) + if kept < |old(sessions)| then 1 else 0
    {
      var retire := pending;
      pending := 0;
      var retired := 0;
      for n := 0 to retire
        invariant retired == if n < |old(sessions)| then n else |old(sessions)|
        invariant sessions == old(sessions)[..|old(sessions)| - retired]
        invariant closed == old(closed) + Members(old(sessions)[|old(sessions)| - retired..])
        invariant pending == 0 && generation == old(generation)
      {
        if sessions != [] {
          var last := |sessions| - 1;
          assert old(sessions)[last..] == [sessions[last]] + old(sessions)[last + 1..];
          closed := closed + {sessions[last]};
          sessions := sessions[..last];
          retired := retired + 1;
        }
      }
      if retired > 0 {
        generation := generation + 1;
      }
    }

    /** The fields are those of a state of the whole, whatever else runs in it. */
    ghost predicate Shows(s: State)
      reads this
    {
      && sessions == s.sessions && closed == s.closed && pending == s.pending
      && connecting == s.connecting && generation == s.generation
    }

    /** A connect that succeeds delivers its session; it leaves the counter only afterwards. */
    method Connected(index: nat, session: Session, ghost s: State)
      requires Valid() && index < |notBefore|
      requires Shows(s) && Enabled(s, ConnectOk) && session == s.nextSession
      modifies this`sessions, this`notBefore, this`failures
      ensures Valid() && Shows(Next(s, ConnectOk))
      ensures failures == old(failures)[index := 0] && notBefore == old(notBefore)[index := 0]
    {
      failures := failures[index := 0];
      notBefore := notBefore[index := 0];
      sessions := sessions + [session];
    }

    /** One that fails puts its account into back-off. */
    method Failed(index: nat, now: nat, ghost s: State)
      requires Valid() && index < |notBefore| && Shows(s) && Enabled(s, ConnectFailed)
      modifies this`notBefore, this`failures
      ensures Valid() && Shows(Next(s, ConnectFailed))
      ensures failures == old(failures)[index := old(failures)[index] + 1]
      ensures notBefore == old(notBefore)[index := now + Backoff(old(failures)[index] + 1)]
    {
      var count := failures[index] + 1;
      failures := failures[index := count];
      notBefore := notBefore[index := now + Backoff(count)];
    }

    /** The end of a connect, well or badly. */
    method Left(ghost s: State)
      requires Shows(s) && Enabled(s, Leave)
      modifies this`connecting
      ensures Shows(Next(s, Leave))
    {
      connecting := connecting - 1;
    }

    /** A whole reap, undisturbed, is the manager's two steps. */
    method ReapStep(ghost s: State)
      requires Shows(s) && s.at == Idle
      modifies this`sessions, this`generation
      ensures Shows(Next(Next(s, Tick), Remove))
    {
      ReapIsItsSteps(s);
      Reap();
    }

    /** A whole retirement, undisturbed, is the manager's steps from the swap to the end. */
    method RetireStep(accounts: bool, ghost s: State)
      requires Shows(s) && s.at == Reaped
      modifies this`sessions, this`closed, this`pending, this`generation
      ensures var popped := Pops(Next(s, Swap), s.pending);
              Enabled(popped, EndRetire(accounts)) && Shows(Next(popped, EndRetire(accounts)))
    {
      hide Pops, Members;
      RetireIsItsSteps(s, accounts);
      Retire();
    }
  }

  lemma WithoutNone(sessions: seq<Session>, dead: set<Session>)
    requires forall s :: s in sessions ==> s !in dead
    ensures Without(sessions, dead) == sessions
  {
    FilterAll(sessions, (s: Session) => s !in dead);
  }

  lemma WithoutSame(sessions: seq<Session>, dead: set<Session>, closed: set<Session>)
    requires forall s :: s in sessions ==> (s in dead <==> s in closed)
    ensures Without(sessions, dead) == Without(sessions, closed)
  {
    FilterSame(sessions, (s: Session) => s !in dead, (s: Session) => s !in closed);
  }

  // ---------------------------------------------------------------- who is picked

  /**
   * From the `k`-th turn on, the account whose turn comes first of those not in back-off, and the counter
   * past that turn; or none, when all whose turn comes are in back-off, and the counter past all turns.
   */
  ghost predicate FirstInTurn(
    notBefore: seq<nat>, rotate: Rotation.Counter, now: nat, k: nat, picked: Option<nat>, after: Rotation.Counter)
  {
    exists j: nat :: k <= j <= |notBefore| && TurnsUntil(notBefore, rotate, now, k, j, picked, after)
  }

  ghost predicate TurnsUntil(
    notBefore: seq<nat>, rotate: Rotation.Counter, now: nat, k: nat, j: nat, picked: Option<nat>, after: Rotation.Counter)
    requires j <= |notBefore|
  {
    var n := |notBefore|;
    && (forall i: nat :: k <= i < j ==> notBefore[Rotation.Turn(rotate, n, i)] > now)
    && match picked
       case None => j == n && after == Rotation.Plus(rotate, n)
       case Some(account) =>
         && j < n && account == Rotation.Turn(rotate, n, j) && notBefore[account] <= now
         && after == Rotation.Plus(rotate, j + 1)
  }

  lemma {:induction false} PickFromMeaning(notBefore: seq<nat>, rotate: Rotation.Counter, now: nat, k: nat)
    requires k <= |notBefore|
    ensures var picked, n := PickFrom(notBefore, rotate, now, k).account, |notBefore|;
            && (picked.Some? ==> picked.value < n && notBefore[picked.value] <= now)
            && (picked.None? <==> forall j :: k <= j < n ==> notBefore[Rotation.Turn(rotate, n, j)] > now)
    ensures var picked := PickFrom(notBefore, rotate, now, k);
            FirstInTurn(notBefore, rotate, now, k, picked.account, picked.rotate)
    decreases |notBefore| - k
  {
    hide Rotation.Turn, Rotation.Plus;
    var n, p := |notBefore|, PickFrom(notBefore, rotate, now, k);
    if k < n && notBefore[Rotation.Turn(rotate, n, k)] > now {
      var next := k + 1;
      PickFromMeaning(notBefore, rotate, now, next);
      if j: nat :| next <= j <= n && TurnsUntil(notBefore, rotate, now, next, j, p.account, p.rotate) {
        assert TurnsUntil(notBefore, rotate, now, k, j, p.account, p.rotate);
      }
    } else {
      assert TurnsUntil(notBefore, rotate, now, k, k, p.account, p.rotate);
    }
  }

  ghost predicate AllBackedOff(notBefore: seq<nat>, now: nat)
  {
    forall i :: 0 <= i < |notBefore| ==> notBefore[i] > now
  }

  /** An account that is picked is not backed off; and none is picked exactly when all are. */
  lemma PickNoneIff(notBefore: seq<nat>, rotate: Rotation.Counter, now: nat)
    requires 0 < |notBefore| <= Rotation.WRAP && Rotation.Smooth(rotate, |notBefore|)
    ensures var picked := PickFrom(notBefore, rotate, now, 0).account;
            && (picked.Some? ==> picked.value < |notBefore| && notBefore[picked.value] <= now)
            && (picked.None? <==> AllBackedOff(notBefore, now))
  {
    hide Rotation.Turn, Rotation.Plus, Rotation.Smooth;
    var n := |notBefore|;
    PickFromMeaning(notBefore, rotate, now, 0);
    Rotation.FairIff(rotate, n);
    if PickFrom(notBefore, rotate, now, 0).account.None? {
      forall i | 0 <= i < n
        ensures notBefore[i] > now
      {
        assert Rotation.HasTurn(rotate, n, i);
        var k: nat :| k < n && Rotation.Turn(rotate, n, k) == i;
      }
    }
  }

  function OneWaiting(n: nat, waiting: nat, now: nat): (notBefore: seq<nat>)
    ensures |notBefore| == n
  {
    seq(n, i => if i == waiting then now else now + 1)
  }

  /** The condition is exact: a counter that wraps inside the round passes over a waiting account. */
  lemma WrapPassesOver(n: nat, rotate: Rotation.Counter, now: nat)
    requires 0 < n <= Rotation.WRAP && !Rotation.Smooth(rotate, n)
    ensures var notBefore := OneWaiting(n, Rotation.LeftOut(rotate, n), now);
            PickFrom(notBefore, rotate, now, 0).account == None && !AllBackedOff(notBefore, now)
  {
    hide Rotation.Turn, Rotation.Plus;
    var i := Rotation.LeftOut(rotate, n);
    var notBefore := OneWaiting(n, Rotation.LeftOut(rotate, n), now);
    assert notBefore[i] == now;
    PickFromMeaning(notBefore, rotate, now, 0);
    forall k | 0 <= k < n
      ensures notBefore[Rotation.Turn(rotate, n, k)] > now
    {
      Rotation.LeftOutHasNoTurn(rotate, n, k);
    }
  }

  // ---------------------------------------------------------------- everything that runs at once

  /** Where the manager is. */
  datatype At =
    | Idle
    | Reaping(dead: set<Session>)
    | Reaped
    | Retiring(left: nat, retired: nat)
    | Filling
    | SawLive(live: nat)
    | Spawning

  /**
   * `unfinished` connects have neither delivered nor failed, `finishing` ones have but are still in
   * the counter `connecting`; `removed` gives the generation under which a session was removed.
   */
  datatype State = State(
    target: nat, sessions: seq<Session>, closed: set<Session>, nextSession: Session, unfinished: nat, finishing: nat,
    connecting: nat, pending: nat, generation: nat, removed: map<Session, nat>, at: At)

  /** How many connects may be under way at once. */
  const MAX_HANDSHAKES: nat := 8

  datatype Step =
    | Tick | Remove | Swap | Pop | EndRetire(accounts: bool)
    | ReadLive | ReadConnecting | ReadBoth | NoAccount | NoPermit | Spawn
    | ConnectOk | ConnectFailed | Leave
    | Close(session: Session) | Terminate(count: nat)

  function Start(target: nat): State
  {
    State(target, [], {}, 0, 0, 0, 0, 0, 0, map[], Idle)
  }

  predicate Enabled(s: State, step: Step)
  {
    match step
    case Tick => s.at == Idle
    case Remove => s.at.Reaping?
    case Swap => s.at == Reaped
    case Pop => s.at.Retiring? && s.at.left > 0
    case EndRetire(_) => s.at.Retiring? && s.at.left == 0
    case ReadLive => s.at == Filling
    case ReadBoth => s.at == Filling
    case ReadConnecting => s.at.SawLive?
    case NoAccount => s.at == Spawning
    case NoPermit => s.at == Spawning
    case Spawn => s.at == Spawning && s.unfinished < MAX_HANDSHAKES
    case ConnectOk => s.unfinished > 0
    case ConnectFailed => s.unfinished > 0
    case Leave => s.finishing > 0 && s.connecting > 0
    case Close(_) => true
    case Terminate(_) => true
  }

  function Doomed(s: State): set<Session>
  {
    set x | x in s.sessions && x in s.closed
  }

  function Removed(s: State, dead: set<Session>): map<Session, nat>
  {
    s.removed + map x | x in s.sessions && x in dead :: s.generation
  }

  function PopOne(s: State): State
    requires s.at.Retiring? && s.at.left > 0
  {
    if s.sessions == [] then s.(at := Retiring(s.at.left - 1, s.at.retired))
    else
      var n := |s.sessions| - 1;
      var last := s.sessions[n];
      s.(sessions := s.sessions[..n], closed := s.closed + {last}, removed := s.removed[last := s.generation],
         at := Retiring(s.at.left - 1, s.at.retired + 1))
  }

  /** The need for another session is computed from the two counters read. */
  function Decide(s: State, live: nat): State
  {
    s.(at := if s.target <= live + s.connecting then Idle else Spawning)
  }

  function Next(s: State, step: Step): State
    requires Enabled(s, step)
  {
    match step
    case Tick => s.(at := Reaping(Doomed(s)))
    case Remove =>
      var dead := s.at.dead;
      if dead == {} then s.(at := Reaped)
      else s.(sessions := Without(s.sessions, dead), removed := Removed(s, dead), generation := s.generation + 1,
              at := Reaped)
    case Swap => s.(pending := 0, at := Retiring(s.pending, 0))
    case Pop => PopOne(s)
    case EndRetire(accounts) =>
      s.(generation := s.generation + if s.at.retired > 0 then 1 else 0, at := if accounts then Filling else Idle)
    case ReadLive => s.(at := SawLive(|s.sessions|))
    case ReadConnecting => Decide(s, s.at.live)
    case ReadBoth => Decide(s, |s.sessions|)
    case NoAccount => s.(at := Idle)
    case NoPermit => s.(at := Filling)
    case Spawn => s.(connecting := s.connecting + 1, unfinished := s.unfinished + 1, at := Filling)
    case ConnectOk =>
      s.(sessions := s.sessions + [s.nextSession], nextSession := s.nextSession + 1, unfinished := s.unfinished - 1,
         finishing := s.finishing + 1)
    case ConnectFailed => s.(unfinished := s.unfinished - 1, finishing := s.finishing + 1)
    case Leave => s.(finishing := s.finishing - 1, connecting := s.connecting - 1)
    case Close(x) => s.(closed := s.closed + {x})
    case Terminate(count) => s.(pending := s.pending + count)
  }

  /** Undisturbed, looking and removing is what `Manager.Reap` does. */
  lemma ReapIsItsSteps(s: State)
    requires s.at == Idle
    ensures var s' := Next(Next(s, Tick), Remove);
            && s'.sessions == Without(s.sessions, s.closed)
            && s'.generation == s.generation + if exists x :: x in s.sessions && x in s.closed then 1 else 0
  {
    var dead := Doomed(s);
    WithoutSame(s.sessions, dead, s.closed);
    if dead == {} {
      assert forall x :: x in s.sessions && x in s.closed ==> x in dead;
      WithoutNone(s.sessions, s.closed);
    } else {
      var x :| x in dead;
    }
  }

  function Pops(s: State, n: nat): State
    requires s.at.Retiring?
    decreases n
  {
    if n == 0 || s.at.left == 0 then s else Pops(PopOne(s), n - 1)
  }

  /** Undisturbed, taking the request and popping that often is what `Manager.Retire` does. */
  lemma RetireIsItsSteps(s: State, accounts: bool)
    requires s.at == Reaped
    ensures var popped := Pops(Next(s, Swap), s.pending);
            var kept := if s.pending < |s.sessions| then |s.sessions| - s.pending else 0;
            && Enabled(popped, EndRetire(accounts))
            && var s' := Next(popped, EndRetire(accounts));
            && s'.pending == 0 && s'.connecting == s.connecting && s'.sessions == s.sessions[..kept]
            && s'.closed == s.closed + Members(s.sessions[kept..])
            && s'.generation == s.generation + if kept < |s.sessions| then 1 else 0
  {
    PopsMeaning(Next(s, Swap), s.pending);
  }

  /** Requests to close sessions add up until the manager comes to them. */
  lemma TerminationsAddUp(s: State, a: nat, b: nat, accounts: bool)
    requires s.at == Reaped
    ensures var asked, n := Next(Next(s, Terminate(a)), Terminate(b)), s.pending + a + b;
            var popped := Pops(Next(asked, Swap), n);
            var kept := if n < |s.sessions| then |s.sessions| - n else 0;
            && asked.pending == n && Enabled(popped, EndRetire(accounts))
            && Next(popped, EndRetire(accounts)).pending == 0
            && Next(popped, EndRetire(accounts)).sessions == s.sessions[..kept]
  {
    hide Pops;
    RetireIsItsSteps(Next(Next(s, Terminate(a)), Terminate(b)), accounts);
  }

  lemma {:induction false} PopsMeaning(s: State, n: nat)
    requires s.at.Retiring? && s.at.left == n
    ensures var gone := if n < |s.sessions| then n else |s.sessions|;
            var kept := |s.sessions| - gone;
            var s' := Pops(s, n);
            && s'.at == Retiring(0, s.at.retired + gone) && s'.sessions == s.sessions[..kept]
            && s'.closed == s.closed + Members(s.sessions[kept..])
            && s'.generation == s.generation && s'.pending == s.pending && s'.connecting == s.connecting
    decreases n
  {
    hide Members, Removed, Without, Doomed;
    if n > 0 {
      PopsMeaning(PopOne(s), n - 1);
      if s.sessions != [] { KeptAndLast(s.sessions, if n < |s.sessions| then |s.sessions| - n else 0); }
    } else {
      assert Members(s.sessions[|s.sessions|..]) == {} by { assert s.sessions[|s.sessions|..] == []; NoMembers(); }
      assert s.sessions[..|s.sessions|] == s.sessions;
    }
    if s.sessions == [] { NoMembers(); }
  }

  lemma NoMembers()
    ensures Members([]) == {}
  {
  }

  lemma KeptAndLast(sessions: seq<Session>, kept: nat)
    requires kept < |sessions|
    ensures var last := |sessions| - 1;
            && sessions[..last][..kept] == sessions[..kept]
            && Members(sessions[kept..]) == Members(sessions[..last][kept..]) + {sessions[last]}
  {
    var last := |sessions| - 1;
    assert sessions[kept..] == sessions[..last][kept..] + [sessions[last]];
  }

  function Load(s: State): nat
  {
    |s.sessions| + s.unfinished
  }

  // ---------------------------------------------------------------- counters and generations

  /** The counter counts the connects that have not left it. */
  predicate Counted(s: State)
  {
    s.connecting == s.unfinished + s.finishing
  }

  /** A removed session was removed under an earlier generation, or under this one by the batch at work. */
  predicate Outdated(s: State, x: Session)
    requires x in s.removed
  {
    s.removed[x] < s.generation || (s.removed[x] == s.generation && s.at.Retiring? && s.at.retired > 0)
  }

  ghost predicate Distinct(sessions: seq<Session>)
  {
    forall i, j :: 0 <= i < j < |sessions| ==> sessions[i] != sessions[j]
  }

  ghost predicate Generations(s: State)
  {
    && Distinct(s.sessions)
    && (forall x :: x in s.sessions ==> x < s.nextSession && x !in s.removed)
    && (forall x :: x in s.removed ==> x < s.nextSession && Outdated(s, x))
  }

  lemma CountedKept(s: State, step: Step)
    requires Counted(s) && Enabled(s, step)
    ensures Counted(Next(s, step))
  {
  }

  lemma WithoutDistinct(sessions: seq<Session>, dead: set<Session>)
    requires Distinct(sessions)
    ensures Distinct(Without(sessions, dead))
  {
    var apart := (x: Session, y: Session) => x != y;
    assert Apart(sessions, apart);
    FilterKeepsApart(sessions, (s: Session) => s !in dead, apart);
    var rest := Without(sessions, dead);
    assert forall i, j :: 0 <= i < j < |rest| ==> apart(rest[i], rest[j]);
  }

  lemma RemoveKept(s: State)
    requires Generations(s) && s.at.Reaping?
    ensures Generations(Next(s, Remove))
  {
    WithoutDistinct(s.sessions, s.at.dead);
    var s' := Next(s, Remove);
    forall x | x in s'.removed
      ensures x < s'.nextSession && Outdated(s', x)
    {
      if x in s.removed { assert Outdated(s, x); }
    }
  }

  lemma PopKept(s: State)
    requires Generations(s) && Enabled(s, Pop)
    ensures Generations(Next(s, Pop))
  {
    var s' := Next(s, Pop);
    if s.sessions != [] {
      var n := |s.sessions| - 1;
      assert s.sessions[n] in s.sessions;
      forall x | x in s'.sessions
        ensures x < s'.nextSession && x !in s'.removed
      {
        var i :| 0 <= i < n && s.sessions[i] == x;
        assert x in s.sessions && x != s.sessions[n];
      }
      forall x | x in s'.removed
        ensures x < s'.nextSession && Outdated(s', x)
      {
        if x in s.removed { assert Outdated(s, x); }
      }
    }
  }

  lemma ConnectOkKept(s: State)
    requires Generations(s) && s.unfinished > 0
    ensures Generations(Next(s, ConnectOk))
  {
    var s' := Next(s, ConnectOk);
    forall x | x in s'.removed
      ensures x < s'.nextSession && Outdated(s', x)
    {
      assert Outdated(s, x);
    }
    forall i, j | 0 <= i < j < |s'.sessions|
      ensures s'.sessions[i] != s'.sessions[j]
    {
      assert s.sessions[i] in s.sessions;
    }
  }

  /** The generation never goes back, and moves on with every batch that removes a session. */
  lemma GenerationsKept(s: State, step: Step)
    requires Generations(s) && Enabled(s, step)
    ensures Generations(Next(s, step)) && Next(s, step).generation >= s.generation
  {
    match step
    case Remove => RemoveKept(s);
    case Pop => PopKept(s);
    case ConnectOk => ConnectOkKept(s);
    case _ =>
      assert Next(s, step).sessions == s.sessions;
      var s' := Next(s, step);
      forall x | x in s'.removed
        ensures x < s'.nextSession && Outdated(s', x)
      {
        assert Outdated(s, x);
      }
  }

  // ---------------------------------------------------------------- runs

  ghost predicate Reaches(from: State, s: State, steps: seq<Step>)
    decreases |steps|
  {
    if steps == [] then s == from
    else
      var n := |steps| - 1;
      exists before: State :: Reaches(from, before, steps[..n]) && Enabled(before, steps[n]) && s == Next(before, steps[n])
  }

  ghost predicate Reachable(target: nat, s: State, steps: seq<Step>)
  {
    Reaches(Start(target), s, steps)
  }

  /** In every run a session once removed is gone for good, under a generation that is then over. */
  lemma {:induction false} RunsKeepGenerations(target: nat, s: State, steps: seq<Step>)
    requires Reachable(target, s, steps)
    ensures Counted(s) && Generations(s)
    decreases |steps|
  {
    hide Next, Generations;
    if steps == [] {
      StartGenerations(target);
    } else {
      var n := |steps| - 1;
      var before: State :|
        Reaches(Start(target), before, steps[..n]) && Enabled(before, steps[n]) && s == Next(before, steps[n]);
      RunsKeepGenerations(target, before, steps[..n]);
      CountedKept(before, steps[n]);
      GenerationsKept(before, steps[n]);
    }
  }

  lemma StartGenerations(target: nat)
    ensures Counted(Start(target)) && Generations(Start(target))
  {
  }

  /** A session of an earlier state is still there, or was removed under a generation not before that state's. */
  ghost predicate Accounted(from: State, s: State)
  {
    && from.generation <= s.generation
    && forall x :: x in from.sessions ==> x in s.sessions || (x in s.removed && s.removed[x] >= from.generation)
  }

  lemma StepAccounts(from: State, s: State, step: Step)
    requires Accounted(from, s) && Enabled(s, step)
    requires forall x :: x in s.sessions ==> x !in s.removed
    ensures Accounted(from, Next(s, step))
  {
    var s' := Next(s, step);
    forall x | x in from.sessions
      ensures x in s'.sessions || (x in s'.removed && s'.removed[x] >= from.generation)
    {
      if step.Pop? && s.sessions != [] && x in s.sessions {
        var i :| 0 <= i < |s.sessions| && s.sessions[i] == x;
        assert i < |s.sessions| - 1 ==> s'.sessions[i] == x;
      } else if step.ConnectOk? && x in s.sessions {
        assert x in s'.sessions;
      }
    }
  }

  lemma {:induction false} RunsAccount(target: nat, from: State, steps: seq<Step>, s: State, more: seq<Step>)
    requires Reachable(target, from, steps) && Reaches(from, s, more)
    ensures Counted(s) && Generations(s) && Accounted(from, s)
    decreases |more|
  {
    hide Next, Generations, Reachable;
    RunsKeepGenerations(target, from, steps);
    if more != [] {
      var n := |more| - 1;
      var before: State :| Reaches(from, before, more[..n]) && Enabled(before, more[n]) && s == Next(before, more[n]);
      RunsAccount(target, from, steps, before, more[..n]);
      CountedKept(before, more[n]);
      GenerationsKept(before, more[n]);
      SessionsNotRemoved(before);
      StepAccounts(from, before, more[n]);
    }
  }

  lemma SessionsNotRemoved(s: State)
    requires Generations(s)
    ensures forall x :: x in s.sessions ==> x !in s.removed
  {
  }

  /** As long as the generation is the same, and no batch is at work, no session has been removed. */
  lemma SameGenerationKeepsSessions(target: nat, from: State, steps: seq<Step>, s: State, more: seq<Step>)
    requires Reachable(target, from, steps) && Reaches(from, s, more)
    requires s.generation == from.generation && !s.at.Retiring?
    ensures forall x :: x in from.sessions ==> x in s.sessions
  {
    RunsAccount(target, from, steps, s, more);
    assert forall x :: x in s.removed ==> Outdated(s, x);
  }

  // ---------------------------------------------------------------- the bound, both counters read at once

  predicate AtMostTarget(s: State)
  {
    && Load(s) <= s.target
    && (s.at == Spawning ==> Load(s) < s.target)
    && !s.at.SawLive?
  }

  lemma StepAtMostTarget(s: State, step: Step)
    requires AtMostTarget(s) && Counted(s) && Enabled(s, step) && step != ReadLive
    ensures AtMostTarget(Next(s, step))
  {
  }

  /** In every run that reads the two counters in one step. */
  lemma {:induction false} NeverAboveTarget(target: nat, s: State, steps: seq<Step>)
    requires Reachable(target, s, steps) && ReadLive !in steps
    ensures AtMostTarget(s) && s.target == target
    decreases |steps|
  {
    hide Next, AtMostTarget;
    if steps == [] {
      assert AtMostTarget(Start(target)) by { StartAtMost(target); }
    } else {
      var n := |steps| - 1;
      var before: State :|
        Reaches(Start(target), before, steps[..n]) && Enabled(before, steps[n]) && s == Next(before, steps[n]);
      NeverAboveTarget(target, before, steps[..n]);
      RunsKeepGenerations(target, before, steps[..n]);
      StepAtMostTarget(before, steps[n]);
      TargetKept(before, steps[n]);
    }
  }

  lemma StartAtMost(target: nat)
    ensures AtMostTarget(Start(target))
  {
  }

  lemma TargetKept(s: State, step: Step)
    requires Enabled(s, step)
    ensures Next(s, step).target == s.target
  {
  }

  // ---------------------------------------------------------------- the bound, one counter after the other

  /** The sum of the numbers below `n`. */
  function Below(n: nat): nat
  {
    if n == 0 then 0 else Below(n - 1) + (n - 1)
  }

  lemma {:induction false} BelowGrows(m: nat, n: nat)
    requires m <= n
    ensures Below(m) <= Below(n)
  {
    if m < n { BelowGrows(m, n - 1); }
  }

  function Excess(s: State): nat
  {
    if Load(s) > s.target then Load(s) - s.target else 0
  }

  /** How many connects can be under way for this target. */
  function Cap(target: nat): nat
  {
    if target < MAX_HANDSHAKES then target else MAX_HANDSHAKES
  }

  /** Each session above the target costs more connects that end between the two reads than the one before. */
  predicate Overshoot(s: State)
  {
    var e, cap := Excess(s), Cap(s.target);
    && s.unfinished + Below(e) <= cap
    && (e > 0 ==> Below(e) < cap)
    && (s.at.SawLive? ==> s.at.live <= |s.sessions| && s.unfinished + (|s.sessions| - s.at.live) + Below(e) <= cap)
    && (s.at == Spawning ==>
          && s.unfinished + 1 + Below(e + 1) <= s.target
          && (Load(s) >= s.target ==> s.unfinished + 1 + Below(e + 1) <= cap))
  }

  lemma StepOvershoot(s: State, step: Step)
    requires Overshoot(s) && Counted(s) && Enabled(s, step)
    ensures Overshoot(Next(s, step))
  {
    BelowGrows(Excess(Next(s, step)), if Excess(s) < Excess(Next(s, step)) then Excess(Next(s, step)) else Excess(s));
  }

  lemma {:induction false} OvershootKept(target: nat, s: State, steps: seq<Step>)
    requires Reachable(target, s, steps)
    ensures Overshoot(s) && s.target == target
    decreases |steps|
  {
    hide Next, Overshoot;
    if steps == [] {
      assert Overshoot(Start(target)) by { StartOvershoot(target); }
    } else {
      var n := |steps| - 1;
      var before: State :|
        Reaches(Start(target), before, steps[..n]) && Enabled(before, steps[n]) && s == Next(before, steps[n]);
      OvershootKept(target, before, steps[..n]);
      RunsKeepGenerations(target, before, steps[..n]);
      StepOvershoot(before, steps[n]);
      TargetKept(before, steps[n]);
    }
  }

  lemma StartOvershoot(target: nat)
    ensures Overshoot(Start(target))
  {
  }

  /** In every run: with `e` above the target, the sum of the numbers below `e` is less than target and permits. */
  lemma OvershootBounded(target: nat, s: State, steps: seq<Step>)
    requires Reachable(target, s, steps) && Load(s) > target
    ensures Below(Load(s) - target) < target && Below(Load(s) - target) < MAX_HANDSHAKES
    ensures Load(s) <= target + 4
  {
    OvershootKept(target, s, steps);
    assert Below(5) == 10;
    if Load(s) >= target + 5 { BelowGrows(5, Load(s) - target); }
  }

  // ---------------------------------------------------------------- how far it goes above

  lemma Extend(target: nat, s: State, steps: seq<Step>, step: Step)
    requires Reachable(target, s, steps) && Enabled(s, step)
    ensures Reachable(target, Next(s, step), steps + [step])
  {
    hide Next, Enabled;
    assert (steps + [step])[..|steps|] == steps;
  }

  /** The manager is about to fill, with so many sessions and connects, none of them finishing. */
  predicate AboutToFill(s: State, target: nat, live: nat, unfinished: nat)
  {
    && s.target == target && s.at == Filling
    && |s.sessions| == live && s.unfinished == s.connecting == unfinished && s.finishing == 0
  }

  lemma Begin(target: nat) returns (s: State, steps: seq<Step>)
    ensures Reachable(target, s, steps) && AboutToFill(s, target, 0, 0)
  {
    s, steps := Start(target), [];
    Extend(target, s, steps, Tick);
    s, steps := Next(s, Tick), steps + [Tick];
    Extend(target, s, steps, Remove);
    s, steps := Next(s, Remove), steps + [Remove];
    Extend(target, s, steps, Swap);
    s, steps := Next(s, Swap), steps + [Swap];
    Extend(target, s, steps, EndRetire(true));
    s, steps := Next(s, EndRetire(true)), steps + [EndRetire(true)];
  }

  /** Connects that succeed and leave, `n` of them, wherever the manager is. */
  lemma {:induction false} Finish(target: nat, s: State, steps: seq<Step>, n: nat) returns (s': State, steps': seq<Step>)
    requires Reachable(target, s, steps) && n <= s.unfinished <= s.connecting
    ensures Reachable(target, s', steps') && s'.target == s.target && s'.at == s.at && s'.finishing == s.finishing
    ensures |s'.sessions| == |s.sessions| + n && s'.unfinished == s.unfinished - n && s'.connecting == s.connecting - n
  {
    s', steps' := s, steps;
    if n > 0 {
      s', steps' := Finish(target, s, steps, n - 1);
      hide Reachable;
      Extend(target, s', steps', ConnectOk);
      s', steps' := Next(s', ConnectOk), steps' + [ConnectOk];
      Extend(target, s', steps', Leave);
      s', steps' := Next(s', Leave), steps' + [Leave];
    }
  }

  /**
   * One more connect, `n` of those under way having finished between the two reads: the load grows by
   * one, whatever it was, when the counters as read add up to less than the target.
   */
  lemma Raise(target: nat, s: State, steps: seq<Step>, live: nat, unfinished: nat, n: nat)
    returns (s': State, steps': seq<Step>)
    requires Reachable(target, s, steps) && AboutToFill(s, target, live, unfinished)
    requires n <= unfinished && unfinished - n < MAX_HANDSHAKES && live + (unfinished - n) < target
    ensures Reachable(target, s', steps') && AboutToFill(s', target, live + n, unfinished - n + 1)
  {
    hide Reachable;
    Extend(target, s, steps, ReadLive);
    s', steps' := Finish(target, Next(s, ReadLive), steps + [ReadLive], n);
    Extend(target, s', steps', ReadConnecting);
    s', steps' := Next(s', ReadConnecting), steps' + [ReadConnecting];
    Extend(target, s', steps', Spawn);
    s', steps' := Next(s', Spawn), steps' + [Spawn];
  }

  /** The target can be reached with `live` sessions connected and all others under way. */
  lemma {:induction false} Fill(target: nat, live: nat, unfinished: nat) returns (s: State, steps: seq<Step>)
    requires live + unfinished <= target && unfinished <= MAX_HANDSHAKES
    ensures Reachable(target, s, steps) && AboutToFill(s, target, live, unfinished)
    decreases live + unfinished, live
  {
    hide Reachable;
    if unfinished > 0 {
      s, steps := Fill(target, live, unfinished - 1);
      s, steps := Raise(target, s, steps, live, unfinished - 1, 0);
    } else if live > 0 {
      s, steps := Fill(target, live - 1, 0);
      s, steps := Raise(target, s, steps, live - 1, 0, 0);
      s, steps := Finish(target, s, steps, 1);
    } else {
      s, steps := Begin(target);
    }
  }

  /** Going `e` above the target leaves the sum of the numbers below `e` fewer connects under way. */
  lemma {:induction false} GoAbove(target: nat, e: nat) returns (s: State, steps: seq<Step>)
    requires e == 0 || Below(e) < Cap(target)
    ensures Below(e) <= Cap(target)
    ensures Reachable(target, s, steps)
    ensures AboutToFill(s, target, target + e - (Cap(target) - Below(e)), Cap(target) - Below(e))
  {
    hide Reachable;
    if e == 0 {
      s, steps := Fill(target, target - Cap(target), Cap(target));
    } else {
      BelowGrows(e - 1, e);
      s, steps := GoAbove(target, e - 1);
      var unfinished := Cap(target) - Below(e - 1);
      s, steps := Raise(target, s, steps, target + (e - 1) - unfinished, unfinished, e);
    }
  }

  ghost predicate Reached(target: nat, load: nat)
  {
    exists s: State, steps: seq<Step> :: Reachable(target, s, steps) && Load(s) == load
  }

  /**
   * With the two counters read one after the other, the load can come to stand `e` above the target
   * exactly when the sum of the numbers below `e` is less than the target and less than the permits.
   */
  lemma OvershootIff(target: nat, e: nat)
    ensures Reached(target, target + e) <==> e == 0 || (Below(e) < target && Below(e) < MAX_HANDSHAKES)
  {
    hide Reachable, Below;
    if Reached(target, target + e) && e > 0 {
      var s: State, steps: seq<Step> :| Reachable(target, s, steps) && Load(s) == target + e;
      OvershootBounded(target, s, steps);
    }
    if e == 0 || (Below(e) < target && Below(e) < MAX_HANDSHAKES) {
      var s, steps := GoAbove(target, e);
      assert Load(s) == target + e;
    }
  }
}
