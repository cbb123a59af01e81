/** The cache of upstream clients over the VPN accounts, keyed by account and checked by generation. */
module ClientCache {
  import opened Options
  import opened VpnAccount

  /** A client that was built for a port, under the generation then read. */
  datatype Client = Client(port: nat)

  datatype Cached = Cached(generation: nat, client: Client)

  datatype Found = Hit(client: Client) | Built(client: Client) | NoUpstream

  datatype Lookup = Lookup(found: Found, clients: map<nat, Cached>)

  /** With the generation read first, and the port as it is when the cache is consulted. */
  function Find(clients: map<nat, Cached>, key: nat, generation: nat, port: nat): Lookup
  {
    if key in clients && clients[key].generation == generation then Lookup(Hit(clients[key].client), clients)
    else if port == 0 then Lookup(NoUpstream, clients)
    else Lookup(Built(Client(port)), clients[key := Cached(generation, Client(port))])
  }

  class Cache {
    var clients: map<nat, Cached>

    constructor ()
      ensures clients == map[]
    {
      clients := map[];
    }

    /** `generation` has been read before; the published address is asked for only on a miss. */
    method GetClient(key: nat, generation: nat, account: Account) returns (found: Found)
      modifies this
      ensures Lookup(found, clients) == Find(old(clients), key, generation, account.Value().port)
    {
      if key in clients && clients[key].generation == generation {
        return Hit(clients[key].client);
      }
      var url := account.ProxyUrl();
      if url.None? {
        return NoUpstream;
      }
      var client := Client(url.value);
      clients := clients[key := Cached(generation, client)];
      return Built(client);
    }

    method Evict(key: nat)
      modifies this
      ensures clients == old(clients) - {key} && key !in clients
      ensures forall k :: k != key ==> (k in clients <==> k in old(clients))
      ensures forall k :: k in clients ==> clients[k] == old(clients)[k]
    {
      clients := clients - {key};
    }
  }

  // ---------------------------------------------------------------- accounts and lookups, interleaved

  /** A lookup that has read its account's generation. */
  datatype Asked = Asked(key: nat, generation: nat)

  datatype System = System(worlds: seq<World>, clients: map<nat, Cached>, asked: map<nat, Asked>)

  datatype Event =
    | At(key: nat, step: Step)
    | Ask(id: nat, key: nat)
    | Finish(id: nat)
    | Evict(key: nat)

  function Start(accounts: nat): System
  {
    System(seq(accounts, _ => START), map[], map[])
  }

  predicate Possible(s: System, event: Event)
  {
    match event
    case At(key, step) => key < |s.worlds| && Enabled(s.worlds[key], step)
    case Ask(id, key) => key < |s.worlds|
    case Finish(id) => id in s.asked && s.asked[id].key < |s.worlds|
    case Evict(key) => true
  }

  function Result(s: System, id: nat): Lookup
    requires Possible(s, Finish(id))
  {
    var asked := s.asked[id];
    Find(s.clients, asked.key, asked.generation, s.worlds[asked.key].account.port)
  }

  function After(s: System, event: Event): System
    requires Possible(s, event)
  {
    match event
    case At(key, step) => s.(worlds := s.worlds[key := Next(s.worlds[key], step)])
    case Ask(id, key) => s.(asked := s.asked[id := Asked(key, s.worlds[key].account.generation)])
    case Finish(id) => s.(clients := Result(s, id).clients, asked := s.asked - {id})
    case Evict(key) => s.(clients := s.clients - {key})
  }

  /** An entry under the account's present generation is for the account's present port. */
  predicate EntryOk(cached: Cached, account: State)
  {
    && cached.generation <= account.generation
    && (cached.generation == account.generation ==> cached.client.port == account.port != 0)
  }

  ghost predicate Coherent(s: System)
  {
    && (forall k :: 0 <= k < |s.worlds| ==> Invariant(s.worlds[k]))
    && (forall k :: k in s.clients ==> k < |s.worlds| && EntryOk(s.clients[k], s.worlds[k].account))
    && (forall id :: id in s.asked ==>
         s.asked[id].key < |s.worlds| && s.asked[id].generation <= s.worlds[s.asked[id].key].account.generation)
  }

  lemma StartCoherent(accounts: nat)
    ensures Coherent(Start(accounts))
  {
    StartHolds();
  }

  /** A step of an account keeps its generation only if it keeps a published port. */
  lemma StepKeepsEntries(w: World, step: Step)
    requires Invariant(w) && Enabled(w, step)
    ensures var a, b := w.account, Next(w, step).account;
            a.generation <= b.generation && (a.generation == b.generation && a.port != 0 ==> b.port == a.port)
  {
    hide Backoff, IdleExpired;
    if step.Dropped? || step.Opened? { StepKeeps(w, step); }
  }

  lemma AccountStepKeeps(s: System, key: nat, step: Step)
    requires Coherent(s) && Possible(s, At(key, step))
    ensures Coherent(After(s, At(key, step)))
  {
    hide Next, Invariant, Enabled;
    StepKeeps(s.worlds[key], step);
    StepKeepsEntries(s.worlds[key], step);
  }

  lemma EventKeeps(s: System, event: Event)
    requires Coherent(s) && Possible(s, event)
    ensures Coherent(After(s, event))
  {
    hide Next, Invariant, Enabled;
    if event.At? { AccountStepKeeps(s, event.key, event.step); }
  }

  ghost predicate Reachable(accounts: nat, s: System, events: seq<Event>)
    decreases |events|
  {
    if events == [] then s == Start(accounts)
    else
      var n := |events| - 1;
      exists before: System ::
        Reachable(accounts, before, events[..n]) && Possible(before, events[n]) && s == After(before, events[n])
  }

  lemma {:induction false} RunsCoherent(accounts: nat, s: System, events: seq<Event>)
    requires Reachable(accounts, s, events)
    ensures Coherent(s)
    decreases |events|
  {
    hide After, Coherent, Possible;
    if events == [] {
      StartCoherent(accounts);
    } else {
      var n := |events| - 1;
      var before: System :|
        Reachable(accounts, before, events[..n]) && Possible(before, events[n]) && s == After(before, events[n]);
      RunsCoherent(accounts, before, events[..n]);
      EventKeeps(before, events[n]);
    }
  }

  /**
   * In every run a lookup whose account has not changed generation since it asked gets a client for
   * the address the account now publishes, or none when there is no tunnel.
   */
  lemma LookupIsCurrent(accounts: nat, s: System, events: seq<Event>, id: nat)
    requires Reachable(accounts, s, events) && id in s.asked
    requires s.asked[id].key < |s.worlds| && s.asked[id].generation == s.worlds[s.asked[id].key].account.generation
    ensures var account, found := s.worlds[s.asked[id].key].account, Result(s, id).found;
            && (found.NoUpstream? <==> account.slot.None?)
            && (found.Hit? || found.Built? ==> account.ready && found.client == Client(account.port))
  {
    RunsCoherent(accounts, s, events);
  }

  /** Asking and finishing at once: a hit is always for the current address. */
  lemma HitIsCurrent(accounts: nat, s: System, events: seq<Event>, id: nat, key: nat)
    requires Reachable(accounts, s, events) && key < |s.worlds|
    ensures var account, found := s.worlds[key].account, Result(After(s, Ask(id, key)), id).found;
            && (found.NoUpstream? <==> account.slot.None?)
            && (found.Hit? || found.Built? ==> account.ready && found.client == Client(account.port))
  {
    RunsCoherent(accounts, s, events);
  }

  // ---------------------------------------------------------------- what is kept and what is not

  /** What one lookup built the next one gets, as long as the generation stays. */
  lemma BuiltIsKept(clients: map<nat, Cached>, key: nat, generation: nat, port: nat, later: nat)
    ensures match Find(clients, key, generation, port)
            case Lookup(Built(client), after) =>
              client == Client(port) && Find(after, key, generation, later) == Lookup(Hit(client), after)
            case Lookup(Hit(client), after) => after == clients && key in clients && client == clients[key].client
            case Lookup(NoUpstream, after) => after == clients && port == 0
  {
  }

  ghost predicate Leads(from: System, s: System, events: seq<Event>)
    decreases |events|
  {
    if events == [] then s == from
    else
      var n := |events| - 1;
      exists before: System ::
        Leads(from, before, events[..n]) && Possible(before, events[n]) && s == After(before, events[n])
  }

  /** A lookup of this account ends with the `k`-th of the events. */
  ghost predicate Looks(from: System, events: seq<Event>, k: nat, key: nat)
    requires k < |events|
  {
    events[k].Finish? && exists s: System :: Leads(from, s, events[..k]) && events[k].id in s.asked && s.asked[events[k].id].key == key
  }

  /** Evicted, an account has no client until a lookup of it ends: whatever happens, no lookup hits before. */
  lemma {:induction false} EvictedIsNotHit(from: System, key: nat, s: System, events: seq<Event>, generation: nat, port: nat)
    requires Leads(After(from, Evict(key)), s, events)
    requires forall k :: 0 <= k < |events| ==> !Looks(After(from, Evict(key)), events, k, key)
    ensures key !in s.clients && !Find(s.clients, key, generation, port).found.Hit?
    decreases |events|
  {
    if events != [] {
      hide Looks, Next, Enabled;
      var start, n := After(from, Evict(key)), |events| - 1;
      var before: System :| Leads(start, before, events[..n]) && Possible(before, events[n]) && s == After(before, events[n]);
      forall k | 0 <= k < n
        ensures !Looks(start, events[..n], k, key)
      {
        LooksSame(start, events, k, key);
      }
      EvictedIsNotHit(from, key, before, events[..n], generation, port);
      if events[n].Finish? && before.asked[events[n].id].key == key { LooksLast(start, before, events, key); }
    }
  }

  lemma LooksSame(from: System, events: seq<Event>, k: nat, key: nat)
    requires k < |events| - 1
    ensures Looks(from, events, k, key) <==> Looks(from, events[..|events| - 1], k, key)
  {
    hide Leads;
    assert events[..|events| - 1][..k] == events[..k];
  }

  lemma LooksLast(from: System, s: System, events: seq<Event>, key: nat)
    requires events != [] && Leads(from, s, events[..|events| - 1])
    requires var last := events[|events| - 1];
             last.Finish? && last.id in s.asked && s.asked[last.id].key == key
    ensures Looks(from, events, |events| - 1, key)
  {
    hide Leads;
  }

  // ---------------------------------------------------------------- inside a reap

  /** A reap's stores, in two parts: first the flag and the generation, then the port and the slot. */
  function FirstStores(a: State): State
  {
    a.(ready := false, generation := a.generation + 1)
  }

  function LastStores(a: State): State
  {
    a.(port := 0, slot := None)
  }

  lemma ReapIsItsStores(a: State, now: Instant, timeout: nat)
    requires a.slot.Some? && IdleExpired(a.slot.value, now, timeout)
    ensures Reap(a, now, timeout) == LastStores(FirstStores(a))
  {
  }

  /** Before the reap, between its two parts, after it, and after the tunnel has come up again. */
  datatype Stage = Before | Between | Closed | Again

  function Rank(stage: Stage): nat
  {
    match stage
    case Before => 0
    case Between => 1
    case Closed => 2
    case Again => 3
  }

  /** What a lookup reads of the account in each of these intervals. */
  function During(a: State, later: Instant, port: nat, stage: Stage): State
  {
    match stage
    case Before => a
    case Between => FirstStores(a)
    case Closed => LastStores(FirstStores(a))
    case Again => Live(LastStores(FirstStores(a)), later, Up(port)).after
  }

  /**
   * A lookup that reads the generation in one interval and the port in the same or a later one. The
   * next lookup, once the tunnel is up again on another port, gets a client for the bridge of the
   * dropped tunnel exactly when both were read between the store of the generation and the store of
   * the port, since coming up does not change the generation. In all other cases it gets one for the
   * new bridge.
   */
  lemma StaleIff(
    a: State, clients: map<nat, Cached>, key: nat, now: Instant, timeout: nat, later: Instant, port: nat,
    asked: Stage, finished: Stage)
    requires a.slot.Some? && a.port != 0 && IdleExpired(a.slot.value, now, timeout)
    requires key in clients ==> EntryOk(clients[key], a)
    requires port != 0 && port != a.port && later >= a.notBefore && Rank(asked) <= Rank(finished)
    ensures During(a, later, port, Closed) == Reap(a, now, timeout)
    ensures var first := Find(clients, key, During(a, later, port, asked).generation, During(a, later, port, finished).port);
            var again := During(a, later, port, Again);
            var next := Find(first.clients, key, again.generation, again.port).found;
            && (next == Hit(Client(a.port)) <==> asked == Between && finished == Between)
            && (!(asked == Between && finished == Between) ==> next == Built(Client(port)) || next == Hit(Client(port)))
  {
    hide IdleExpired;
    ReapIsItsStores(a, now, timeout);
    match asked {
      case Before =>
      case Between =>
      case Closed =>
      case Again =>
    }
  }
}
