/** Sending a request through one upstream after another until one answers. */
module Upstream {
  import opened Options

  const MAX_ATTEMPTS: nat := 6

  datatype Candidate = Candidate(key: nat, ready: bool)

  // ---------------------------------------------------------------- choosing a candidate

  function Untried(candidates: seq<Candidate>, skip: seq<nat>): seq<Candidate>
  {
    if candidates == [] then []
    else (if candidates[0].key in skip then [] else [candidates[0]]) + Untried(candidates[1..], skip)
  }

  /** Those to choose from: the untried ones, or all once every one has been tried. */
  function Eligible(candidates: seq<Candidate>, skip: seq<nat>): seq<Candidate>
  {
    var untried := Untried(candidates, skip);
    if untried == [] then candidates else untried
  }

  predicate NoneReady(candidates: seq<Candidate>)
  {
    forall k :: 0 <= k < |candidates| ==> !candidates[k].ready
  }

  /** The place of the first ready candidate, or the length. */
  function FirstReady(candidates: seq<Candidate>): (i: nat)
    ensures i <= |candidates| && NoneReady(candidates[..i]) && (i < |candidates| ==> candidates[i].ready)
  {
    if candidates == [] || candidates[0].ready then 0 else 1 + FirstReady(candidates[1..])
  }

  /** The pool is asked again and again until the deadline; `polls` are its answers. */
  function Choice(polls: seq<seq<Candidate>>, skip: seq<nat>): Option<Candidate>
  {
    if polls == [] || polls[0] == [] then None
    else
      var pool := Eligible(polls[0], skip);
      var i := FirstReady(pool);
      if i < |pool| then Some(pool[i]) else Choice(polls[1..], skip)
  }

  /** Some candidate has not been tried. */
  predicate Fresh(candidates: seq<Candidate>, skip: seq<nat>)
  {
    exists k :: 0 <= k < |candidates| && candidates[k].key !in skip
  }

  /** The `k`-th candidate could serve: it is ready, and untried if any is. */
  predicate Serves(candidates: seq<Candidate>, skip: seq<nat>, k: nat)
    requires k < |candidates|
  {
    candidates[k].ready && (Fresh(candidates, skip) ==> candidates[k].key !in skip)
  }

  /** The pool cannot serve yet: it has candidates, but none of them could. */
  predicate NotYet(candidates: seq<Candidate>, skip: seq<nat>)
  {
    candidates != [] && forall k :: 0 <= k < |candidates| ==> !Serves(candidates, skip, k)
  }

  /** The `k`-th candidate is the first, in the pool's order, that could serve. */
  predicate FirstToServe(candidates: seq<Candidate>, skip: seq<nat>, k: nat)
  {
    k < |candidates| && Serves(candidates, skip, k) && forall i :: 0 <= i < k ==> !Serves(candidates, skip, i)
  }

  /** It is the first poll with someone to serve that decides, for the first of them in the pool's order. */
  predicate Decides(polls: seq<seq<Candidate>>, skip: seq<nat>, p: nat, c: Candidate)
  {
    && p < |polls| && (forall q :: 0 <= q < p ==> NotYet(polls[q], skip))
    && exists k :: 0 <= k < |polls[p]| && FirstToServe(polls[p], skip, k) && c == polls[p][k]
  }

  /** No poll decides: they all come too early, or the pool is empty before one does. */
  predicate NoneDecides(polls: seq<seq<Candidate>>, skip: seq<nat>, p: nat)
  {
    && p <= |polls| && (forall q :: 0 <= q < p ==> NotYet(polls[q], skip))
    && (p < |polls| ==> polls[p] == [])
  }

  lemma FirstReadyAfter(head: Candidate, rest: seq<Candidate>)
    ensures FirstReady([head] + rest) == if head.ready then 0 else 1 + FirstReady(rest)
    ensures forall i :: 0 <= i < |rest| ==> ([head] + rest)[i + 1] == rest[i]
  {
    assert ([head] + rest)[1..] == rest;
  }

  /** The first that is ready and untried, or the length. */
  ghost predicate ReadyUntried(candidates: seq<Candidate>, skip: seq<nat>, k: nat)
  {
    && k <= |candidates| && (k < |candidates| ==> candidates[k].ready && candidates[k].key !in skip)
    && forall m :: 0 <= m < k ==> candidates[m].ready ==> candidates[m].key in skip
  }

  lemma ReadyUntriedLater(candidates: seq<Candidate>, skip: seq<nat>, k: nat)
    requires candidates != [] && ReadyUntried(candidates[1..], skip, k)
    requires candidates[0].ready ==> candidates[0].key in skip
    ensures ReadyUntried(candidates, skip, k + 1)
  {
    forall m | 0 <= m < k + 1
      ensures candidates[m].ready ==> candidates[m].key in skip
    {
      if m > 0 { assert candidates[m] == candidates[1..][m - 1]; }
    }
  }

  lemma HeadServes(candidates: seq<Candidate>, skip: seq<nat>)
    ensures candidates == [] || (candidates[0].ready && candidates[0].key !in skip) ==> ReadyUntried(candidates, skip, 0)
  {
  }

  /** It is the first ready one of the untried. */
  lemma {:induction false} FirstUntried(candidates: seq<Candidate>, skip: seq<nat>) returns (k: nat)
    ensures ReadyUntried(candidates, skip, k)
    ensures var untried := Untried(candidates, skip);
            var i := FirstReady(untried);
            (k < |candidates| <==> i < |untried|) && (k < |candidates| ==> candidates[k] == untried[i])
  {
    hide FirstReady, ReadyUntried;
    HeadServes(candidates, skip);
    k := 0;
    if candidates != [] {
      var head, rest := candidates[0], Untried(candidates[1..], skip);
      FirstReadyAfter(head, rest);
      if head.key in skip || !head.ready {
        k := FirstUntried(candidates[1..], skip);
        ReadyUntriedLater(candidates, skip, k);
        k := k + 1;
        assert head.key in skip ==> Untried(candidates, skip) == rest;
      }
    }
  }

  /** The first ready one of those to choose from is the first that could serve; without one, none could. */
  lemma EligibleServes(candidates: seq<Candidate>, skip: seq<nat>) returns (k: nat)
    requires candidates != []
    ensures var pool := Eligible(candidates, skip);
            var i := FirstReady(pool);
            if i < |pool| then k < |candidates| && FirstToServe(candidates, skip, k) && candidates[k] == pool[i]
            else NotYet(candidates, skip)
  {
    hide Untried, FirstReady;
    FreshIff(candidates, skip);
    if Fresh(candidates, skip) {
      hide Fresh;
      k := FirstUntried(candidates, skip);
    } else {
      hide Fresh;
      k := FirstReady(candidates);
      assert candidates[..|candidates|] == candidates;
    }
  }

  lemma {:induction false} UntriedMeaning(candidates: seq<Candidate>, skip: seq<nat>)
    ensures forall c :: c in Untried(candidates, skip) <==> c in candidates && c.key !in skip
  {
    if candidates != [] { UntriedMeaning(candidates[1..], skip); }
  }

  lemma FreshIff(candidates: seq<Candidate>, skip: seq<nat>)
    ensures Fresh(candidates, skip) <==> Untried(candidates, skip) != []
  {
    hide Untried;
    UntriedMeaning(candidates, skip);
    var untried := Untried(candidates, skip);
    if untried != [] {
      assert untried[0] in candidates;
    }
    if Fresh(candidates, skip) {
      var k :| 0 <= k < |candidates| && candidates[k].key !in skip;
      assert candidates[k] in untried;
    }
  }

  lemma {:induction false} ChoiceMeaning(polls: seq<seq<Candidate>>, skip: seq<nat>) returns (p: nat)
    ensures match Choice(polls, skip)
            case Some(c) => Decides(polls, skip, p, c)
            case None => NoneDecides(polls, skip, p)
  {
    p := 0;
    if polls != [] && polls[0] != [] {
      hide Eligible, FirstReady, Decides, NoneDecides, NotYet, FirstToServe;
      var pool := Eligible(polls[0], skip);
      var k := EligibleServes(polls[0], skip);
      if FirstReady(pool) < |pool| {
        FirstDecides(polls, skip, k);
      } else {
        p := ChoiceMeaning(polls[1..], skip);
        OneComesTooEarly(polls, skip, p);
        p := p + 1;
      }
    }
  }

  lemma FirstDecides(polls: seq<seq<Candidate>>, skip: seq<nat>, k: nat)
    requires polls != [] && k < |polls[0]| && FirstToServe(polls[0], skip, k)
    ensures Decides(polls, skip, 0, polls[0][k])
  {
    hide FirstToServe;
  }

  lemma OneComesTooEarly(polls: seq<seq<Candidate>>, skip: seq<nat>, p: nat)
    requires polls != [] && NotYet(polls[0], skip)
    ensures forall c :: Decides(polls[1..], skip, p, c) ==> Decides(polls, skip, p + 1, c)
    ensures NoneDecides(polls[1..], skip, p) ==> NoneDecides(polls, skip, p + 1)
  {
    hide NotYet, FirstToServe;
    assert forall q :: 0 < q < |polls| ==> polls[q] == polls[1..][q - 1];
  }

  method FindReady(candidates: seq<Candidate>) returns (i: nat)
    ensures i == FirstReady(candidates)
  {
    i := 0;
    while i < |candidates| && !candidates[i].ready
      invariant i <= |candidates| && FirstReady(candidates) == i + FirstReady(candidates[i..])
    {
      i := i + 1;
    }
  }

  method ReadyCandidate(polls: seq<seq<Candidate>>, skip: seq<nat>) returns (choice: Option<Candidate>)
    ensures choice == Choice(polls, skip)
  {
    hide Eligible, FirstReady;
    var poll := 0;
    while poll < |polls|
      invariant poll <= |polls| && Choice(polls[poll..], skip) == Choice(polls, skip)
    {
      var candidates := polls[poll];
      if candidates == [] {
        return None;
      }
      var pool := Eligible(candidates, skip);
      var i := FindReady(pool);
      if i < |pool| {
        return Some(pool[i]);
      }
      poll := poll + 1;
    }
    return None;
  }

  // ---------------------------------------------------------------- the attempts

  /** What an attempt meets: the pool's answers, whether a client can be had, whether sending succeeds. */
  datatype Round = Round(polls: seq<seq<Candidate>>, client: bool, answers: bool)

  /** One request sent: in which round, through which upstream, with which body. */
  datatype Sent = Sent(round: nat, key: nat, body: seq<char>)

  datatype Answer = Response(key: nat) | Error

  function Keys(trail: seq<Sent>): (keys: seq<nat>)
    ensures |keys| == |trail| && forall i :: 0 <= i < |keys| ==> keys[i] == trail[i].key
  {
    seq(|trail|, i requires 0 <= i < |trail| => trail[i].key)
  }

  /** The first attempt carries the request's body, the others none. */
  function BodyFor(trail: seq<Sent>, body: seq<char>): seq<char>
  {
    if trail == [] then body else []
  }

  /** What has been sent, and how the request ended if it has. */
  datatype Progress = Progress(trail: seq<Sent>, end: Option<Answer>)

  function Attempt(trail: seq<Sent>, round: Round, n: nat, body: seq<char>): Progress
  {
    match Choice(round.polls, Keys(trail))
    case None => Progress(trail, Some(Error))
    case Some(c) =>
      if !round.client then Progress(trail, None)
      else Progress(trail + [Sent(n, c.key, BodyFor(trail, body))], if round.answers then Some(Response(c.key)) else None)
  }

  /** The request after the first `n` rounds. */
  function After(rounds: seq<Round>, body: seq<char>, n: nat): Progress
    requires n <= |rounds|
  {
    if n == 0 then Progress([], None)
    else
      var before := After(rounds, body, n - 1);
      if before.end.Some? then before else Attempt(before.trail, rounds[n - 1], n - 1, body)
  }

  function Outcome(p: Progress): Answer
  {
    if p.end.Some? then p.end.value else Error
  }

  /** All that was sent without an answer has been evicted, in order. */
  method Request(retryable: bool, body: seq<char>, rounds: seq<Round>)
    returns (answer: Answer, trail: seq<Sent>, evicted: seq<nat>)
    requires |rounds| >= MAX_ATTEMPTS
    ensures var p := After(rounds, body, if retryable then MAX_ATTEMPTS else 1);
            trail == p.trail && answer == Outcome(p)
    ensures answer.Response? ==> trail != [] && answer.key == trail[|trail| - 1].key
    ensures evicted == Keys(if answer.Response? then trail[..|trail| - 1] else trail)
  {
    hide Choice, Keys;
    var attempts := if retryable then MAX_ATTEMPTS else 1;
    var pending := Some(body);
    var tried: seq<nat> := [];
    trail, evicted := [], [];
    KeysNone();
    var n := 0;
    while n < attempts
      invariant 0 <= n <= attempts && After(rounds, body, n) == Progress(trail, None)
      invariant tried == evicted == Keys(trail)
      invariant pending == if trail == [] then Some(body) else None
    {
      var choice := ReadyCandidate(rounds[n].polls, tried);
      if choice.None? {
        EndsAt(rounds, body, n + 1, attempts);
        return Error, trail, evicted;
      }
      if rounds[n].client {
        var key := choice.value.key;
        var payload := if pending.Some? then pending.value else [];
        pending := None;
        KeysPush(trail, Sent(n, key, payload));
        var before := trail;
        trail := trail + [Sent(n, key, payload)];
        if rounds[n].answers {
          EndsAt(rounds, body, n + 1, attempts);
          assert trail[..|trail| - 1] == before;
          return Response(key), trail, evicted;
        }
        evicted := evicted + [key];
        tried := tried + [key];
      }
      n := n + 1;
    }
    return Error, trail, evicted;
  }

  lemma KeysNone()
    ensures Keys([]) == []
  {
  }

  lemma KeysPush(trail: seq<Sent>, next: Sent)
    ensures Keys(trail + [next]) == Keys(trail) + [next.key]
  {
  }

  /** Once ended, a request stays as it is. */
  lemma {:induction false} EndsAt(rounds: seq<Round>, body: seq<char>, n: nat, m: nat)
    requires n <= m <= |rounds| && After(rounds, body, n).end.Some?
    ensures After(rounds, body, m) == After(rounds, body, n)
    decreases m
  {
    hide Attempt;
    if n < m { EndsAt(rounds, body, n, m - 1); }
  }

  // ---------------------------------------------------------------- what the attempts come to

  /** Whether a round, reached, gets an answer. */
  predicate Succeeds(rounds: seq<Round>, body: seq<char>, n: nat)
    requires n < |rounds|
  {
    && rounds[n].client && rounds[n].answers
    && Choice(rounds[n].polls, Keys(After(rounds, body, n).trail)).Some?
  }

  /** A request fails exactly when no round that it reaches gets an answer. */
  lemma {:induction false} FailsIff(rounds: seq<Round>, body: seq<char>, attempts: nat)
    requires attempts <= |rounds|
    ensures Outcome(After(rounds, body, attempts)) == Error
       <==> forall n :: 0 <= n < attempts && After(rounds, body, n).end.None? ==> !Succeeds(rounds, body, n)
    decreases attempts
  {
    hide Choice, Keys;
    if attempts > 0 {
      var m := attempts - 1;
      FailsIff(rounds, body, m);
      if After(rounds, body, m).end.None? {
        assert Outcome(After(rounds, body, m)) == Error;
        assert Outcome(After(rounds, body, attempts)) == Error <==> !Succeeds(rounds, body, m);
      }
    }
  }

  /** It is given up before the last attempt exactly when a round that it reaches finds no candidate. */
  lemma {:induction false} GivesUpIff(rounds: seq<Round>, body: seq<char>, attempts: nat)
    requires attempts <= |rounds|
    ensures After(rounds, body, attempts).end == Some(Error)
       <==> exists n :: 0 <= n < attempts && FindsNone(rounds, body, n)
    decreases attempts
  {
    hide Choice, Keys;
    if attempts > 0 {
      var m := attempts - 1;
      GivesUpIff(rounds, body, m);
      FindsNoneIff(rounds, body, m);
    }
  }

  lemma FindsNoneIff(rounds: seq<Round>, body: seq<char>, n: nat)
    requires n < |rounds|
    ensures var before := After(rounds, body, n);
            FindsNone(rounds, body, n) <==> before.end.None? && Choice(rounds[n].polls, Keys(before.trail)).None?
  {
    hide Choice, NotYet, FirstToServe, Keys, NoneDecides, Decides;
    var polls, tried := rounds[n].polls, Keys(After(rounds, body, n).trail);
    var p := ChoiceMeaning(polls, tried);
    var choice := Choice(polls, tried);
    if q :| choice.Some? && NoneDecides(polls, tried, q) {
      NotBoth(polls, tried, p, choice.value, q);
    }
  }

  lemma NotBoth(polls: seq<seq<Candidate>>, skip: seq<nat>, p: nat, c: Candidate, q: nat)
    requires Decides(polls, skip, p, c)
    ensures !NoneDecides(polls, skip, q)
  {
  }

  /** A round that is reached and for which no candidate is found. */
  ghost predicate FindsNone(rounds: seq<Round>, body: seq<char>, n: nat)
    requires n < |rounds|
  {
    var before := After(rounds, body, n);
    before.end.None? && exists p :: NoneDecides(rounds[n].polls, Keys(before.trail), p)
  }

  /** All that the pool offered at some time in the round had been tried before. */
  ghost predicate AllTried(round: Round, tried: seq<nat>)
  {
    exists p :: 0 <= p < |round.polls| && forall c :: c in round.polls[p] ==> c.key in tried
  }

  /**
   * The `j`-th request sent: in a later round than the one before, through the candidate then chosen,
   * which had not been used before unless all had been; unanswered unless it is the last.
   */
  ghost predicate SentOk(rounds: seq<Round>, trail: seq<Sent>, body: seq<char>, answered: bool, j: nat)
    requires j < |trail|
  {
    var sent, tried := trail[j], Keys(trail[..j]);
    && sent.round < |rounds| && rounds[sent.round].client
    && (j > 0 ==> trail[j - 1].round < sent.round)
    && sent.body == (if j == 0 then body else [])
    && (var choice := Choice(rounds[sent.round].polls, tried); choice.Some? && choice.value.key == sent.key)
    && (sent.key in tried ==> AllTried(rounds[sent.round], tried))
    && (rounds[sent.round].answers <==> answered && j == |trail| - 1)
  }

  ghost predicate TrailOk(rounds: seq<Round>, trail: seq<Sent>, body: seq<char>, answered: bool)
  {
    forall j :: 0 <= j < |trail| ==> SentOk(rounds, trail, body, answered, j)
  }

  lemma ChoiceTried(round: Round, tried: seq<nat>)
    ensures var choice := Choice(round.polls, tried);
            choice.Some? && choice.value.key in tried ==> AllTried(round, tried)
  {
    hide Choice, NotYet;
    var p := ChoiceMeaning(round.polls, tried);
  }

  lemma OneMore(rounds: seq<Round>, trail: seq<Sent>, body: seq<char>, next: Sent)
    requires TrailOk(rounds, trail, body, false) && next.round < |rounds| && rounds[next.round].client
    requires trail != [] ==> trail[|trail| - 1].round < next.round
    requires next.body == BodyFor(trail, body)
    requires var choice := Choice(rounds[next.round].polls, Keys(trail)); choice.Some? && choice.value.key == next.key
    ensures TrailOk(rounds, trail + [next], body, rounds[next.round].answers)
  {
    hide AllTried, Choice;
    ChoiceTried(rounds[next.round], Keys(trail));
    var all := trail + [next];
    forall j | 0 <= j < |all|
      ensures SentOk(rounds, all, body, rounds[next.round].answers, j)
    {
      if j < |trail| {
        assert all[..j] == trail[..j];
        assert SentOk(rounds, trail, body, false, j);
      } else {
        assert all[..j] == trail;
      }
    }
  }

  /** In every request, retried as often as may be. */
  lemma {:induction false} TrailIsOk(rounds: seq<Round>, body: seq<char>, n: nat)
    requires n <= |rounds|
    ensures var p := After(rounds, body, n);
            && TrailOk(rounds, p.trail, body, p.end.Some? && p.end.value.Response?)
            && |p.trail| <= n && (p.trail != [] ==> p.trail[|p.trail| - 1].round < n)
            && (p.end.Some? && p.end.value.Response? ==>
                  p.trail != [] && p.end.value.key == p.trail[|p.trail| - 1].key)
  {
    hide TrailOk, Choice, Keys, BodyFor;
    if n == 0 {
      NothingSent(rounds, body);
    } else {
      TrailIsOk(rounds, body, n - 1);
      var before := After(rounds, body, n - 1);
      var choice := Choice(rounds[n - 1].polls, Keys(before.trail));
      if before.end.None? && choice.Some? && rounds[n - 1].client {
        OneMore(rounds, before.trail, body, Sent(n - 1, choice.value.key, BodyFor(before.trail, body)));
      }
    }
  }

  lemma NothingSent(rounds: seq<Round>, body: seq<char>)
    ensures TrailOk(rounds, [], body, false)
  {
  }

  /** When every answer of the pool offers someone new, no upstream is used twice. */
  lemma DistinctWhenEnough(rounds: seq<Round>, trail: seq<Sent>, body: seq<char>, answered: bool, i: nat, j: nat)
    requires TrailOk(rounds, trail, body, answered) && i < j < |trail|
    requires trail[j].round < |rounds| && !AllTried(rounds[trail[j].round], Keys(trail[..j]))
    ensures trail[i].key != trail[j].key
  {
    assert SentOk(rounds, trail, body, answered, j);
    assert Keys(trail[..j])[i] == trail[i].key;
  }
}
