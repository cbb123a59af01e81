/** Pools of proxies: a tree of them is searched without repeating a key, sorted, and taken in turn. */
module ProxyPools {
  import opened Lists
  import opened Options
  import Rotation

  datatype Protocol = Ssh | Vpn

  datatype Proxy = Proxy(key: string, protocol: Protocol, priority: nat)

  datatype Tree = Tree(proxies: seq<Proxy>, children: seq<Tree>, rotation: Rotation.Counter)

  // ---------------------------------------------------------------- lists of proxies

  function Keys(proxies: seq<Proxy>): set<string>
  {
    set p | p in proxies :: p.key
  }

  /** No key occurs twice. */
  ghost predicate Distinct(proxies: seq<Proxy>)
  {
    forall i, j :: 0 <= i < j < |proxies| ==> proxies[i].key != proxies[j].key
  }

  predicate Knows(known: seq<Proxy>, key: string)
  {
    exists i :: 0 <= i < |known| && known[i].key == key
  }

  function Add(known: seq<Proxy>, p: Proxy): seq<Proxy>
  {
    if Knows(known, p.key) then known else known + [p]
  }

  function Merge(known: seq<Proxy>, more: seq<Proxy>): seq<Proxy>
  {
    if more == [] then known else Add(Merge(known, more[..|more| - 1]), more[|more| - 1])
  }

  function Without(proxies: seq<Proxy>, key: string): (rest: seq<Proxy>)
    ensures forall p :: p in rest <==> p in proxies && p.key != key
  {
    Filter(proxies, (p: Proxy) => p.key != key)
  }

  predicate Wanted(p: Proxy, wanted: Option<Protocol>)
  {
    wanted.None? || p.protocol == wanted.value
  }

  function Local(proxies: seq<Proxy>, wanted: Option<Protocol>): (found: seq<Proxy>)
    ensures forall p :: p in found <==> p in proxies && Wanted(p, wanted)
    ensures wanted == None ==> found == proxies
  {
    FilterAllWanted(proxies, wanted);
    Filter(proxies, (p: Proxy) => Wanted(p, wanted))
  }

  lemma FilterAllWanted(proxies: seq<Proxy>, wanted: Option<Protocol>)
    ensures wanted == None ==> Filter(proxies, (p: Proxy) => Wanted(p, wanted)) == proxies
  {
    if wanted == None { FilterAll(proxies, (p: Proxy) => Wanted(p, wanted)); }
  }

  lemma AddMeaning(known: seq<Proxy>, p: Proxy)
    requires Distinct(known)
    ensures Distinct(Add(known, p)) && Keys(Add(known, p)) == Keys(known) + {p.key}
    ensures forall q :: q in Add(known, p) ==> q in known || q == p
  {
    if Knows(known, p.key) {
      var i :| 0 <= i < |known| && known[i].key == p.key;
      assert known[i] in known;
    }
  }

  lemma {:induction false} MergeMeaning(known: seq<Proxy>, more: seq<Proxy>)
    requires Distinct(known)
    ensures Distinct(Merge(known, more)) && Keys(Merge(known, more)) == Keys(known) + Keys(more)
    ensures forall q :: q in Merge(known, more) ==> q in known || q in more
    decreases |more|
  {
    hide Add, Distinct;
    if more != [] {
      var n := |more| - 1;
      MergeMeaning(known, more[..n]);
      AddMeaning(Merge(known, more[..n]), more[n]);
      assert more == more[..n] + [more[n]];
      KeysPush(more[..n], more[n]);
    }
  }

  lemma FilterDistinct(proxies: seq<Proxy>, keep: Proxy -> bool)
    requires Distinct(proxies)
    ensures Distinct(Filter(proxies, keep))
  {
    var apart := (p: Proxy, q: Proxy) => p.key != q.key;
    assert Apart(proxies, apart);
    FilterKeepsApart(proxies, keep, apart);
    var rest := Filter(proxies, keep);
    assert forall i, j :: 0 <= i < j < |rest| ==> apart(rest[i], rest[j]);
  }

  lemma WithoutDistinct(proxies: seq<Proxy>, key: string)
    requires Distinct(proxies)
    ensures Distinct(Without(proxies, key))
  {
    FilterDistinct(proxies, (p: Proxy) => p.key != key);
  }

  lemma LocalDistinct(proxies: seq<Proxy>, wanted: Option<Protocol>)
    requires Distinct(proxies)
    ensures Distinct(Local(proxies, wanted))
  {
    FilterDistinct(proxies, (p: Proxy) => Wanted(p, wanted));
  }

  // ---------------------------------------------------------------- sorting

  function Insert(p: Proxy, sorted: seq<Proxy>): seq<Proxy>
  {
    if sorted == [] || p.priority <= sorted[0].priority then [p] + sorted
    else [sorted[0]] + Insert(p, sorted[1..])
  }

  function Sort(proxies: seq<Proxy>): seq<Proxy>
  {
    if proxies == [] then [] else Insert(proxies[0], Sort(proxies[1..]))
  }

  predicate Sorted(proxies: seq<Proxy>)
  {
    forall i, j :: 0 <= i < j < |proxies| ==> proxies[i].priority <= proxies[j].priority
  }

  /** The proxies of one priority, in their order. */
  function OfPriority(proxies: seq<Proxy>, priority: nat): seq<Proxy>
  {
    if proxies == [] then []
    else (if proxies[0].priority == priority then [proxies[0]] else []) + OfPriority(proxies[1..], priority)
  }

  lemma {:induction false} InsertAdds(p: Proxy, sorted: seq<Proxy>)
    ensures multiset(Insert(p, sorted)) == multiset(sorted) + multiset{p}
  {
    if sorted != [] && p.priority > sorted[0].priority {
      InsertAdds(p, sorted[1..]);
      assert sorted == [sorted[0]] + sorted[1..];
    }
  }

  predicate NoneBelow(proxies: seq<Proxy>, priority: nat)
  {
    forall i :: 0 <= i < |proxies| ==> priority <= proxies[i].priority
  }

  lemma {:induction false} InsertSorts(p: Proxy, sorted: seq<Proxy>, least: nat)
    requires Sorted(sorted) && NoneBelow(sorted, least) && least <= p.priority
    ensures Sorted(Insert(p, sorted)) && NoneBelow(Insert(p, sorted), least)
  {
    if sorted != [] && p.priority > sorted[0].priority {
      InsertSorts(p, sorted[1..], sorted[0].priority);
    }
  }

  lemma OfPriorityFirst(p: Proxy, rest: seq<Proxy>, priority: nat)
    ensures OfPriority([p] + rest, priority)
         == (if p.priority == priority then [p] else []) + OfPriority(rest, priority)
  {
    assert ([p] + rest)[1..] == rest;
  }

  lemma {:induction false} InsertIsStable(p: Proxy, sorted: seq<Proxy>, priority: nat)
    ensures OfPriority(Insert(p, sorted), priority) == OfPriority([p] + sorted, priority)
  {
    hide OfPriority;
    if sorted != [] && p.priority > sorted[0].priority {
      var first, rest := sorted[0], sorted[1..];
      InsertIsStable(p, rest, priority);
      assert sorted == [first] + rest;
      OfPriorityFirst(p, rest, priority);
      OfPriorityFirst(first, rest, priority);
      OfPriorityFirst(p, sorted, priority);
      OfPriorityFirst(first, Insert(p, rest), priority);
    }
  }

  /** Sorting is by priority, loses and adds nothing, and keeps the order of equal priorities. */
  lemma {:induction false} SortIsStable(proxies: seq<Proxy>, priority: nat)
    ensures Sorted(Sort(proxies)) && multiset(Sort(proxies)) == multiset(proxies)
    ensures OfPriority(Sort(proxies), priority) == OfPriority(proxies, priority)
  {
    hide Insert, OfPriority;
    if proxies != [] {
      var p, rest := proxies[0], proxies[1..];
      SortIsStable(rest, priority);
      InsertAdds(p, Sort(rest));
      InsertSorts(p, Sort(rest), 0);
      InsertIsStable(p, Sort(rest), priority);
      OfPriorityFirst(p, rest, priority);
      OfPriorityFirst(p, Sort(rest), priority);
      assert proxies == [p] + rest;
    }
  }

  function Rotated(s: seq<Proxy>, offset: nat): seq<Proxy>
    requires offset <= |s|
  {
    s[offset..] + s[..offset]
  }

  lemma SameElements(a: seq<Proxy>, b: seq<Proxy>)
    requires multiset(a) == multiset(b)
    ensures Keys(a) == Keys(b) && |a| == |b| && (forall p :: p in a <==> p in b)
    ensures Distinct(a) ==> Distinct(b)
  {
    assert forall p :: p in multiset(a) <==> p in a;
    assert forall p :: p in multiset(b) <==> p in b;
    assert |multiset(a)| == |multiset(b)|;
    if Distinct(a) { SameDistinct(a, b); }
  }

  lemma KeysPush(proxies: seq<Proxy>, p: Proxy)
    ensures Keys(proxies + [p]) == Keys(proxies) + {p.key}
    ensures Distinct(proxies + [p]) <==> Distinct(proxies) && p.key !in Keys(proxies)
  {
    var all := proxies + [p];
    assert forall i :: 0 <= i < |proxies| ==> all[i] == proxies[i];
    assert all[|proxies|] == p;
    if p.key in Keys(proxies) {
      var i :| 0 <= i < |proxies| && proxies[i].key == p.key;
      assert all[i].key == all[|proxies|].key;
    }
  }

  lemma {:induction false} KeysSize(a: seq<Proxy>)
    ensures |Keys(a)| <= |a|
    ensures |Keys(a)| == |a| <==> Distinct(a)
  {
    if a != [] {
      hide Keys, Distinct;
      var n := |a| - 1;
      KeysSize(a[..n]);
      KeysPush(a[..n], a[n]);
      assert a == a[..n] + [a[n]];
      assert a[n].key in Keys(a[..n]) ==> Keys(a) == Keys(a[..n]);
    }
  }

  lemma SameDistinct(a: seq<Proxy>, b: seq<Proxy>)
    requires multiset(a) == multiset(b) && Distinct(a)
    ensures Distinct(b)
  {
    assert forall p :: p in multiset(a) <==> p in a;
    assert forall p :: p in multiset(b) <==> p in b;
    assert |multiset(a)| == |multiset(b)|;
    assert Keys(a) == Keys(b);
    KeysSize(a);
    KeysSize(b);
  }

  // ---------------------------------------------------------------- searching the tree

  /** What the first `n` children add to the pool's own candidates. */
  function FoundIn(t: Tree, wanted: Option<Protocol>, n: nat): seq<Proxy>
    requires n <= |t.children|
    decreases t, n
  {
    if n == 0 then Local(t.proxies, wanted)
    else Merge(FoundIn(t, wanted, n - 1), Candidates(t.children[n - 1], wanted))
  }

  function Found(t: Tree, wanted: Option<Protocol>): seq<Proxy>
    decreases t, |t.children| + 1
  {
    FoundIn(t, wanted, |t.children|)
  }

  /** In the order of priority, begun at the pool's turn. */
  function Candidates(t: Tree, wanted: Option<Protocol>): seq<Proxy>
    decreases t, |t.children| + 2
  {
    InTurn(Found(t, wanted), t.rotation)
  }

  function InTurn(found: seq<Proxy>, rotation: Rotation.Counter): seq<Proxy>
  {
    SortIsStable(found, 0);
    SameElements(Sort(found), found);
    if |found| > 1 then Rotated(Sort(found), Rotation.Around(rotation, |found|)) else Sort(found)
  }

  /** The counters of the pool and of all pools under it after such a search. */
  function AfterSearch(t: Tree, wanted: Option<Protocol>): Tree
    decreases t
  {
    Tree(t.proxies, seq(|t.children|, i requires 0 <= i < |t.children| => AfterSearch(t.children[i], wanted)),
         if |Found(t, wanted)| > 1 then Rotation.Next(t.rotation) else t.rotation)
  }

  function AllIn(t: Tree, n: nat): seq<Proxy>
    requires n <= |t.children|
    decreases t, n
  {
    if n == 0 then t.proxies else Merge(AllIn(t, n - 1), All(t.children[n - 1]))
  }

  function All(t: Tree): seq<Proxy>
    decreases t, |t.children| + 1
  {
    AllIn(t, |t.children|)
  }

  // ---------------------------------------------------------------- one key, one place

  /** Every list of the tree is free of repeated keys. */
  ghost predicate Clean(t: Tree)
    decreases t
  {
    Distinct(t.proxies) && forall i :: 0 <= i < |t.children| ==> Clean(t.children[i])
  }

  /** The proxy is in some list of the tree. */
  ghost predicate Holds(t: Tree, p: Proxy)
    decreases t
  {
    p in t.proxies || exists i :: 0 <= i < |t.children| && Holds(t.children[i], p)
  }

  ghost predicate HoldsIn(t: Tree, n: nat, p: Proxy)
    requires n <= |t.children|
  {
    p in t.proxies || exists i :: 0 <= i < n && Holds(t.children[i], p)
  }

  ghost predicate HoldsKey(t: Tree, key: string)
  {
    exists p :: Holds(t, p) && p.key == key
  }

  /** What is found is in the tree and wanted, once a key, and nothing is missed. */
  ghost predicate FoundOk(t: Tree, wanted: Option<Protocol>, n: nat, found: seq<Proxy>)
    requires n <= |t.children|
  {
    && Distinct(found)
    && (forall p :: p in found ==> HoldsIn(t, n, p) && Wanted(p, wanted))
    && (forall p :: HoldsIn(t, n, p) && Wanted(p, wanted) ==> p.key in Keys(found))
  }

  lemma MergeFound(
    t: Tree, wanted: Option<Protocol>, n: nat, known: seq<Proxy>, more: seq<Proxy>)
    requires n < |t.children| && FoundOk(t, wanted, n, known)
    requires FoundOk(t.children[n], wanted, |t.children[n].children|, more)
    ensures FoundOk(t, wanted, n + 1, Merge(known, more))
  {
    hide Distinct, Wanted, Merge;
    var c := t.children[n];
    MergeMeaning(known, more);
    assert forall p :: HoldsIn(c, |c.children|, p) <==> Holds(c, p);
    assert forall p :: HoldsIn(t, n + 1, p) <==> HoldsIn(t, n, p) || Holds(c, p);
  }

  lemma FoundAlone(t: Tree, wanted: Option<Protocol>)
    requires Distinct(t.proxies)
    ensures FoundOk(t, wanted, 0, Local(t.proxies, wanted))
  {
    hide Distinct, Wanted;
    LocalDistinct(t.proxies, wanted);
  }

  lemma {:induction false} SearchFinds(t: Tree, wanted: Option<Protocol>, n: nat)
    requires Clean(t) && n <= |t.children|
    ensures FoundOk(t, wanted, n, FoundIn(t, wanted, n))
    decreases t, n
  {
    hide FoundOk, Merge, Distinct, Candidates, Found;
    if n == 0 {
      FoundAlone(t, wanted);
    } else {
      var c := t.children[n - 1];
      SearchFinds(t, wanted, n - 1);
      SearchFinds(c, wanted, |c.children|);
      CandidatesKeep(c, wanted);
      MergeFound(t, wanted, n - 1, FoundIn(t, wanted, n - 1), Candidates(c, wanted));
    }
  }

  lemma CandidatesKeep(t: Tree, wanted: Option<Protocol>)
    requires FoundOk(t, wanted, |t.children|, FoundIn(t, wanted, |t.children|))
    ensures FoundOk(t, wanted, |t.children|, Candidates(t, wanted))
  {
    hide FoundOk, InTurn, FoundIn;
    InTurnKeeps(t, wanted, Found(t, wanted), t.rotation);
  }

  lemma RotatedIsPermutation(s: seq<Proxy>, offset: nat)
    requires offset <= |s|
    ensures multiset(Rotated(s, offset)) == multiset(s)
  {
    assert s == s[..offset] + s[offset..];
  }

  lemma InTurnIsPermutation(found: seq<Proxy>, rotation: Rotation.Counter)
    ensures multiset(InTurn(found, rotation)) == multiset(found)
  {
    hide Sort, Rotated, OfPriority, Sorted, Rotation.Around;
    SortIsStable(found, 0);
    SameLength(Sort(found), found);
    if |found| > 1 { RotatedIsPermutation(Sort(found), Rotation.Around(rotation, |found|)); }
  }

  lemma InTurnKeeps(t: Tree, wanted: Option<Protocol>, found: seq<Proxy>, rotation: Rotation.Counter)
    requires FoundOk(t, wanted, |t.children|, found)
    ensures FoundOk(t, wanted, |t.children|, InTurn(found, rotation))
  {
    hide InTurn, Distinct, Wanted, HoldsIn;
    InTurnIsPermutation(found, rotation);
    SameElements(found, InTurn(found, rotation));
  }

  lemma {:induction false} AllFinds(t: Tree, n: nat)
    requires Clean(t) && n <= |t.children|
    ensures FoundOk(t, None, n, AllIn(t, n))
    decreases t, n
  {
    hide FoundOk, Merge, Distinct, All;
    if n == 0 {
      FoundAlone(t, None);
    } else {
      var c := t.children[n - 1];
      AllFinds(t, n - 1);
      AllFinds(c, |c.children|);
      AllIsWhole(c);
      MergeFound(t, None, n - 1, AllIn(t, n - 1), All(c));
    }
  }

  lemma AllIsWhole(t: Tree)
    ensures All(t) == AllIn(t, |t.children|)
  {
    hide AllIn;
  }

  /**
   * An answer to a search for one protocol holds proxies of that protocol, and each of these that is in
   * the tree is there by its key; an answer to a search for any holds the keys of all. No key is there
   * twice, and the pool's own proxies go before those under it with the same key.
   */
  ghost predicate IsAnswer(t: Tree, wanted: Option<Protocol>, ready: seq<Proxy>)
  {
    && (forall i, j :: 0 <= i < j < |ready| ==> ready[i].key != ready[j].key)
    && (forall p :: p in ready ==> Holds(t, p))
    && (match wanted
        case Some(protocol) =>
          && (forall p :: p in ready ==> p.protocol == protocol)
          && (forall p :: Holds(t, p) && p.protocol == protocol ==> p.key in Keys(ready))
          && (forall p :: p in t.proxies && p.protocol == protocol ==> p in ready)
        case None =>
          && (forall p :: Holds(t, p) ==> p.key in Keys(ready))
          && (forall p :: p in t.proxies ==> p in ready))
  }

  lemma CandidatesAreComplete(t: Tree, wanted: Option<Protocol>)
    requires Clean(t)
    ensures IsAnswer(t, wanted, Candidates(t, wanted))
  {
    hide Candidates;
    SearchFinds(t, wanted, |t.children|);
    CandidatesKeep(t, wanted);
    OwnAreFound(t, wanted, |t.children|);
    CandidatesHold(t, wanted);
    assert forall p :: HoldsIn(t, |t.children|, p) <==> Holds(t, p);
  }

  lemma CandidatesHold(t: Tree, wanted: Option<Protocol>)
    ensures forall p :: p in Candidates(t, wanted) <==> p in FoundIn(t, wanted, |t.children|)
  {
    hide InTurn, FoundIn;
    InTurnIsPermutation(Found(t, wanted), t.rotation);
    SameElements(Candidates(t, wanted), Found(t, wanted));
  }

  lemma {:induction false} MergeKeeps(known: seq<Proxy>, more: seq<Proxy>)
    ensures forall p :: p in known ==> p in Merge(known, more)
    decreases |more|
  {
    if more != [] { MergeKeeps(known, more[..|more| - 1]); }
  }

  lemma {:induction false} OwnAreFound(t: Tree, wanted: Option<Protocol>, n: nat)
    requires n <= |t.children|
    ensures forall p :: p in t.proxies && Wanted(p, wanted) ==> p in FoundIn(t, wanted, n)
    decreases n
  {
    hide Merge, Candidates;
    if n > 0 {
      OwnAreFound(t, wanted, n - 1);
      MergeKeeps(FoundIn(t, wanted, n - 1), Candidates(t.children[n - 1], wanted));
    }
  }

  /** The lower priorities first, except that the list begins where the counter says and goes around. */
  ghost predicate InPriorityOrder(ready: seq<Proxy>, rotation: Rotation.Counter)
  {
    |ready| > 1 ==>
      var n := |ready| - rotation % |ready|;
      forall i, j :: 0 <= i < j < |ready| ==> (
        if i < n <= j then ready[j].priority <= ready[i].priority else ready[i].priority <= ready[j].priority)
  }

  lemma RotatedInOrder(s: seq<Proxy>, offset: nat)
    requires Sorted(s) && offset < |s|
    ensures var r, n := Rotated(s, offset), |s| - offset;
            forall i, j :: 0 <= i < j < |r| ==>
              if i < n <= j then r[j].priority <= r[i].priority else r[i].priority <= r[j].priority
  {
  }

  lemma CandidatesInOrder(t: Tree, wanted: Option<Protocol>)
    ensures InPriorityOrder(Candidates(t, wanted), t.rotation)
    ensures AfterSearch(t, wanted).rotation
         == if |Candidates(t, wanted)| > 1 then (t.rotation + 1) % 0x1_0000_0000_0000_0000 else t.rotation
  {
    hide Sort, Sorted, FoundIn, Rotated;
    var found := Found(t, wanted);
    SortIsStable(found, 0);
    SameElements(Sort(found), found);
    InTurnIsPermutation(found, t.rotation);
    SameElements(Candidates(t, wanted), found);
    if |found| > 1 { RotatedInOrder(Sort(found), Rotation.Around(t.rotation, |found|)); }
  }

  lemma AnswerKeys(t: Tree, ready: seq<Proxy>)
    requires IsAnswer(t, None, ready)
    ensures Distinct(ready) && forall key :: key in Keys(ready) <==> HoldsKey(t, key)
  {
  }

  lemma AllKeys(t: Tree)
    requires Clean(t)
    ensures Distinct(All(t)) && forall key :: key in Keys(All(t)) <==> HoldsKey(t, key)
  {
    hide All, Distinct;
    AllFinds(t, |t.children|);
    AllIsWhole(t);
    assert forall p :: HoldsIn(t, |t.children|, p) <==> Holds(t, p);
  }

  /** An unfiltered search and the list of all proxies have the same keys, each once; so has the count. */
  lemma SearchAndListAgree(t: Tree)
    requires Clean(t)
    ensures Distinct(Candidates(t, None)) && Distinct(All(t))
    ensures Keys(Candidates(t, None)) == Keys(All(t))
    ensures forall key :: key in Keys(All(t)) <==> HoldsKey(t, key)
    ensures |Candidates(t, None)| == |All(t)| == |Keys(All(t))|
  {
    hide Candidates, All, Distinct, IsAnswer, HoldsKey, Keys;
    CandidatesAreComplete(t, None);
    AnswerKeys(t, Candidates(t, None));
    AllKeys(t);
    KeysSize(Candidates(t, None));
    KeysSize(All(t));
  }

  // ---------------------------------------------------------------- changes anywhere in the tree

  datatype Change = Push(proxy: Proxy) | Remove(key: string) | Adopt(child: Tree) | Search(wanted: Option<Protocol>)

  function Apply(t: Tree, change: Change): Tree
  {
    match change
    case Push(p) => t.(proxies := Add(t.proxies, p))
    case Remove(key) => t.(proxies := Without(t.proxies, key))
    case Adopt(child) => t.(children := t.children + [child])
    case Search(wanted) => AfterSearch(t, wanted)
  }

  /** The change made in the pool that the path leads to. */
  function ApplyAt(t: Tree, path: seq<nat>, change: Change): Tree
    decreases |path|
  {
    if path == [] then Apply(t, change)
    else if path[0] >= |t.children| then t
    else t.(children := t.children[path[0] := ApplyAt(t.children[path[0]], path[1..], change)])
  }

  datatype Edit = Edit(path: seq<nat>, change: Change)

  function ApplyAll(t: Tree, edits: seq<Edit>): Tree
  {
    if edits == [] then t
    else
      var n := |edits| - 1;
      ApplyAt(ApplyAll(t, edits[..n]), edits[n].path, edits[n].change)
  }

  /** Pools are made from lists without repeated keys. */
  ghost predicate CleanEdit(edit: Edit)
  {
    edit.change.Adopt? ==> Clean(edit.change.child)
  }

  /** A search moves counters and nothing else. */
  lemma {:induction false} SearchKeepsContents(t: Tree, wanted: Option<Protocol>)
    ensures Clean(AfterSearch(t, wanted)) <==> Clean(t)
    ensures forall p :: Holds(AfterSearch(t, wanted), p) <==> Holds(t, p)
    decreases t
  {
    hide Found, Distinct;
    var t' := AfterSearch(t, wanted);
    forall i | 0 <= i < |t.children|
      ensures Clean(t'.children[i]) <==> Clean(t.children[i])
      ensures forall p :: Holds(t'.children[i], p) <==> Holds(t.children[i], p)
    {
      SearchKeepsContents(t.children[i], wanted);
    }
  }

  lemma {:induction false} ApplyKeepsClean(t: Tree, path: seq<nat>, change: Change)
    requires Clean(t) && CleanEdit(Edit(path, change))
    ensures Clean(ApplyAt(t, path, change))
    decreases |path|
  {
    if path == [] {
      match change
      case Push(p) => AddMeaning(t.proxies, p);
      case Remove(key) => WithoutDistinct(t.proxies, key);
      case Adopt(child) =>
      case Search(wanted) => SearchKeepsContents(t, wanted);
    } else if path[0] < |t.children| {
      ApplyKeepsClean(t.children[path[0]], path[1..], change);
    }
  }

  lemma {:induction false} RunsKeepClean(t: Tree, edits: seq<Edit>)
    requires Clean(t) && forall k :: 0 <= k < |edits| ==> CleanEdit(edits[k])
    ensures Clean(ApplyAll(t, edits))
  {
    hide Clean, ApplyAt;
    if edits != [] {
      var n := |edits| - 1;
      RunsKeepClean(t, edits[..n]);
      assert CleanEdit(edits[n]);
      ApplyKeepsClean(ApplyAll(t, edits[..n]), edits[n].path, edits[n].change);
    }
  }

  /** After any changes anywhere: a search and the list agree on what the tree holds. */
  lemma AlwaysAgree(t: Tree, edits: seq<Edit>)
    requires Clean(t) && forall k :: 0 <= k < |edits| ==> CleanEdit(edits[k])
    ensures var t' := ApplyAll(t, edits);
            && Distinct(Candidates(t', None)) && Distinct(All(t'))
            && Keys(Candidates(t', None)) == Keys(All(t'))
            && (forall key :: key in Keys(All(t')) <==> HoldsKey(t', key))
            && |Candidates(t', None)| == |All(t')| == |Keys(All(t'))|
  {
    hide ApplyAll, Candidates, All, Clean, Distinct, Keys;
    RunsKeepClean(t, edits);
    SearchAndListAgree(ApplyAll(t, edits));
  }

  predicate Leads(t: Tree, path: seq<nat>)
    decreases |path|
  {
    path == [] || (path[0] < |t.children| && Leads(t.children[path[0]], path[1..]))
  }

  ghost predicate ChildHoldsKey(t: Tree, key: string)
  {
    exists i :: 0 <= i < |t.children| && HoldsKey(t.children[i], key)
  }

  lemma HoldsKeyMeaning(t: Tree, key: string)
    ensures HoldsKey(t, key) <==> key in Keys(t.proxies) || ChildHoldsKey(t, key)
  {
    if HoldsKey(t, key) && key !in Keys(t.proxies) {
      var p :| Holds(t, p) && p.key == key;
      var i :| 0 <= i < |t.children| && Holds(t.children[i], p);
      assert HoldsKey(t.children[i], key);
    }
    if ChildHoldsKey(t, key) {
      var i :| 0 <= i < |t.children| && HoldsKey(t.children[i], key);
      var p :| Holds(t.children[i], p) && p.key == key;
      assert Holds(t, p);
    }
    if key in Keys(t.proxies) {
      var p :| p in t.proxies && p.key == key;
      assert Holds(t, p);
    }
  }

  /** Pushed into any pool of the tree, a proxy's key is seen from its root, and no other comes or goes. */
  lemma {:induction false} PushIsSeen(t: Tree, path: seq<nat>, p: Proxy, key: string)
    requires Leads(t, path) && Clean(t)
    ensures HoldsKey(ApplyAt(t, path, Push(p)), key) <==> HoldsKey(t, key) || key == p.key
    decreases |path|
  {
    hide Keys, Distinct, HoldsKey, Holds, Add;
    var t' := ApplyAt(t, path, Push(p));
    HoldsKeyMeaning(t, key);
    HoldsKeyMeaning(t', key);
    if path == [] {
      AddMeaning(t.proxies, p);
    } else {
      PushIsSeen(t.children[path[0]], path[1..], p, key);
      assert t'.children[path[0]] == ApplyAt(t.children[path[0]], path[1..], Push(p));
      if ChildHoldsKey(t, key) {
        var i :| 0 <= i < |t.children| && HoldsKey(t.children[i], key);
        assert HoldsKey(t'.children[i], key);
      }
      if key == p.key { assert HoldsKey(t'.children[path[0]], key); }
    }
  }

  /** The key is in the tree somewhere other than in the list of the pool that the path leads to. */
  ghost predicate HeldElsewhere(t: Tree, path: seq<nat>, key: string)
    requires Leads(t, path)
    decreases |path|
  {
    if path == [] then ChildHoldsKey(t, key)
    else
      || key in Keys(t.proxies)
      || (exists i :: 0 <= i < |t.children| && i != path[0] && HoldsKey(t.children[i], key))
      || HeldElsewhere(t.children[path[0]], path[1..], key)
  }

  /** Removed from any pool of the tree, a key is gone unless another has it too; the other keys stay. */
  lemma {:induction false} RemoveIsLocal(t: Tree, path: seq<nat>, gone: string, key: string)
    requires Leads(t, path)
    ensures HoldsKey(ApplyAt(t, path, Remove(gone)), key)
       <==> if key == gone then HeldElsewhere(t, path, key) else HoldsKey(t, key)
    decreases |path|
  {
    hide HoldsKey, Holds, Without;
    var t' := ApplyAt(t, path, Remove(gone));
    HoldsKeyMeaning(t, key);
    HoldsKeyMeaning(t', key);
    if path == [] {
      assert key in Keys(t'.proxies) <==> key in Keys(t.proxies) && key != gone;
    } else {
      var first := path[0];
      RemoveIsLocal(t.children[first], path[1..], gone, key);
      assert t'.children[first] == ApplyAt(t.children[first], path[1..], Remove(gone));
      OthersHold(t, t', first, key);
    }
  }

  lemma OthersHold(t: Tree, t': Tree, first: nat, key: string)
    requires first < |t.children| == |t'.children|
    requires forall i :: 0 <= i < |t.children| && i != first ==> t'.children[i] == t.children[i]
    ensures ChildHoldsKey(t, key) <==>
      HoldsKey(t.children[first], key) || exists i :: 0 <= i < |t.children| && i != first && HoldsKey(t.children[i], key)
    ensures ChildHoldsKey(t', key) <==>
      HoldsKey(t'.children[first], key) || exists i :: 0 <= i < |t.children| && i != first && HoldsKey(t.children[i], key)
  {
    hide HoldsKey;
    if i :| 0 <= i < |t.children| && i != first && HoldsKey(t.children[i], key) {
      assert HoldsKey(t'.children[i], key);
    }
  }

  // ---------------------------------------------------------------- turns in a pool without children

  /** The pool after `k` searches. */
  function AfterSearches(t: Tree, wanted: Option<Protocol>, k: nat): Tree
  {
    if k == 0 then t else AfterSearch(AfterSearches(t, wanted, k - 1), wanted)
  }

  lemma ChildlessSearch(t: Tree, wanted: Option<Protocol>)
    requires t.children == [] && |Local(t.proxies, wanted)| > 1
    ensures AfterSearch(t, wanted) == Tree(t.proxies, [], Rotation.Next(t.rotation))
    ensures Candidates(t, wanted) == InTurn(Local(t.proxies, wanted), t.rotation)
  {
    hide Local, InTurn, Rotation.Next;
    assert Found(t, wanted) == Local(t.proxies, wanted);
  }

  lemma {:induction false} SearchesTurn(t: Tree, wanted: Option<Protocol>, k: nat)
    requires t.children == [] && |Local(t.proxies, wanted)| > 1
    ensures AfterSearches(t, wanted, k) == Tree(t.proxies, [], Rotation.Plus(t.rotation, k))
  {
    hide Local, AfterSearch, Rotation.Plus, Rotation.Next;
    if k == 0 {
      Rotation.PlusNone(t.rotation);
    } else {
      SearchesTurn(t, wanted, k - 1);
      ChildlessSearch(AfterSearches(t, wanted, k - 1), wanted);
      Rotation.PlusOne(t.rotation, k - 1);
    }
  }

  lemma SortLength(found: seq<Proxy>)
    ensures |Sort(found)| == |found|
  {
    hide Sort, OfPriority, Sorted;
    SortIsStable(found, 0);
    SameLength(Sort(found), found);
  }

  lemma SameLength(a: seq<Proxy>, b: seq<Proxy>)
    requires multiset(a) == multiset(b)
    ensures |a| == |b|
  {
    assert |multiset(a)| == |multiset(b)|;
  }

  lemma InTurnIsRotated(found: seq<Proxy>, c: Rotation.Counter)
    requires |found| > 1 && |Sort(found)| == |found|
    ensures InTurn(found, c) == Rotated(Sort(found), Rotation.Around(c, |found|))
  {
    hide Sort, Rotated, Rotation.Around;
  }

  /** Where a place is found in a ring of `n` that begins at `offset`. */
  function Shifted(offset: nat, position: nat, n: nat): (i: nat)
    requires offset < n && position < n
    ensures i < n
  {
    if offset + position < n then offset + position else offset + position - n
  }

  lemma RotatedAt(s: seq<Proxy>, offset: nat, position: nat)
    requires offset < |s| && position < |s|
    ensures |Rotated(s, offset)| == |s|
    ensures Rotated(s, offset)[position] == s[Shifted(offset, position, |s|)]
  {
  }

  lemma InTurnAt(found: seq<Proxy>, c: Rotation.Counter, position: nat)
    requires position < |found| && |found| > 1
    ensures |InTurn(found, c)| == |found| == |Sort(found)|
    ensures InTurn(found, c)[position] == Sort(found)[Shifted(Rotation.Around(c, |found|), position, |found|)]
  {
    hide Sort, InTurn, Rotation.Around, Rotated, Shifted;
    SortLength(found);
    InTurnIsRotated(found, c);
    RotatedAt(Sort(found), Rotation.Around(c, |found|), position);
  }

  lemma NthCall(t: Tree, wanted: Option<Protocol>, k: nat, position: nat)
    requires t.children == [] && |Local(t.proxies, wanted)| > 1 && position < |Local(t.proxies, wanted)|
    ensures var found, result := Local(t.proxies, wanted), Candidates(AfterSearches(t, wanted, k), wanted);
            && |result| == |found| == |Sort(found)| && multiset(result) == multiset(found)
            && result[position] == Sort(found)[Shifted(Rotation.Turn(t.rotation, |found|, k), position, |found|)]
  {
    hide AfterSearches, Candidates, InTurn, Local, Sort, Rotation.Plus, Rotation.Around;
    SearchesTurn(t, wanted, k);
    ChildlessSearch(AfterSearches(t, wanted, k), wanted);
    InTurnAt(Local(t.proxies, wanted), Rotation.Plus(t.rotation, k), position);
    InTurnIsPermutation(Local(t.proxies, wanted), Rotation.Plus(t.rotation, k));
  }

  /** Within as many calls as there are candidates, each is once at each position. */
  lemma EveryoneEverywhere(t: Tree, wanted: Option<Protocol>, p: Proxy, position: nat) returns (k: nat)
    requires t.children == [] && 1 < |Local(t.proxies, wanted)| <= Rotation.WRAP
    requires Rotation.Smooth(t.rotation, |Local(t.proxies, wanted)|)
    requires p in Local(t.proxies, wanted) && position < |Local(t.proxies, wanted)|
    ensures k < |Local(t.proxies, wanted)|
    ensures position < |Candidates(AfterSearches(t, wanted, k), wanted)|
    ensures Candidates(AfterSearches(t, wanted, k), wanted)[position] == p
  {
    hide Rotation.Smooth, Rotation.Turn, Candidates, AfterSearches, Sort, Local;
    var found := Local(t.proxies, wanted);
    var n := |found|;
    SortIsStable(found, 0);
    SameElements(Sort(found), found);
    var i :| 0 <= i < n && Sort(found)[i] == p;
    var turn := if position <= i then i - position else n + i - position;
    Rotation.FairIff(t.rotation, n);
    assert Rotation.HasTurn(t.rotation, n, turn);
    k :| k < n && Rotation.Turn(t.rotation, n, k) == turn;
    NthCall(t, wanted, k, position);
  }

  lemma NeverTwiceInPlace(t: Tree, wanted: Option<Protocol>, position: nat, j: nat, k: nat)
    requires t.children == [] && Distinct(t.proxies)
    requires 1 < |Local(t.proxies, wanted)| <= Rotation.WRAP
    requires Rotation.Smooth(t.rotation, |Local(t.proxies, wanted)|)
    requires position < |Local(t.proxies, wanted)| && j < k < |Local(t.proxies, wanted)|
    ensures position < |Candidates(AfterSearches(t, wanted, j), wanted)|
    ensures position < |Candidates(AfterSearches(t, wanted, k), wanted)|
    ensures Candidates(AfterSearches(t, wanted, j), wanted)[position].key
         != Candidates(AfterSearches(t, wanted, k), wanted)[position].key
  {
    hide Rotation.Smooth, Rotation.Turn, Candidates, AfterSearches, Sort, Local;
    var found := Local(t.proxies, wanted);
    var n := |found|;
    NthCall(t, wanted, j, position);
    NthCall(t, wanted, k, position);
    Rotation.TurnsDiffer(t.rotation, n, j, k);
    LocalDistinct(t.proxies, wanted);
    SortIsStable(found, 0);
    SameElements(found, Sort(found));
  }

  /** When the counter wraps inside the round, someone is never first in it. */
  lemma WrapLeavesSomeoneOut(t: Tree, wanted: Option<Protocol>, k: nat)
    requires t.children == [] && Distinct(t.proxies)
    requires 1 < |Local(t.proxies, wanted)| <= Rotation.WRAP && k < |Local(t.proxies, wanted)|
    requires !Rotation.Smooth(t.rotation, |Local(t.proxies, wanted)|)
    ensures var found, result := Local(t.proxies, wanted), Candidates(AfterSearches(t, wanted, k), wanted);
            && |result| == |found| == |Sort(found)|
            && result[0].key != Sort(found)[Rotation.LeftOut(t.rotation, |found|)].key
  {
    hide Rotation.Turn, Candidates, AfterSearches, Sort, Local;
    var found := Local(t.proxies, wanted);
    NthCall(t, wanted, k, 0);
    Rotation.LeftOutHasNoTurn(t.rotation, |found|, k);
    LocalDistinct(t.proxies, wanted);
    SortIsStable(found, 0);
    SameElements(found, Sort(found));
  }
}
