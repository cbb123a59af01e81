/** The pool as an object that its users change: lists, children and counter in place. */
module PoolObjects {
  import opened Options
  import opened ProxyPools
  import Rotation

  class ProxyPool {
    var proxies: seq<Proxy>
    var children: seq<ProxyPool>
    var rotation: Rotation.Counter
    /** How deep the tree under this pool is, and the pools in it. */
    ghost var height: nat
    ghost var Repr: set<ProxyPool>

    /** The pools form a tree: no child is reached in two ways. */
    ghost predicate Valid()
      reads this, Repr
      decreases height
    {
      && this in Repr
      && (forall i :: 0 <= i < |children| ==>
           && children[i] in Repr && children[i].Repr <= Repr && this !in children[i].Repr
           && children[i].height < height && children[i].Valid())
      && (forall i, j :: 0 <= i < j < |children| ==> children[i].Repr !! children[j].Repr)
    }

    ghost function Value(): Tree
      requires Valid()
      reads this, Repr
      decreases height, |children| + 1
    {
      Tree(proxies, Values(children), rotation)
    }

    /** The values of the pools in a list of them under this pool. */
    ghost function Values(pools: seq<ProxyPool>): (values: seq<Tree>)
      requires Valid() && forall i :: 0 <= i < |pools| ==> pools[i] in children
      reads this, Repr
      decreases height, |pools|
      ensures |values| == |pools| && forall i :: 0 <= i < |pools| ==> values[i] == pools[i].Value()
    {
      if pools == [] then [] else [pools[0].Value()] + Values(pools[1..])
    }

    constructor (proxies: seq<Proxy>)
      ensures Valid() && fresh(Repr)
      ensures Value() == Tree(proxies, [], 0)
    {
      this.proxies, children, rotation := proxies, [], 0;
      height, Repr := 0, {this};
    }

    method Push(proxy: Proxy)
      requires Valid()
      modifies this`proxies
      ensures Valid() && Value() == Apply(old(Value()), ProxyPools.Push(proxy))
    {
      hide Add;
      if !Knows(proxies, proxy.key) {
        proxies := proxies + [proxy];
      }
      assert proxies == Add(old(proxies), proxy) by { AddIs(old(proxies), proxy); }
    }

    method Remove(key: string)
      requires Valid()
      modifies this`proxies
      ensures Valid() && Value() == Apply(old(Value()), ProxyPools.Remove(key))
    {
      proxies := Without(proxies, key);
    }

    /** A pool that is a child already is not taken again; a new one keeps the pools a tree. */
    method AddChild(child: ProxyPool)
      requires Valid() && child.Valid()
      requires child !in children ==> child.Repr !! Repr
      modifies this
      ensures Valid() && Repr == old(Repr) + (if child in old(children) then {} else child.Repr)
      ensures Value() == if child in old(children) then old(Value()) else Apply(old(Value()), Adopt(old(child.Value())))
    {
      hide Value;
      WholeIsParts();
      if child !in children {
        label before:
        children := children + [child];
        Repr := Repr + child.Repr;
        height := if height > child.height then height else child.height + 1;
        Adopted@before(child);
      }
    }

    twostate lemma Adopted(child: ProxyPool)
      requires old(Valid()) && old(child.Valid()) && old(child.Repr !! Repr)
      requires children == old(children) + [child] && Repr == old(Repr) + old(child.Repr)
      requires height >= old(height) && height > old(child.height) && unchanged(this`proxies, this`rotation)
      requires unchanged((old(Repr) - {this}) + old(child.Repr))
      ensures Valid() && Value() == Apply(old(Value()), Adopt(old(child.Value())))
    {
      var was := old(children);
      forall i | 0 <= i < |was|
        ensures was[i].Valid() && was[i].Value() == old(was[i].Value())
        ensures was[i].Repr <= Repr && this !in was[i].Repr && was[i].height < height
      {
      }
      assert child.Valid() && child.Value() == old(child.Value());
    }

    method Filtered(wanted: Option<Protocol>) returns (ready: seq<Proxy>)
      requires Valid()
      modifies Repr
      ensures Valid() && Repr == old(Repr) && height == old(height)
      ensures ready == Candidates(old(Value()), wanted)
      ensures Clean(old(Value())) ==> IsAnswer(old(Value()), wanted, ready)
      ensures InPriorityOrder(ready, old(rotation))
      ensures rotation == if |ready| > 1 then (old(rotation) + 1) % 0x1_0000_0000_0000_0000 else old(rotation)
      ensures Value() == AfterSearch(old(Value()), wanted)
      decreases height
    {
      hide Local, Merge, InTurn, Candidates, AfterSearch, Valid, Value, FoundIn, IsAnswer, InPriorityOrder, Clean;
      ghost var t := Value();
      WholeIsParts();
      FoundInStep(t, wanted, 0);
      ready := Local(proxies, wanted);
      var n := 0;
      while n < |children|
        invariant n <= |children| == |t.children| && ready == FoundIn(t, wanted, n)
        invariant Valid() && Repr == old(Repr) && height == old(height)
        invariant proxies == old(proxies) && children == old(children) && rotation == old(rotation)
        invariant forall i :: 0 <= i < |children| ==> children[i].Valid()
        invariant forall i :: 0 <= i < n ==> children[i].Value() == AfterSearch(t.children[i], wanted)
        invariant forall i :: n <= i < |children| ==> children[i].Value() == t.children[i]
      {
        var child := children[n];
        ChildIsSmaller(n);
        label before:
        var found := child.Filtered(wanted);
        OthersUntouched@before(n);
        FoundInStep(t, wanted, n + 1);
        ready := Merged(ready, found);
        n := n + 1;
      }
      AfterSearchIs(t, wanted);
      CandidatesIs(t, wanted);
      WholeIsParts();
      label searched:
      ready := TakeTurn(ready);
      OnlyTurned@searched();
      assert Value() == AfterSearch(t, wanted);
      CandidatesInOrder(t, wanted);
      if Clean(t) { CandidatesAreComplete(t, wanted); }
    }

    lemma WholeIsParts()
      requires Valid()
      ensures Value().proxies == proxies && Value().rotation == rotation && |Value().children| == |children|
      ensures this in Repr
      ensures forall i :: 0 <= i < |children| ==> children[i].Valid() && Value().children[i] == children[i].Value()
    {
    }

    /** What happens inside one child leaves the tree a tree and the other children as they were. */
    twostate lemma OthersUntouched(n: nat)
      requires old(Valid()) && n < |children| && unchanged(this)
      requires unchanged(old(Repr) - old(children[n].Repr))
      requires children[n].Valid() && children[n].Repr == old(children[n].Repr) && children[n].height == old(children[n].height)
      ensures Valid()
      ensures forall i :: 0 <= i < |children| ==> children[i].Valid()
      ensures forall i :: 0 <= i < |children| && i != n ==> children[i].Value() == old(children[i].Value())
    {
    }

    twostate lemma OnlyTurned()
      requires old(Valid()) && unchanged(this`proxies, this`children, this`height, this`Repr)
      requires unchanged(old(Repr) - {this})
      ensures Valid() && Value() == old(Value()).(rotation := rotation)
    {
    }

    /** Sorting, and the turn that moves on when there is more than one to choose from. */
    method TakeTurn(found: seq<Proxy>) returns (ready: seq<Proxy>)
      modifies this`rotation
      ensures ready == InTurn(found, old(rotation))
      ensures rotation == if |found| > 1 then Rotation.Next(old(rotation)) else old(rotation)
    {
      ready := Sort(found);
      SortLength(found);
      if |ready| > 1 {
        var offset := Rotation.Around(rotation, |ready|);
        rotation := Rotation.Next(rotation);
        ready := Rotated(ready, offset);
      }
    }

    method ListAll() returns (all: seq<Proxy>)
      requires Valid()
      ensures all == All(Value())
      decreases height
    {
      hide Merge, All, AllIn, Valid;
      ghost var t := Value();
      AllInStep(t, 0);
      all := proxies;
      var n := 0;
      while n < |children|
        invariant n <= |children| == |t.children| && all == AllIn(t, n)
      {
        ChildIsSmaller(n);
        var more := children[n].ListAll();
        all := Merged(all, more);
        AllInStep(t, n + 1);
        n := n + 1;
      }
      AllIsWhole(t);
    }

    lemma ChildIsSmaller(n: nat)
      requires Valid() && n < |children|
      ensures children[n].Valid() && children[n].height < height && Value().children[n] == children[n].Value()
      ensures children[n].Repr <= Repr && this !in children[n].Repr
    {
    }

    method Contains(key: string) returns (contains: bool)
      requires Valid()
      ensures Clean(Value()) ==> (contains <==> HoldsKey(Value(), key))
    {
      var all := ListAll();
      contains := Knows(all, key);
      if Clean(Value()) { SearchAndListAgree(Value()); }
    }

    method Count() returns (count: nat)
      requires Valid()
      ensures count == |All(Value())|
      ensures Clean(Value()) ==> count == |Keys(All(Value()))| && forall key :: key in Keys(All(Value())) <==> HoldsKey(Value(), key)
    {
      hide All, Clean, Valid, Value;
      var all := ListAll();
      if Clean(Value()) { SearchAndListAgree(Value()); }
      return |all|;
    }
  }

  method Merged(known: seq<Proxy>, more: seq<Proxy>) returns (all: seq<Proxy>)
    ensures all == Merge(known, more)
  {
    all := known;
    for k := 0 to |more|
      invariant all == Merge(known, more[..k])
    {
      assert more[..k + 1][..k] == more[..k];
      if !Knows(all, more[k].key) {
        all := all + [more[k]];
      }
    }
    assert more[..|more|] == more;
  }

  lemma AddIs(known: seq<Proxy>, p: Proxy)
    ensures Add(known, p) == if Knows(known, p.key) then known else known + [p]
  {
  }

  lemma AllInStep(t: Tree, n: nat)
    requires n <= |t.children|
    ensures AllIn(t, n) == if n == 0 then t.proxies else Merge(AllIn(t, n - 1), All(t.children[n - 1]))
  {
    hide All, Merge;
  }

  lemma FoundInStep(t: Tree, wanted: Option<Protocol>, n: nat)
    requires n <= |t.children|
    ensures FoundIn(t, wanted, n)
         == if n == 0 then Local(t.proxies, wanted)
            else Merge(FoundIn(t, wanted, n - 1), Candidates(t.children[n - 1], wanted))
  {
    hide Candidates, Merge, Local;
  }

  lemma AfterSearchIs(t: Tree, wanted: Option<Protocol>)
    ensures AfterSearch(t, wanted).proxies == t.proxies && |AfterSearch(t, wanted).children| == |t.children|
    ensures forall i :: 0 <= i < |t.children| ==> AfterSearch(t, wanted).children[i] == AfterSearch(t.children[i], wanted)
    ensures AfterSearch(t, wanted).rotation
         == if |FoundIn(t, wanted, |t.children|)| > 1 then Rotation.Next(t.rotation) else t.rotation
  {
    hide FoundIn;
  }

  lemma CandidatesIs(t: Tree, wanted: Option<Protocol>)
    ensures Candidates(t, wanted) == InTurn(FoundIn(t, wanted, |t.children|), t.rotation)
  {
    hide FoundIn, InTurn;
  }
}
