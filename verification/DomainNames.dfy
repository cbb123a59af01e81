/** What a domain is: an address, or a name told by its characters alone. */
module DomainNames {
  import opened RewritePath

  /** No dot between two places. */
  predicate Dotless(domain: string, from: nat, to: nat)
    requires from <= to <= |domain|
  {
    forall i :: from <= i < to ==> domain[i] != '.'
  }

  predicate Inner(c: char)
  {
    'a' <= c <= 'z' || 'A' <= c <= 'Z' || '0' <= c <= '9'
  }

  /** Of two neighbours, what may stand beside a dot. */
  predicate Beside(domain: string, i: nat)
    requires i + 1 < |domain|
  {
    (domain[i] == '.' ==> Inner(domain[i + 1])) && (domain[i + 1] == '.' ==> Inner(domain[i]))
  }

  /** Letters, digits, hyphens and dots; neither a dot nor a hyphen at either end or beside a dot. */
  predicate NameChars(domain: string)
  {
    && domain != "" && Inner(domain[0]) && Inner(domain[|domain| - 1])
    && (forall i :: 0 <= i < |domain| ==> Inner(domain[i]) || domain[i] == '-' || domain[i] == '.')
    && (forall i: nat :: i < |domain| - 1 ==> Beside(domain, i))
  }

  /** No more than 63 characters without a dot. */
  predicate ShortLabels(domain: string)
  {
    forall from, to :: 0 <= from <= to <= |domain| && Dotless(domain, from, to) ==> to - from <= 63
  }

  predicate NameText(domain: string)
  {
    NameChars(domain) && ShortLabels(domain)
  }

  lemma NameAlone(domain: string)
    requires '.' !in domain
    ensures NameText(domain) <==> ValidLabel(domain)
  {
    assert domain != "" ==> Dotless(domain, 0, |domain|);
  }

  lemma NameSplits(head: string, tail: string)
    requires '.' !in head
    ensures NameText(head + "." + tail) <==> NameText(head) && NameText(tail)
  {
    hide NameChars, ShortLabels;
    CharsSplit(head, tail);
    ShortSplits(head, tail);
  }

  lemma CharsSplit(head: string, tail: string)
    requires '.' !in head
    ensures NameChars(head + "." + tail) <==> NameChars(head) && NameChars(tail)
  {
    if NameChars(head + "." + tail) { SplitChars(head, tail); }
    if NameChars(head) && NameChars(tail) { JoinChars(head, tail); }
  }

  lemma Parts(head: string, tail: string)
    ensures var domain := head + "." + tail;
            && |domain| == |head| + 1 + |tail| && domain[|head|] == '.'
            && (forall i :: 0 <= i < |head| ==> domain[i] == head[i])
            && (forall i :: 0 <= i < |tail| ==> tail[i] == domain[|head| + 1 + i])
            && (forall i :: |head| < i < |domain| ==> domain[i] == tail[i - |head| - 1])
  {
  }

  lemma SplitChars(head: string, tail: string)
    requires '.' !in head && NameChars(head + "." + tail)
    ensures NameChars(head) && NameChars(tail)
  {
    hide Inner;
    var domain, n := head + "." + tail, |head|;
    Parts(head, tail);
    DotIsNoInner();
    assert n > 0 && Beside(domain, n - 1);
    assert tail != "" && Beside(domain, n);
    forall i: nat | i < n - 1
      ensures Beside(head, i)
    {
      assert Beside(domain, i);
    }
    forall i: nat | i < |tail| - 1
      ensures Beside(tail, i)
    {
      assert Beside(domain, n + 1 + i);
    }
  }

  lemma DotIsNoInner()
    ensures !Inner('.')
  {
  }

  lemma JoinChars(head: string, tail: string)
    requires '.' !in head && NameChars(head) && NameChars(tail)
    ensures NameChars(head + "." + tail)
  {
    hide Inner;
    var domain, n := head + "." + tail, |head|;
    Parts(head, tail);
    forall i: nat | i < |domain| - 1
      ensures Beside(domain, i)
    {
      if i < n - 1 {
        assert Beside(head, i);
      } else if i > n {
        assert Beside(tail, i - n - 1);
      }
    }
  }

  lemma ShortSplits(head: string, tail: string)
    requires '.' !in head
    ensures ShortLabels(head + "." + tail) <==> ShortLabels(head) && ShortLabels(tail)
  {
    var domain, n := head + "." + tail, |head|;
    if ShortLabels(domain) {
      forall from, to | 0 <= from <= to <= n && Dotless(head, from, to)
        ensures to - from <= 63
      {
        DotlessHead(head, tail, from, to);
      }
      forall from, to | 0 <= from <= to <= |tail| && Dotless(tail, from, to)
        ensures to - from <= 63
      {
        DotlessTail(head, tail, from, to);
        assert Dotless(domain, n + 1 + from, n + 1 + to);
      }
    }
    if ShortLabels(head) && ShortLabels(tail) {
      forall from, to | 0 <= from <= to <= |domain| && Dotless(domain, from, to)
        ensures to - from <= 63
      {
        assert !(from <= n < to) by { Parts(head, tail); }
        if to <= n {
          DotlessHead(head, tail, from, to);
        } else {
          DotlessTail(head, tail, from - n - 1, to - n - 1);
          assert Dotless(tail, from - n - 1, to - n - 1);
        }
      }
    }
  }

  lemma DotlessHead(head: string, tail: string, from: nat, to: nat)
    requires from <= to <= |head|
    ensures Dotless(head + "." + tail, from, to) <==> Dotless(head, from, to)
  {
    var domain := head + "." + tail;
    assert forall i :: 0 <= i < |head| ==> head[i] == domain[i];
  }

  lemma DotlessTail(head: string, tail: string, from: nat, to: nat)
    requires from <= to <= |tail|
    ensures Dotless(head + "." + tail, |head| + 1 + from, |head| + 1 + to) <==> Dotless(tail, from, to)
  {
    Parts(head, tail);
  }

  /** The labels of a domain are all valid exactly when it is such a text. */
  lemma {:induction false} LabelsValidIff(domain: string)
    ensures AllValid(Labels(domain)) <==> NameText(domain)
    decreases |domain|
  {
    hide Find, Labels, NameText, ValidLabel;
    LabelsStep(domain);
    var i := Find(domain, '.');
    if i == |domain| {
      assert domain[..i] == domain && [domain] + [] == [domain];
      NameAlone(domain);
      AllValidFirst(domain, []);
    } else {
      var head, tail := domain[..i], domain[i + 1..];
      assert domain == head + "." + tail;
      NameSplits(head, tail);
      NameAlone(head);
      LabelsValidIff(tail);
      AllValidFirst(head, Labels(tail));
    }
  }

  lemma AllValidFirst(head: string, parts: seq<string>)
    ensures AllValid([head] + parts) <==> ValidLabel(head) && AllValid(parts)
  {
    hide ValidLabel;
    var all := [head] + parts;
    assert all[0] == head;
    assert forall i :: 0 <= i < |parts| ==> all[i + 1] == parts[i];
    assert forall i :: 0 < i < |all| ==> all[i] == parts[i - 1];
  }

  /** A domain is an address, or a name with a dot, of at most 253 characters. */
  lemma ValidDomainIff(isAddress: string -> bool, domain: string)
    ensures ValidDomain(isAddress, domain)
       <==> 1 <= |domain| <= 253 && (isAddress(domain) || ('.' in domain && NameText(domain)))
  {
    hide Labels, NameText, AllValid;
    LabelsValidIff(domain);
  }
}
