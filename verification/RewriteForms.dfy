/** Other ways to write the target of a request path that come to the same. */
module RewriteForms {
  import opened Options
  import opened RewritePath

  function Slashes(n: nat): (s: string)
    ensures |s| == n && forall i :: 0 <= i < n ==> s[i] == '/'
  {
    seq(n, _ => '/')
  }

  lemma {:induction false} TrimAll(n: nat, rest: string)
    requires rest == "" || rest[0] != '/'
    ensures TrimSlashes(Slashes(n) + rest) == rest
  {
    if n == 0 {
      assert Slashes(0) + rest == rest;
    } else {
      assert (Slashes(n) + rest)[1..] == Slashes(n - 1) + rest;
      TrimAll(n - 1, rest);
    }
  }

  /** Any number of slashes may stand in front. */
  lemma SlashesInFront(isAddress: string -> bool, n: nat, path: string, query: string)
    ensures Parse(isAddress, Slashes(n) + path, query) == Parse(isAddress, path, query)
  {
    hide ParseTarget, TakeSegments;
    TrimMore(n, path);
  }

  lemma {:induction false} TrimMore(n: nat, path: string)
    ensures TrimSlashes(Slashes(n) + path) == TrimSlashes(path)
  {
    if n == 0 {
      assert Slashes(0) + path == path;
    } else {
      assert (Slashes(n) + path)[1..] == Slashes(n - 1) + path;
      TrimMore(n - 1, path);
    }
  }

  lemma {:induction false} FindInFront(head: string, c: char, tail: string)
    requires c in head
    ensures Find(head + tail, c) == Find(head, c) < |head|
    decreases |head|
  {
    if head[0] != c {
      assert (head + tail)[1..] == head[1..] + tail;
      FindInFront(head[1..], c, tail);
    }
  }

  lemma {:induction false} AfterLastIs(user: string, c: char, domain: string)
    requires c !in domain
    ensures AfterLast(user + [c] + domain, c) == domain
    decreases |user|
  {
    var s := user + [c] + domain;
    if c in user {
      var i := Find(user, c);
      assert s == user + ([c] + domain);
      FindInFront(user, c, [c] + domain);
      assert s[i + 1..] == user[i + 1..] + [c] + domain;
      AfterLastIs(user[i + 1..], c, domain);
    } else {
      FindAt(user, c, domain);
      assert s[|user|] == c && s[|user| + 1..] == domain;
    }
  }

  /** `http:` or `https:` in any case. */
  predicate SchemeWritten(t: string)
  {
    Lower(t) == "http:" || Lower(t) == "https:"
  }

  /** Who the user is may be written before the domain. */
  function UserText(user: Option<string>): string
  {
    if user.None? then "" else user.value + "@"
  }

  /** Whether a text starts so is decided by as much of it as the prefix is long. */
  lemma StartsWithIff(t: string, rest: string, prefix: string)
    ensures |prefix| <= |t| ==> (StartsWith(t + rest, prefix) <==> StartsWith(t, prefix))
    ensures |prefix| > |t| && StartsWith(t + rest, prefix) ==> prefix[..|t|] == Lower(t)
  {
    assert Lower(t + rest)[..|t|] == Lower(t);
    if |prefix| <= |t| {
      assert Lower(t + rest)[..|prefix|] == Lower(t)[..|prefix|];
    }
  }

  lemma WrittenStarts(t: string, n: nat, rest: string)
    requires SchemeWritten(t) && rest != "" && rest[0] != '/'
    ensures var all := t + Slashes(n) + rest;
            && (StartsWith(all, "http:") <==> Lower(t) == "http:")
            && (StartsWith(all, "https:") <==> Lower(t) == "https:")
            && (StartsWith(all, "http://") <==> Lower(t) == "http:" && n >= 2)
            && (StartsWith(all, "https://") <==> Lower(t) == "https:" && n >= 2)
  {
    var all, after := t + Slashes(n) + rest, Slashes(n) + rest;
    assert all == t + after;
    TwoSlashes(t, n, rest);
    StartsWithIff(t, after, "http:");
    StartsWithIff(t, after, "https:");
    StartsWithIff(t, after, "http://");
    StartsWithIff(t, after, "https://");
    hide Lower;
    if Lower(t) == "http:" {
      assert "https:"[4] != "http:"[4] && "https://"[..5][4] != "http:"[4];
      assert "http:" + "//" == "http://";
    } else {
      assert "https:"[4] != "http:"[4] && "http://"[..6][4] != "https:"[4];
      assert "https:" + "//" == "https://";
    }
  }

  lemma SplitIs(all: string, t: string, two: bool)
    requires SchemeWritten(t) && |t| + (if two then 2 else 0) <= |all|
    requires StartsWith(all, "http:") <==> Lower(t) == "http:"
    requires StartsWith(all, "https:") <==> Lower(t) == "https:"
    requires StartsWith(all, "http://") <==> Lower(t) == "http:" && two
    requires StartsWith(all, "https://") <==> Lower(t) == "https:" && two
    ensures SplitScheme(all) == Schemed(Lower(t)[..|t| - 1], all[|t| + (if two then 2 else 0)..])
  {
    assert |Lower(t)| == |t|;
    hide StartsWith, Lower;
    assert "http:"[..4] == "http" && "https:"[..5] == "https";
  }

  /** The scheme is taken, with the slashes that follow it if there are two. */
  lemma WrittenSchemeTaken(t: string, n: nat, rest: string)
    requires SchemeWritten(t) && rest != "" && rest[0] != '/'
    ensures var s := SplitScheme(t + Slashes(n) + rest);
            s.scheme == Lower(t)[..|t| - 1] && s.rest == Slashes(if n < 2 then n else n - 2) + rest
  {
    hide SplitScheme, StartsWith;
    var all, after := t + Slashes(n) + rest, Slashes(n) + rest;
    assert all == t + after;
    WrittenStarts(t, n, rest);
    SplitIs(all, t, n >= 2);
    assert all[|t|..] == after;
    if n >= 2 {
      assert after[2..] == Slashes(n - 2) + rest;
      assert all[|t| + 2..] == after[2..];
    }
  }

  lemma TwoSlashes(t: string, n: nat, rest: string)
    requires rest != "" && rest[0] != '/'
    ensures StartsWith(t + Slashes(n) + rest, Lower(t) + "//") <==> n >= 2
  {
    var all, prefix := t + Slashes(n) + rest, Lower(t) + "//";
    if n >= 2 {
      assert Lower(all)[..|t| + 2] == prefix;
    } else {
      assert Lower(all)[|t| + n] == LowerChar(rest[0]) != '/' == prefix[|t| + n];
    }
  }

  /**
   * A target may also be written with its scheme in any case, any number of slashes after it, and a user
   * before the domain: it is the same target.
   */
  lemma WrittenForms(
    isAddress: string -> bool, s: Segments, t: string, n: nat, user: Option<string>, domain: string, path: string,
    query: string)
    requires Addresses(isAddress) && ValidDomain(isAddress, domain) && SlashLed(path)
    requires SchemeWritten(t) && (user.Some? ==> '/' !in user.value)
    requires s.rest == t + Slashes(n) + UserText(user) + domain + path
    ensures Segment(s) == None
    ensures ParseTarget(isAddress, s, query)
         == Parsed(Route(s.region, s.protocol), Target(Lower(t)[..|t| - 1], domain, if path == "" then "/" else path, query))
  {
    hide Addresses, ValidDomain, SplitScheme, Segment, Find, AfterLast, TrimSlashes, SchemeWritten;
    ValidDomainText(isAddress, domain);
    var authority := UserText(user) + domain;
    var rest := authority + path;
    assert s.rest == t + Slashes(n) + rest;
    AuthorityIs(user, domain);
    WrittenSchemeTaken(t, n, rest);
    WrittenIsNoSegment(s, t, n, authority, path);
    TrimAll(if n < 2 then n else n - 2, rest);
    AuthorityEnds(authority, path);
  }

  lemma AuthorityEnds(authority: string, path: string)
    requires '/' !in authority && SlashLed(path)
    ensures var rest := authority + path;
            var i := Find(rest, '/');
            rest[..i] == authority && (if i < |rest| then rest[i..] else "/") == if path == "" then "/" else path
  {
    var rest := authority + path;
    if path == "" {
      assert rest == authority;
      FindNone(authority, '/');
    } else {
      assert rest == authority + ['/'] + path[1..];
      FindAt(authority, '/', path[1..]);
      hide Find;
      assert rest[..|authority|] == authority && rest[|authority|..] == path;
    }
  }

  lemma AuthorityIs(user: Option<string>, domain: string)
    requires DomainText(domain) && (user.Some? ==> '/' !in user.value)
    ensures var authority := UserText(user) + domain;
            authority != "" && '/' !in authority && authority[0] != '/' && AfterLast(authority, '@') == domain
  {
    if user.Some? {
      assert UserText(user) + domain == user.value + ['@'] + domain;
      AfterLastIs(user.value, '@', domain);
    } else {
      assert UserText(user) + domain == domain;
    }
  }

  lemma WrittenIsNoSegment(s: Segments, t: string, n: nat, authority: string, path: string)
    requires SchemeWritten(t) && '/' !in authority && SlashLed(path) && s.rest == t + Slashes(n) + (authority + path)
    ensures Segment(s) == None
  {
    hide Segment;
    assert Lower(t)[|t| - 1] == ':';
    assert t[|t| - 1] == ':';
    forall i | 0 <= i < |t|
      ensures t[i] != '/'
    {
      assert LowerChar(t[i]) == Lower(t)[i];
    }
    if n == 0 {
      assert s.rest == (t + authority) + path;
      assert (t + authority)[|t| - 1] == ':';
      NoSegment(t + authority, path, s.protocol, s.region);
    } else {
      var tail := Slashes(n) + (authority + path);
      assert s.rest == t + tail && tail[0] == '/';
      NoSegment(t, tail, s.protocol, s.region);
    }
  }
}
