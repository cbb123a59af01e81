/** Request paths that name their target: `/protocol/region/scheme://domain/path`, all but the domain optional. */
module RewritePath {
  import opened Options
  import opened ProxyPools

  datatype Route = Route(region: Option<string>, protocol: Option<Protocol>)

  datatype Target = Target(scheme: string, host: string, path: string, query: string)

  datatype Parsed = Parsed(route: Route, target: Target) | Unparsed

  // ---------------------------------------------------------------- characters and strings

  function LowerChar(c: char): char
  {
    if 'A' <= c <= 'Z' then (c as int + 32) as char else c
  }

  function UpperChar(c: char): char
  {
    if 'a' <= c <= 'z' then (c as int - 32) as char else c
  }

  function Lower(s: string): (t: string)
    ensures |t| == |s| && forall i :: 0 <= i < |s| ==> t[i] == LowerChar(s[i])
  {
    seq(|s|, i requires 0 <= i < |s| => LowerChar(s[i]))
  }

  function Upper(s: string): (t: string)
    ensures |t| == |s| && forall i :: 0 <= i < |s| ==> t[i] == UpperChar(s[i])
  {
    seq(|s|, i requires 0 <= i < |s| => UpperChar(s[i]))
  }

  /** The first place of a character, or the length. */
  function Find(s: string, c: char): (i: nat)
    ensures i <= |s| && c !in s[..i] && (i < |s| ==> s[i] == c)
  {
    if s == "" || s[0] == c then 0 else 1 + Find(s[1..], c)
  }

  function TrimSlashes(s: string): (t: string)
    ensures t == "" || t[0] != '/'
  {
    if s != "" && s[0] == '/' then TrimSlashes(s[1..]) else s
  }

  /** What comes after the last occurrence of a character. */
  function AfterLast(s: string, c: char): string
  {
    if c in s then AfterLast(s[Find(s, c) + 1..], c) else s
  }

  function ParseProtocol(s: string): Option<Protocol>
  {
    if Lower(s) == "ssh" then Some(Ssh) else if Lower(s) == "vpn" then Some(Vpn) else None
  }

  function ProtocolName(p: Protocol): string
  {
    match p
    case Ssh => "ssh"
    case Vpn => "vpn"
  }

  // ---------------------------------------------------------------- domains

  function Labels(domain: string): seq<string>
    decreases |domain|
  {
    var i := Find(domain, '.');
    if i == |domain| then [domain] else [domain[..i]] + Labels(domain[i + 1..])
  }

  predicate LabelChar(c: char)
  {
    'a' <= c <= 'z' || 'A' <= c <= 'Z' || '0' <= c <= '9' || c == '-'
  }

  predicate ValidLabel(part: string)
  {
    0 < |part| <= 63 && part[0] != '-' && part[|part| - 1] != '-' && forall i :: 0 <= i < |part| ==> LabelChar(part[i])
  }

  predicate AllValid(parts: seq<string>)
  {
    forall i :: 0 <= i < |parts| ==> ValidLabel(parts[i])
  }

  /** Which strings are addresses is left to the parser of addresses. */
  predicate ValidDomain(isAddress: string -> bool, domain: string)
  {
    0 < |domain| <= 253 && (isAddress(domain) || ('.' in domain && AllValid(Labels(domain))))
  }

  predicate AddressChar(c: char)
  {
    '0' <= c <= '9' || 'a' <= c <= 'f' || 'A' <= c <= 'F' || c == '.' || c == ':'
  }

  /** What is asked of it: addresses are made of hexadecimal digits, dots and colons, with a dot or a colon. */
  ghost predicate Addresses(isAddress: string -> bool)
  {
    forall s :: isAddress(s) ==> ('.' in s || ':' in s) && forall i :: 0 <= i < |s| ==> AddressChar(s[i])
  }

  lemma AddressesCanBe()
    ensures Addresses(s => s == "127.0.0.1" || s == "::1")
  {
  }

  // ---------------------------------------------------------------- parsing

  /** What is left to parse, and what has been found. */
  datatype Segments = Segments(rest: string, protocol: Option<Protocol>, region: Option<string>)

  /** One turn of the loop: takes a leading segment, or nothing. */
  function Segment(s: Segments): Option<Segments>
  {
    var i := Find(s.rest, '/');
    if i == |s.rest| then None
    else
      var head, tail := s.rest[..i], s.rest[i + 1..];
      if head == "" || '.' in head || ':' in head then None
      else if s.protocol.None? && ParseProtocol(head).Some? then Some(Segments(tail, ParseProtocol(head), s.region))
      else if s.region.None? then Some(Segments(tail, s.protocol, Some(Upper(head))))
      else None
  }

  function TakeSegments(s: Segments, turns: nat): Segments
    decreases turns
  {
    if turns == 0 || Segment(s).None? then s else TakeSegments(Segment(s).value, turns - 1)
  }

  datatype Schemed = Schemed(scheme: string, rest: string)

  predicate StartsWith(s: string, prefix: string)
  {
    prefix <= Lower(s)
  }

  function SplitScheme(s: string): Schemed
  {
    if StartsWith(s, "https://") then Schemed("https", s[8..])
    else if StartsWith(s, "http://") then Schemed("http", s[7..])
    else if StartsWith(s, "https:") then Schemed("https", s[6..])
    else if StartsWith(s, "http:") then Schemed("http", s[5..])
    else Schemed("https", s)
  }

  function ParseTarget(isAddress: string -> bool, s: Segments, query: string): Parsed
  {
    var schemed := SplitScheme(s.rest);
    var rest := TrimSlashes(schemed.rest);
    if rest == "" then Unparsed
    else
      var i := Find(rest, '/');
      var domain := AfterLast(rest[..i], '@');
      if !ValidDomain(isAddress, domain) then Unparsed
      else
        var path := if i < |rest| then rest[i..] else "/";
        Parsed(Route(s.region, s.protocol), Target(schemed.scheme, domain, path, query))
  }

  function Parse(isAddress: string -> bool, path: string, query: string): Parsed
  {
    var rest := TrimSlashes(path);
    if rest == "" then Unparsed
    else ParseTarget(isAddress, TakeSegments(Segments(rest, None, None), 2), query)
  }

  method ParsePath(isAddress: string -> bool, path: string, query: string) returns (parsed: Parsed)
    ensures parsed == Parse(isAddress, path, query)
  {
    hide ParseTarget, ParseProtocol, Upper;
    var rest := TrimSlashes(path);
    if rest == "" {
      return Unparsed;
    }
    var protocol: Option<Protocol> := None;
    var region: Option<string> := None;
    var turn := 0;
    while turn < 2
      invariant 0 <= turn <= 2
      invariant TakeSegments(Segments(rest, protocol, region), 2 - turn) == TakeSegments(Segments(TrimSlashes(path), None, None), 2)
    {
      var i := Find(rest, '/');
      if i == |rest| {
        break;
      }
      var head, tail := rest[..i], rest[i + 1..];
      if head == "" || '.' in head || ':' in head {
        break;
      }
      if protocol.None? && ParseProtocol(head).Some? {
        protocol := ParseProtocol(head);
      } else if region.None? {
        region := Some(Upper(head));
      } else {
        break;
      }
      rest := tail;
      turn := turn + 1;
    }
    return ParseTarget(isAddress, Segments(rest, protocol, region), query);
  }

  // ---------------------------------------------------------------- printing

  /** How a target's scheme is written: not at all, or in front of the domain. */
  datatype Scheme = Absent | Http | Https

  function SchemeText(scheme: Scheme): string
  {
    match scheme
    case Absent => ""
    case Http => "http://"
    case Https => "https://"
  }

  function SchemeName(scheme: Scheme): string
  {
    if scheme == Http then "http" else "https"
  }

  function Name(protocol: Option<Protocol>): Option<string>
  {
    if protocol.None? then None else Some(ProtocolName(protocol.value))
  }

  /** A segment in front of the rest, if there is one. */
  function Before(segment: Option<string>, rest: string): string
  {
    if segment.None? then rest else segment.value + "/" + rest
  }

  /** The documented form without its leading slash, with the protocol before the region or after it. */
  function Text(protocol: Option<Protocol>, region: Option<string>, swapped: bool, rest: string): string
  {
    if swapped then Before(region, Before(Name(protocol), rest)) else Before(Name(protocol), Before(region, rest))
  }

  function Print(protocol: Option<Protocol>, region: Option<string>, swapped: bool, scheme: Scheme, domain: string, path: string)
    : string
  {
    "/" + Text(protocol, region, swapped, SchemeText(scheme) + domain + path)
  }

  predicate SegmentText(s: string)
  {
    s != "" && '/' !in s && '.' !in s && ':' !in s
  }

  /** A region that can be told from a protocol where it stands. */
  predicate ValidRegion(protocol: Option<Protocol>, region: Option<string>, swapped: bool)
  {
    region.Some? ==> SegmentText(region.value) && (protocol.None? || swapped ==> ParseProtocol(region.value).None?)
  }

  predicate SlashLed(path: string)
  {
    path == "" || path[0] == '/'
  }

  function Uppercase(region: Option<string>): Option<string>
  {
    if region.None? then None else Some(Upper(region.value))
  }

  // ---------------------------------------------------------------- what a domain looks like

  /** No slash and no at sign, a dot or a colon, and no `http:` at the beginning. */
  predicate DomainText(domain: string)
  {
    && domain != "" && '/' !in domain && '@' !in domain && ('.' in domain || ':' in domain)
    && (LowerChar(domain[0]) == 'h' ==> ':' !in domain)
  }

  lemma LabelsStep(domain: string)
    ensures var i := Find(domain, '.');
            Labels(domain) == if i == |domain| then [domain] else [domain[..i]] + Labels(domain[i + 1..])
  {
    hide Find;
  }

  lemma {:induction false} LabelsText(domain: string, k: nat)
    requires AllValid(Labels(domain)) && k < |domain|
    ensures domain[k] == '.' || LabelChar(domain[k])
    decreases |domain|
  {
    hide Find, Labels, LabelChar;
    LabelsStep(domain);
    var i := Find(domain, '.');
    assert ValidLabel(Labels(domain)[0]);
    if k > i {
      var tail := domain[i + 1..];
      var parts := Labels(tail);
      forall n | 0 <= n < |parts|
        ensures ValidLabel(parts[n])
      {
        assert Labels(domain)[n + 1] == parts[n];
      }
      LabelsText(tail, k - i - 1);
    } else if k < i {
      assert domain[k] == Labels(domain)[0][k];
    }
  }

  lemma ValidDomainText(isAddress: string -> bool, domain: string)
    requires Addresses(isAddress) && ValidDomain(isAddress, domain)
    ensures DomainText(domain)
  {
    if isAddress(domain) {
      assert AddressChar(domain[0]);
    } else {
      forall k | 0 <= k < |domain|
        ensures domain[k] == '.' || LabelChar(domain[k])
      {
        LabelsText(domain, k);
      }
    }
  }

  // ---------------------------------------------------------------- printing and parsing

  lemma {:induction false} FindAt(head: string, c: char, tail: string)
    requires c !in head
    ensures Find(head + [c] + tail, c) == |head|
    decreases |head|
  {
    var s := head + [c] + tail;
    if head != "" {
      assert s[1..] == head[1..] + [c] + tail;
      FindAt(head[1..], c, tail);
    }
  }

  lemma {:induction false} FindNone(s: string, c: char)
    requires c !in s
    ensures Find(s, c) == |s|
  {
    if s != "" { FindNone(s[1..], c); }
  }

  lemma SegmentIs(head: string, tail: string, protocol: Option<Protocol>, region: Option<string>)
    requires SegmentText(head)
    ensures var s := Segments(head + "/" + tail, protocol, region);
            Segment(s) == if protocol.None? && ParseProtocol(head).Some? then Some(Segments(tail, ParseProtocol(head), region))
                          else if region.None? then Some(Segments(tail, protocol, Some(Upper(head))))
                          else None
  {
    hide ParseProtocol, Upper;
    var rest := head + "/" + tail;
    FindAt(head, '/', tail);
    assert rest[..|head|] == head && rest[|head| + 1..] == tail;
  }

  lemma NoSegment(head: string, tail: string, protocol: Option<Protocol>, region: Option<string>)
    requires '/' !in head && ('.' in head || ':' in head) && SlashLed(tail)
    ensures Segment(Segments(head + tail, protocol, region)) == None
  {
    hide Find, ParseProtocol, Upper;
    var rest := head + tail;
    if tail == "" {
      assert rest == head;
      FindNone(head, '/');
    } else {
      assert rest == head + ['/'] + tail[1..];
      FindAt(head, '/', tail[1..]);
      assert rest[..|head|] == head;
    }
  }

  /** A target is no segment: what stands before its first slash has a dot or a colon. */
  lemma TargetIsNoSegment(scheme: Scheme, domain: string, path: string, protocol: Option<Protocol>, region: Option<string>)
    requires DomainText(domain) && SlashLed(path)
    ensures Segment(Segments(SchemeText(scheme) + domain + path, protocol, region)) == None
  {
    hide Segment;
    var rest := SchemeText(scheme) + domain + path;
    match scheme
    case Absent =>
      assert rest == domain + path;
      NoSegment(domain, path, protocol, region);
    case Http =>
      assert rest == "http:" + ("//" + domain + path);
      assert "http:"[4] == ':';
      NoSegment("http:", "//" + domain + path, protocol, region);
    case Https =>
      assert rest == "https:" + ("//" + domain + path);
      assert "https:"[5] == ':';
      NoSegment("https:", "//" + domain + path, protocol, region);
  }

  lemma ProtocolNameParses(p: Protocol)
    ensures ParseProtocol(ProtocolName(p)) == Some(p) && SegmentText(ProtocolName(p))
  {
    assert Lower("ssh") == "ssh" && Lower("vpn") == "vpn";
  }

  /** Two turns find the printed protocol and region, in either order. */
  lemma SegmentsFound(protocol: Option<Protocol>, region: Option<string>, swapped: bool, rest: string)
    requires ValidRegion(protocol, region, swapped)
    requires Segment(Segments(rest, protocol, Uppercase(region))) == None
    ensures TakeSegments(Segments(Text(protocol, region, swapped, rest), None, None), 2)
         == Segments(rest, protocol, Uppercase(region))
  {
    hide Segment, ParseProtocol, Upper, SegmentText;
    if protocol.Some? { ProtocolNameParses(protocol.value); }
    if region.Some? && protocol.Some? {
      var name, r := ProtocolName(protocol.value), region.value;
      if swapped {
        SegmentIs(r, Before(Some(name), rest), None, None);
        SegmentIs(name, rest, None, Some(Upper(r)));
      } else {
        SegmentIs(name, Before(Some(r), rest), None, None);
        SegmentIs(r, rest, protocol, None);
      }
    } else if region.Some? {
      SegmentIs(region.value, rest, None, None);
    } else if protocol.Some? {
      SegmentIs(ProtocolName(protocol.value), rest, None, None);
    }
  }

  lemma LowerPrefix(prefix: string, s: string)
    requires Lower(prefix) == prefix
    ensures prefix <= Lower(prefix + s)
  {
    assert forall i :: 0 <= i < |prefix| ==> Lower(prefix + s)[i] == Lower(prefix)[i];
  }

  lemma SchemeFound(scheme: Scheme, domain: string, path: string)
    requires DomainText(domain) && SlashLed(path)
    ensures SplitScheme(SchemeText(scheme) + domain + path) == Schemed(SchemeName(scheme), domain + path)
  {
    var text := SchemeText(scheme);
    var s := text + domain + path;
    assert s == text + (domain + path);
    assert s[|text|..] == domain + path;
    match scheme
    case Https =>
      assert Lower("https://") == "https://";
      LowerPrefix("https://", domain + path);
    case Http =>
      assert Lower("http://") == "http://";
      LowerPrefix("http://", domain + path);
      assert Lower(s)[4] == ':';
    case Absent =>
      NoScheme(domain, path);
      assert s == domain + path;
  }

  lemma NoScheme(domain: string, path: string)
    requires DomainText(domain) && SlashLed(path)
    ensures !StartsWith(domain + path, "http:") && !StartsWith(domain + path, "https:")
    ensures !StartsWith(domain + path, "http://") && !StartsWith(domain + path, "https://")
  {
    var s := domain + path;
    assert forall i :: 0 <= i < |domain| ==> s[i] == domain[i] && s[i] in domain;
    forall k | 0 < k < |s| && LowerChar(s[0]) == 'h' && LowerChar(s[k]) == ':'
      ensures exists i :: 0 <= i < k && s[i] == '/'
    {
      assert s[0] == domain[0];
      assert s[|domain|] == path[0];
    }
    NoSlashBefore(s, "http:");
    NoSlashBefore(s, "https:");
    NoSlashBefore(s, "http://");
    NoSlashBefore(s, "https://");
  }

  lemma NoSlashBefore(s: string, prefix: string)
    requires prefix == "http:" || prefix == "https:" || prefix == "http://" || prefix == "https://"
    ensures StartsWith(s, prefix) ==>
      exists k :: 0 < k < |s| && LowerChar(s[0]) == 'h' && LowerChar(s[k]) == ':' && forall i :: 0 <= i < k ==> s[i] != '/'
  {
    if StartsWith(s, prefix) {
      var k := if prefix[4] == ':' then 4 else 5;
      assert prefix[k] == ':' && prefix[0] == 'h';
      assert LowerChar(s[0]) == 'h' && LowerChar(s[k]) == ':';
      forall i | 0 <= i < k
        ensures s[i] != '/'
      {
        assert LowerChar(s[i]) == prefix[i] != '/';
      }
    }
  }

  lemma TargetFound(
    isAddress: string -> bool, s: Segments, scheme: Scheme, domain: string, path: string, query: string)
    requires Addresses(isAddress) && ValidDomain(isAddress, domain) && SlashLed(path)
    requires s.rest == SchemeText(scheme) + domain + path
    ensures ParseTarget(isAddress, s, query)
         == Parsed(Route(s.region, s.protocol), Target(SchemeName(scheme), domain, if path == "" then "/" else path, query))
  {
    hide Addresses, ValidDomain, SplitScheme;
    ValidDomainText(isAddress, domain);
    SchemeFound(scheme, domain, path);
    var rest := domain + path;
    assert rest[0] == domain[0] != '/';
    if path == "" {
      assert rest == domain;
      FindNone(domain, '/');
    } else {
      assert rest == domain + ['/'] + path[1..];
      FindAt(domain, '/', path[1..]);
      assert rest[|domain|..] == path;
    }
    assert rest[..|domain|] == domain;
  }

  /** Whatever is printed in the documented form parses back, wherever the protocol stands. */
  lemma PrintParses(
    isAddress: string -> bool, protocol: Option<Protocol>, region: Option<string>, swapped: bool, scheme: Scheme,
    domain: string, path: string, query: string)
    requires Addresses(isAddress) && ValidDomain(isAddress, domain) && SlashLed(path)
    requires ValidRegion(protocol, region, swapped)
    ensures Parse(isAddress, Print(protocol, region, swapped, scheme, domain, path), query)
         == Parsed(Route(Uppercase(region), protocol),
                   Target(SchemeName(scheme), domain, if path == "" then "/" else path, query))
  {
    hide Addresses, ValidDomain, TakeSegments, ParseTarget, Upper, ParseProtocol;
    ValidDomainText(isAddress, domain);
    var rest := SchemeText(scheme) + domain + path;
    TargetIsNoSegment(scheme, domain, path, protocol, Uppercase(region));
    SegmentsFound(protocol, region, swapped, rest);
    var text := Print(protocol, region, swapped, scheme, domain, path);
    assert rest[0] != '/';
    if protocol.Some? { ProtocolNameParses(protocol.value); }
    assert text[1..] == Text(protocol, region, swapped, rest) != "" && text[1] != '/';
    assert TrimSlashes(text[1..]) == text[1..] && TrimSlashes(text) == text[1..];
    TargetFound(isAddress, TakeSegments(Segments(text[1..], None, None), 2), scheme, domain, path, query);
  }

  /** A region in front that is a protocol's name is taken for one, and the protocol for the region. */
  lemma RegionTakenForProtocol(
    isAddress: string -> bool, p: Protocol, region: string, scheme: Scheme, domain: string, path: string, query: string)
    requires Addresses(isAddress) && ValidDomain(isAddress, domain) && SlashLed(path)
    requires SegmentText(region) && ParseProtocol(region).Some?
    ensures Parse(isAddress, Print(Some(p), Some(region), true, scheme, domain, path), query)
         == Parsed(Route(Some(Upper(ProtocolName(p))), ParseProtocol(region)),
                   Target(SchemeName(scheme), domain, if path == "" then "/" else path, query))
  {
    hide Addresses, ValidDomain, Segment, ParseTarget, Upper, ParseProtocol;
    ValidDomainText(isAddress, domain);
    ProtocolNameParses(p);
    var name, rest := ProtocolName(p), SchemeText(scheme) + domain + path;
    var found := Segments(rest, ParseProtocol(region), Some(Upper(name)));
    SegmentIs(region, Before(Some(name), rest), None, None);
    SegmentIs(name, rest, ParseProtocol(region), None);
    var text := Text(Some(p), Some(region), true, rest);
    assert Print(Some(p), Some(region), true, scheme, domain, path)[1..] == text;
    assert text[0] == region[0] != '/';
    assert TrimSlashes(text) == text;
    TakesBoth(Segments(text, None, None), Segments(Before(Some(name), rest), ParseProtocol(region), None), found);
    TargetFound(isAddress, found, scheme, domain, path, query);
  }

  lemma TakesBoth(s: Segments, once: Segments, twice: Segments)
    requires Segment(s) == Some(once) && Segment(once) == Some(twice)
    ensures TakeSegments(s, 2) == twice
  {
    hide Segment;
    assert TakeSegments(once, 1) == TakeSegments(twice, 0);
  }

  /**
   * The protocol and the region may stand in either order exactly when the region is not the name
   * of another protocol.
   */
  lemma OrderMattersIff(
    isAddress: string -> bool, p: Protocol, region: string, scheme: Scheme, domain: string, path: string, query: string)
    requires Addresses(isAddress) && ValidDomain(isAddress, domain) && SlashLed(path) && SegmentText(region)
    ensures Parse(isAddress, Print(Some(p), Some(region), true, scheme, domain, path), query)
         == Parse(isAddress, Print(Some(p), Some(region), false, scheme, domain, path), query)
       <==> ParseProtocol(region).None? || ParseProtocol(region) == Some(p)
  {
    hide Parse, Print, Upper;
    PrintParses(isAddress, Some(p), Some(region), false, scheme, domain, path, query);
    if ParseProtocol(region).None? {
      PrintParses(isAddress, Some(p), Some(region), true, scheme, domain, path, query);
    } else {
      RegionTakenForProtocol(isAddress, p, region, scheme, domain, path, query);
      if ParseProtocol(region) == Some(p) { NamesAlike(region, ProtocolName(p)); }
    }
  }

  lemma NamesAlike(a: string, b: string)
    requires Lower(a) == b
    ensures Upper(a) == Upper(b)
  {
    assert forall i :: 0 <= i < |a| ==> Lower(a)[i] == b[i];
  }

  // ---------------------------------------------------------------- parsing and printing

  lemma UpperKeeps(s: string)
    requires SegmentText(s)
    ensures SegmentText(Upper(s)) && Upper(Upper(s)) == Upper(s) && ParseProtocol(Upper(s)) == ParseProtocol(s)
  {
    forall i | 0 <= i < |s|
      ensures Upper(s)[i] != '/' && Upper(s)[i] != '.' && Upper(s)[i] != ':'
    {
      assert s[i] in s;
    }
    assert Lower(Upper(s)) == Lower(s);
  }

  /** What the loop has found can be printed and found again. */
  predicate Printable(s: Segments)
  {
    ValidRegion(s.protocol, s.region, false) && Uppercase(s.region) == s.region
  }

  lemma SegmentPrintable(s: Segments)
    requires Printable(s) && Segment(s).Some?
    ensures Printable(Segment(s).value)
  {
    hide ParseProtocol, Upper;
    var head := s.rest[..Find(s.rest, '/')];
    UpperKeeps(head);
  }

  lemma {:induction false} SegmentsPrintable(s: Segments, turns: nat)
    requires Printable(s)
    ensures Printable(TakeSegments(s, turns))
    decreases turns
  {
    hide Segment, Printable;
    if turns > 0 && Segment(s).Some? {
      SegmentPrintable(s);
      SegmentsPrintable(Segment(s).value, turns - 1);
    }
  }

  /** Every path that parses has a documented form that parses to the same. */
  lemma ParsePrints(isAddress: string -> bool, path: string, query: string)
    requires Addresses(isAddress) && Parse(isAddress, path, query).Parsed?
    ensures var p := Parse(isAddress, path, query);
            var scheme := if p.target.scheme == "http" then Http else Https;
            && ValidDomain(isAddress, p.target.host) && p.target.scheme == SchemeName(scheme) && p.target.path != ""
            && SlashLed(p.target.path) && ValidRegion(p.route.protocol, p.route.region, false)
            && Parse(isAddress, Print(p.route.protocol, p.route.region, false, scheme, p.target.host, p.target.path), query)
               == p
  {
    hide Addresses, ValidDomain, TakeSegments, ParseProtocol, Upper, Print, TrimSlashes, AfterLast;
    var s := TakeSegments(Segments(TrimSlashes(path), None, None), 2);
    SegmentsPrintable(Segments(TrimSlashes(path), None, None), 2);
    var p := Parse(isAddress, path, query);
    assert p == ParseTarget(isAddress, s, query);
    var scheme := if p.target.scheme == "http" then Http else Https;
    PrintParses(isAddress, p.route.protocol, p.route.region, false, scheme, p.target.host, p.target.path, query);
  }
}
