/** Relay addresses (`relay_target.cpp`). */
module RelayTarget {
  import opened Options

  datatype HostTarget = HostTarget(host: string, target: string)

  datatype ParsedRelayUrl = ParsedRelayUrl(secure: bool, host: string, port: string, target: string)

  /** The first position of one of the given characters, or the length of the text. */
  function FindFirstOf(s: string, cs: set<char>): (p: nat)
    ensures p <= |s|
    ensures forall i :: 0 <= i < p ==> s[i] !in cs
    ensures p < |s| ==> s[p] in cs
  {
    if s == "" || s[0] in cs then 0 else 1 + FindFirstOf(s[1..], cs)
  }

  function SplitRelayHostAndTarget(relay: string): HostTarget {
    var p := FindFirstOf(relay, {'/', '?'});
    if p == |relay| then HostTarget(relay, "/")
    else if relay[p] == '?' then HostTarget(relay[..p], "/" + relay[p..])
    else HostTarget(relay[..p], relay[p..])
  }

  const SECURE_SCHEME := "wss://"
  const PLAIN_SCHEME := "ws://"

  /** The part of an address after the scheme. */
  function ParseAfterScheme(secure: bool, port: string, value: string): Option<ParsedRelayUrl> {
    var split := SplitRelayHostAndTarget(value);
    var colon := FindFirstOf(split.host, {':'});
    var host := split.host[..colon];
    if host == "" then None
    else Some(ParsedRelayUrl(secure, host,
                             if colon < |split.host| then split.host[colon + 1..] else port, split.target))
  }

  function ParseRelayUrl(url: string): Option<ParsedRelayUrl> {
    if SECURE_SCHEME <= url then ParseAfterScheme(true, "443", url[6..])
    else if PLAIN_SCHEME <= url then ParseAfterScheme(false, "80", url[5..])
    else None
  }

  /** The text after the scheme that a parsed address stands for, with the port written out or left
      to the scheme. */
  function Written(p: ParsedRelayUrl, explicitPort: bool, target: string): string {
    p.host + (if explicitPort then ":" + p.port else "") + target
  }

  /** Host and target spell the text they were split from, up to a slash before the target. */
  lemma SplitSpells(value: string) returns (target: string)
    ensures var s := SplitRelayHostAndTarget(value);
            && value == s.host + target
            && (target == s.target || "/" + target == s.target)
            && s.target != "" && s.target[0] == '/'
            && forall i :: 0 <= i < |s.host| ==> s.host[i] !in {'/', '?'}
  {
    hide FindFirstOf;
    target := value[|SplitRelayHostAndTarget(value).host|..];
  }

  /** A parsed address has a host without separators and a target that starts with a slash, and
      spells the text it was parsed from; a missing port is the scheme's. */
  lemma ParsedSpellsValue(secure: bool, port: string, value: string) returns (explicitPort: bool, target: string)
    requires ParseAfterScheme(secure, port, value).Some?
    ensures var p := ParseAfterScheme(secure, port, value).value;
            && p.secure == secure && p.host != "" && (forall i :: 0 <= i < |p.host| ==> p.host[i] !in {':', '/', '?'})
            && p.target != "" && p.target[0] == '/' && (target == p.target || "/" + target == p.target)
            && value == Written(p, explicitPort, target)
            && (!explicitPort ==> p.port == port)
  {
    hide FindFirstOf, SplitRelayHostAndTarget;
    target := SplitSpells(value);
    var host := SplitRelayHostAndTarget(value).host;
    var colon := FindFirstOf(host, {':'});
    explicitPort := colon < |host|;
    if explicitPort {
      assert host == host[..colon] + (":" + host[colon + 1..]);
    } else {
      assert host[..colon] + "" == host;
    }
  }

  /** An address parses when something other than a separator follows the scheme. */
  lemma ParsesWhen(secure: bool, port: string, value: string)
    ensures ParseAfterScheme(secure, port, value).Some? <==> value != "" && value[0] !in {':', '/', '?'}
  {
    var p := FindFirstOf(value, {'/', '?'});
    if p > 0 {
      var c := FindFirstOf(value[..p], {':'});
      assert value[..p][0] == value[0];
    }
  }

  /** Only the two WebSocket schemes parse, and the scheme decides whether the relay is secure. */
  lemma ParsedScheme(url: string)
    requires ParseRelayUrl(url).Some?
    ensures ParseRelayUrl(url).value.secure ==> SECURE_SCHEME <= url
    ensures !ParseRelayUrl(url).value.secure ==> PLAIN_SCHEME <= url
    ensures ParseRelayUrl(url).value.host != ""
  {}

  // ----- what an address parses to -----

  /** The text of a host, and what may follow host and port. */
  predicate HostText(host: string) {
    host != "" && forall i :: 0 <= i < |host| ==> host[i] != ':' && host[i] != '/' && host[i] != '?'
  }

  predicate PortText(port: string) {
    forall i :: 0 <= i < |port| ==> port[i] != '/' && port[i] != '?'
  }

  predicate RestText(rest: string) {
    rest == "" || rest[0] == '/' || rest[0] == '?'
  }

  lemma FirstAt(s: string, cs: set<char>, k: nat)
    requires k <= |s| && (forall i :: 0 <= i < k ==> s[i] !in cs) && (k < |s| ==> s[k] in cs)
    ensures FindFirstOf(s, cs) == k
  {
    hide FindFirstOf;
  }

  /** The target is what follows host and port, with a slash put before a query and for nothing. */
  lemma SplitTarget(front: string, rest: string)
    requires PortText(front) && RestText(rest)
    ensures var s := SplitRelayHostAndTarget(front + rest);
            && s.host == front
            && (rest == "" ==> s.target == "/")
            && (rest != "" && rest[0] == '/' ==> s.target == rest)
            && (rest != "" && rest[0] == '?' ==> s.target == "/" + rest)
  {
    hide FindFirstOf;
    FirstAt(front + rest, {'/', '?'}, |front|);
    assert (front + rest)[..|front|] == front && (front + rest)[|front|..] == rest;
  }

  lemma PlainHost(secure: bool, port: string, host: string, rest: string)
    requires HostText(host) && RestText(rest)
    ensures var p := ParseAfterScheme(secure, port, host + rest);
            p == Some(ParsedRelayUrl(secure, host, port, SplitRelayHostAndTarget(host + rest).target))
  {
    hide FindFirstOf, SplitRelayHostAndTarget;
    SplitTarget(host, rest);
    FirstAt(host, {':'}, |host|);
    assert host[..|host|] == host;
  }

  lemma HostWithPort(secure: bool, default: string, host: string, port: string, rest: string)
    requires HostText(host) && PortText(port) && RestText(rest)
    ensures var value := host + ":" + port + rest;
            ParseAfterScheme(secure, default, value)
            == Some(ParsedRelayUrl(secure, host, port, SplitRelayHostAndTarget(value).target))
    ensures SplitRelayHostAndTarget(host + ":" + port + rest).host == host + ":" + port
  {
    hide FindFirstOf, SplitRelayHostAndTarget;
    var front := host + ":" + port;
    SplitTarget(front, rest);
    FirstAt(front, {':'}, |host|);
    assert front[..|host|] == host && front[|host| + 1..] == port;
  }

  /** The default port is 443 for wss:// and 80 for ws://, and a port that is written out counts. The
      target is the rest when it starts with a slash, the rest after a slash when it starts with a
      question mark, and a slash when there is none. */
  lemma AddressParses(host: string, port: string, rest: string)
    requires HostText(host) && PortText(port) && RestText(rest)
    ensures var target := if rest == "" then "/" else if rest[0] == '/' then rest else "/" + rest;
            && ParseRelayUrl("wss://" + (host + rest)) == Some(ParsedRelayUrl(true, host, "443", target))
            && ParseRelayUrl("ws://" + (host + rest)) == Some(ParsedRelayUrl(false, host, "80", target))
            && ParseRelayUrl("wss://" + (host + ":" + port + rest)) == Some(ParsedRelayUrl(true, host, port, target))
            && ParseRelayUrl("ws://" + (host + ":" + port + rest)) == Some(ParsedRelayUrl(false, host, port, target))
  {
    hide ParseAfterScheme, SplitRelayHostAndTarget;
    SchemeIsSplit(host + rest);
    SchemeIsSplit(host + ":" + port + rest);
    SplitTarget(host, rest);
    assert PortText(host + ":" + port);
    SplitTarget(host + ":" + port, rest);
    PlainHost(true, "443", host, rest);
    PlainHost(false, "80", host, rest);
    HostWithPort(true, "443", host, port, rest);
    HostWithPort(false, "80", host, port, rest);
  }

  lemma SchemeIsSplit(value: string)
    ensures ParseRelayUrl("wss://" + value) == ParseAfterScheme(true, "443", value)
    ensures ParseRelayUrl("ws://" + value) == ParseAfterScheme(false, "80", value)
  {
    hide ParseAfterScheme;
    assert ("wss://" + value)[6..] == value && ("ws://" + value)[5..] == value;
    assert ("ws://" + value)[2] != "wss://"[2];
    assert !("wss://" <= "ws://" + value);
  }

  /** Front and rest of a text after the scheme. */
  lemma SplitParts(value: string) returns (front: string, rest: string)
    ensures front == SplitRelayHostAndTarget(value).host && value == front + rest
    ensures PortText(front) && RestText(rest)
  {
    hide FindFirstOf;
    var p := FindFirstOf(value, {'/', '?'});
    front, rest := value[..p], value[p..];
  }

  lemma HostParts(front: string) returns (host: string, explicitPort: bool, port: string)
    requires PortText(front) && front[..FindFirstOf(front, {':'})] != ""
    ensures HostText(host) && PortText(port)
    ensures front == if explicitPort then host + ":" + port else host
  {
    hide FindFirstOf;
    var colon := FindFirstOf(front, {':'});
    host, explicitPort, port := front[..colon], colon < |front|, "";
    if explicitPort {
      port := front[colon + 1..];
      assert front == host + ":" + port;
    } else {
      assert front == host;
    }
  }

  /** Nothing else parses. */
  lemma ParsedIsAddress(url: string)
    returns (scheme: string, host: string, explicitPort: bool, port: string, rest: string)
    requires ParseRelayUrl(url).Some?
    ensures scheme == "wss://" || scheme == "ws://"
    ensures HostText(host) && PortText(port) && RestText(rest)
    ensures url == scheme + (if explicitPort then host + ":" + port + rest else host + rest)
  {
    hide FindFirstOf, SplitRelayHostAndTarget, HostText, PortText, RestText;
    scheme := if "wss://" <= url then "wss://" else "ws://";
    var value := url[|scheme|..];
    var front;
    front, rest := SplitParts(value);
    host, explicitPort, port := HostParts(front);
    assert url == scheme + value;
  }
}
