/** Finding the relays to monitor (`bootstrap_client.cpp`). The network answers for each seed relay
    are given as values; the processing of the address lists and the choice among the seeds are the
    program's. */
module Bootstrap {
  import opened Options
  import opened RelayTarget

  predicate Parses(url: string) {
    ParseRelayUrl(url).Some?
  }

  predicate Secure(url: string) {
    Parses(url) && ParseRelayUrl(url).value.secure
  }

  // ----- lists -----

  /** The elements that satisfy p, in order. */
  function Select(xs: seq<string>, p: string -> bool): seq<string> {
    if xs == [] then []
    else
      var n := |xs| - 1;
      Select(xs[..n], p) + (if p(xs[n]) then [xs[n]] else [])
  }

  /** The first occurrence of every element, in order. */
  function Distinct(xs: seq<string>): seq<string> {
    if xs == [] then []
    else
      var n := |xs| - 1;
      var r := Distinct(xs[..n]);
      if xs[n] in r then r else r + [xs[n]]
  }

  function Deduplicated(xs: seq<string>): seq<string> {
    Distinct(Select(xs, Parses))
  }

  function Supported(xs: seq<string>): seq<string> {
    Deduplicated(Select(xs, Secure))
  }

  method Deduplicate(values: seq<string>) returns (out: seq<string>)
    ensures out == Deduplicated(values)
    ensures FirstOccurrences(out, values, Parses)
  {
    hide ParseRelayUrl, FirstOccurrences, Select, Distinct;
    DeduplicatedIs(values);
    SelectEmpty(Parses);
    out := [];
    var seen: set<string> := {};
    for i := 0 to |values|
      invariant out == Distinct(Select(values[..i], Parses))
      invariant forall x :: x in seen <==> x in out
    {
      var value := values[i];
      assert values[..i + 1] == values[..i] + [value];
      SelectStep(values[..i], value, Parses);
      if !Parses(value) {
        continue;
      }
      DistinctStep(Select(values[..i], Parses), value);
      if value !in seen {
        seen := seen + {value};
        out := out + [value];
      }
    }
    assert values[..|values|] == values;
  }

  method FilterSupportedRelayUrls(relayUrls: seq<string>) returns (out: seq<string>, insecureCount: nat)
    ensures out == Supported(relayUrls)
    ensures FirstOccurrences(out, relayUrls, Secure)
    ensures insecureCount == |set i: nat | i < |relayUrls| && Parses(relayUrls[i]) && !Secure(relayUrls[i])|
  {
    hide ParseRelayUrl, FirstOccurrences;
    SupportedIs(relayUrls);
    var filtered: seq<string> := [];
    insecureCount := 0;
    ghost var plain := (u: string) => Parses(u) && !Secure(u);
    for i := 0 to |relayUrls|
      invariant filtered == Select(relayUrls[..i], Secure)
      invariant insecureCount == |Select(relayUrls[..i], plain)|
    {
      var url := relayUrls[i];
      assert relayUrls[..i + 1] == relayUrls[..i] + [url];
      SelectStep(relayUrls[..i], url, Secure);
      SelectStep(relayUrls[..i], url, plain);
      if !Parses(url) {
        continue;
      }
      if !Secure(url) {
        insecureCount := insecureCount + 1;
        continue;
      }
      filtered := filtered + [url];
    }
    assert relayUrls[..|relayUrls|] == relayUrls;
    SelectCount(relayUrls, plain);
    assert Places(relayUrls, plain)
        == set i: nat | i < |relayUrls| && Parses(relayUrls[i]) && !Secure(relayUrls[i]);
    out := Deduplicate(filtered);
  }

  lemma SelectStep(xs: seq<string>, x: string, p: string -> bool)
    ensures Select(xs + [x], p) == if p(x) then Select(xs, p) + [x] else Select(xs, p)
  {
    assert (xs + [x])[..|xs|] == xs;
  }

  lemma DistinctStep(xs: seq<string>, x: string)
    ensures Distinct(xs + [x]) == if x in Distinct(xs) then Distinct(xs) else Distinct(xs) + [x]
  {
    assert (xs + [x])[..|xs|] == xs;
  }

  lemma {:induction false} SelectMembers(xs: seq<string>, p: string -> bool)
    ensures forall x :: x in Select(xs, p) <==> x in xs && p(x)
  {
    if xs != [] {
      var n := |xs| - 1;
      SelectMembers(xs[..n], p);
      assert xs == xs[..n] + [xs[n]];
    }
  }

  predicate NoDuplicates(xs: seq<string>) {
    forall i, j :: 0 <= i < j < |xs| ==> xs[i] != xs[j]
  }

  lemma {:induction false} DistinctMembers(xs: seq<string>)
    ensures NoDuplicates(Distinct(xs)) && forall x :: x in Distinct(xs) <==> x in xs
  {
    if xs != [] {
      var n := |xs| - 1;
      DistinctMembers(xs[..n]);
      assert xs == xs[..n] + [xs[n]];
    }
  }

  /** Selecting and removing repetitions can be done in either order. */
  lemma {:induction false} SelectOfDistinct(xs: seq<string>, p: string -> bool)
    ensures Select(Distinct(xs), p) == Distinct(Select(xs, p))
  {
    if xs != [] {
      var n := |xs| - 1;
      var x := xs[n];
      SelectOfDistinct(xs[..n], p);
      assert xs == xs[..n] + [x];
      SelectStep(xs[..n], x, p);
      DistinctStep(xs[..n], x);
      DistinctStep(Select(xs[..n], p), x);
      SelectStep(Distinct(xs[..n]), x, p);
      SelectMembers(Distinct(xs[..n]), p);
    }
  }

  lemma {:induction false} SelectTwice(xs: seq<string>, p: string -> bool, q: string -> bool)
    requires forall x :: p(x) ==> q(x)
    ensures Select(Select(xs, p), q) == Select(xs, p) && Select(Select(xs, q), p) == Select(xs, p)
  {
    if xs != [] {
      var n := |xs| - 1;
      SelectTwice(xs[..n], p, q);
      assert xs == xs[..n] + [xs[n]];
      SelectStep(xs[..n], xs[n], p);
      SelectStep(xs[..n], xs[n], q);
      SelectStep(Select(xs[..n], p), xs[n], q);
      SelectStep(Select(xs[..n], q), xs[n], p);
    }
  }

  lemma {:induction false} DistinctOfDistinct(xs: seq<string>)
    requires NoDuplicates(xs)
    ensures Distinct(xs) == xs
  {
    if xs != [] {
      var n := |xs| - 1;
      DistinctOfDistinct(xs[..n]);
      assert xs == xs[..n] + [xs[n]];
    }
  }

  /** The supported addresses are the first occurrences of the secure ones, and removing
      repetitions beforehand changes nothing. */
  lemma EarlyDeduplication(xs: seq<string>)
    ensures Supported(xs) == Distinct(Select(xs, Secure))
    ensures Supported(Deduplicated(xs)) == Supported(xs)
  {
    hide ParseRelayUrl;
    SelectTwice(xs, Secure, Parses);
    var ys := Deduplicated(xs);
    SelectTwice(ys, Secure, Parses);
    SelectOfDistinct(Select(xs, Parses), Secure);
    DistinctMembers(Select(xs, Secure));
    DistinctOfDistinct(Distinct(Select(xs, Secure)));
  }

  lemma SupportedMembers(xs: seq<string>)
    ensures NoDuplicates(Supported(xs)) && forall x :: x in Supported(xs) <==> x in xs && Secure(x)
  {
    hide ParseRelayUrl;
    EarlyDeduplication(xs);
    SelectMembers(xs, Secure);
    DistinctMembers(Select(xs, Secure));
  }

  /** The position of the first occurrence. */
  function FirstIndex(xs: seq<string>, x: string): (i: nat)
    requires x in xs
    ensures i < |xs| && xs[i] == x && x !in xs[..i]
  {
    if xs[0] == x then 0 else 1 + FirstIndex(xs[1..], x)
  }

  lemma FirstIndexUnique(xs: seq<string>, x: string)
    requires x in xs
    ensures forall i :: 0 <= i < |xs| && xs[i] == x && x !in xs[..i] ==> i == FirstIndex(xs, x)
  {
    forall i | 0 <= i < |xs| && xs[i] == x && x !in xs[..i]
      ensures i == FirstIndex(xs, x)
    {
      var k := FirstIndex(xs, x);
      assert forall m :: 0 <= m < i ==> xs[..i][m] == xs[m];
      assert forall m :: 0 <= m < k ==> xs[..k][m] == xs[m];
    }
  }

  lemma FirstIndexExtends(xs: seq<string>, n: nat, x: string)
    requires n <= |xs| && x in xs[..n]
    ensures x in xs && FirstIndex(xs, x) == FirstIndex(xs[..n], x)
  {
    var k := FirstIndex(xs[..n], x);
    assert xs[..n][..k] == xs[..k];
    FirstIndexUnique(xs, x);
  }

  /** r holds the elements of xs that satisfy p, each once, in the order of their first occurrences. */
  ghost predicate FirstOccurrences(r: seq<string>, xs: seq<string>, p: string -> bool) {
    && NoDuplicates(r)
    && (forall x :: x in r <==> x in xs && p(x))
    && forall i, j :: 0 <= i < j < |r| ==> r[i] in xs && r[j] in xs && FirstIndex(xs, r[i]) < FirstIndex(xs, r[j])
  }

  lemma LastIsFirst(xs: seq<string>)
    requires xs != [] && xs[|xs| - 1] !in xs[..|xs| - 1]
    ensures FirstIndex(xs, xs[|xs| - 1]) == |xs| - 1
  {
    FirstIndexUnique(xs, xs[|xs| - 1]);
  }

  /** Selected elements without repetition stand in the order of their first occurrences. */
  lemma {:induction false} SelectedOrder(xs: seq<string>, p: string -> bool, i: nat, j: nat)
    requires i < j < |Distinct(Select(xs, p))|
    ensures var r := Distinct(Select(xs, p));
            r[i] in xs && r[j] in xs && FirstIndex(xs, r[i]) < FirstIndex(xs, r[j])
  {
    hide Select, Distinct, FirstIndex;
    SelectEmpty(p);
    var n := |xs| - 1;
    var last, before := xs[n], Distinct(Select(xs[..n], p));
    assert xs == xs[..n] + [last];
    SelectStep(xs[..n], last, p);
    DistinctStep(Select(xs[..n], p), last);
    var x, y := Distinct(Select(xs, p))[i], Distinct(Select(xs, p))[j];
    SelectedMembers(xs, p, x);
    SelectedMembers(xs, p, y);
    SelectedMembers(xs[..n], p, x);
    SelectedMembers(xs[..n], p, y);
    assert x == before[i];
    FirstIndexExtends(xs, n, x);
    if j < |before| {
      SelectedOrder(xs[..n], p, i, j);
      FirstIndexExtends(xs, n, y);
    } else {
      LastIsFirst(xs);
    }
  }

  lemma SelectEmpty(p: string -> bool)
    ensures Select([], p) == [] && Distinct([]) == []
  {}

  lemma SelectedMembers(xs: seq<string>, p: string -> bool, x: string)
    ensures x in Distinct(Select(xs, p)) <==> x in xs && p(x)
  {
    hide Select, Distinct;
    SelectMembers(xs, p);
    DistinctMembers(Select(xs, p));
  }

  lemma DistinctSelect(xs: seq<string>, p: string -> bool)
    ensures FirstOccurrences(Distinct(Select(xs, p)), xs, p)
  {
    hide Select, Distinct, FirstIndex, NoDuplicates;
    SelectMembers(xs, p);
    DistinctMembers(Select(xs, p));
    var r := Distinct(Select(xs, p));
    forall i, j | 0 <= i < j < |r|
      ensures r[i] in xs && r[j] in xs && FirstIndex(xs, r[i]) < FirstIndex(xs, r[j])
    {
      SelectedOrder(xs, p, i, j);
    }
  }

  lemma DeduplicatedIs(xs: seq<string>)
    ensures FirstOccurrences(Deduplicated(xs), xs, Parses)
  {
    hide ParseRelayUrl;
    DistinctSelect(xs, Parses);
  }

  lemma SupportedIs(xs: seq<string>)
    ensures FirstOccurrences(Supported(xs), xs, Secure)
  {
    hide ParseRelayUrl;
    EarlyDeduplication(xs);
    DistinctSelect(xs, Secure);
  }

  /** The places of the elements that satisfy p. */
  ghost function Places(xs: seq<string>, p: string -> bool): set<nat> {
    set i: nat | i < |xs| && p(xs[i])
  }

  lemma PlacesStep(xs: seq<string>, x: string, p: string -> bool)
    ensures |Places(xs + [x], p)| == |Places(xs, p)| + if p(x) then 1 else 0
  {
    var before, after := Places(xs, p), Places(xs + [x], p);
    assert forall i: nat :: i < |xs| ==> (xs + [x])[i] == xs[i];
    if p(x) {
      assert after == before + {|xs|};
    } else {
      assert after == before;
    }
  }

  lemma {:induction false} SelectCount(xs: seq<string>, p: string -> bool)
    ensures |Select(xs, p)| == |Places(xs, p)|
  {
    if xs == [] {
      assert Places(xs, p) == {};
    } else {
      hide Places, Select;
      var n := |xs| - 1;
      SelectCount(xs[..n], p);
      assert xs == xs[..n] + [xs[n]];
      SelectStep(xs[..n], xs[n], p);
      PlacesStep(xs[..n], xs[n], p);
    }
  }

  /** An address parses when something other than a separator follows one of the two schemes, and is
      secure when that is the secure one. */
  lemma WhatParses(url: string)
    ensures Secure(url) <==> "wss://" <= url && |url| > 6 && url[6] != ':' && url[6] != '/' && url[6] != '?'
    ensures Parses(url) <==>
            Secure(url) || ("ws://" <= url && |url| > 5 && url[5] != ':' && url[5] != '/' && url[5] != '?')
  {
    hide ParseAfterScheme;
    if "wss://" <= url {
      assert url[2] == 's';
      ParsesWhen(true, "443", url[6..]);
      ParsedSecure(true, "443", url[6..]);
    } else if "ws://" <= url {
      ParsesWhen(false, "80", url[5..]);
      ParsedSecure(false, "80", url[5..]);
    }
  }

  lemma ParsedSecure(secure: bool, port: string, value: string)
    ensures ParseAfterScheme(secure, port, value).Some? ==> ParseAfterScheme(secure, port, value).value.secure == secure
  {}

  // ----- one seed relay -----

  datatype BootstrapResult = BootstrapResult(ok: bool, relayUrls: seq<string>, sourceEventKind: string, error: string)

  const NO_RESULT := BootstrapResult(false, [], "", "")

  /** How the network answers: an exception, or the addresses in the events of kind 10002 and then,
      when they are asked for, those in the events of kind 3 or an exception. */
  datatype Reply = Raises(what: string) | Answers(sniOk: bool, kind10002: seq<string>, kind3: Kind3)
  datatype Kind3 = Urls(urls: seq<string>) | Kind3Raises(what: string)

  datatype Outcome = Returned(result: BootstrapResult) | Exception(what: string)

  const FALLBACK := ["wss://nos.lol", "wss://relay.snort.social"]

  predicate SomeParses(xs: seq<string>) {
    exists u :: u in xs && Parses(u)
  }

  predicate SomeSecure(xs: seq<string>) {
    exists u :: u in xs && Secure(u)
  }

  /** A query that does not fail. */
  predicate Succeeds(seed: string, pubkey: string, reply: Reply) {
    && pubkey != "" && Parses(seed)
    && reply.Answers? && (Secure(seed) ==> reply.sniOk) && (SomeParses(reply.kind10002) || reply.kind3.Urls?)
  }

  /** The list that a query takes is the one of kind 10002 if something in it parses, otherwise the one
      of kind 3. The result is the secure addresses in it, or when there are none, in the fallback. */
  method QuerySeedRelay(seed: string, pubkey: string, reply: Reply) returns (outcome: Outcome)
    ensures outcome.Returned? && outcome.result.ok <==> Succeeds(seed, pubkey, reply)
    ensures pubkey == "" ==> outcome == Returned(BootstrapResult(false, [], "", "empty hex pubkey"))
    ensures pubkey != "" && !Parses(seed) ==>
              outcome == Returned(BootstrapResult(false, [], "", "invalid seed relay url"))
    ensures pubkey != "" && Parses(seed) && reply.Raises? ==> outcome == Exception(reply.what)
    ensures pubkey != "" && Secure(seed) && reply.Answers? && !reply.sniOk ==>
              outcome == Returned(BootstrapResult(false, [], "", "failed to set SNI"))
    ensures pubkey != "" && Parses(seed) && reply.Answers? && (Secure(seed) ==> reply.sniOk)
            && !SomeParses(reply.kind10002) && reply.kind3.Kind3Raises?
            ==> outcome == Exception(reply.kind3.what)
    ensures Succeeds(seed, pubkey, reply) ==>
              var taken := if SomeParses(reply.kind10002) then reply.kind10002 else reply.kind3.urls;
              && outcome.result.relayUrls != []
              && (SomeSecure(taken) ==>
                    && FirstOccurrences(outcome.result.relayUrls, taken, Secure)
                    && outcome.result.sourceEventKind == (if SomeParses(reply.kind10002) then "10002" else "3"))
              && (!SomeSecure(taken) ==>
                    && FirstOccurrences(outcome.result.relayUrls,
                                        [seed, "wss://nos.lol", "wss://relay.snort.social"], Secure)
                    && outcome.result.sourceEventKind == "fallback")
              && outcome.result.error == (if SomeParses(taken) then "" else "no relay list found in kinds 10002/3")
  {
    hide ParseRelayUrl, Supported, Deduplicated, FirstIndex, NoDuplicates;
    var result := NO_RESULT;
    if pubkey == "" {
      return Returned(result.(error := "empty hex pubkey"));
    }
    var parsed := ParseRelayUrl(seed);
    if parsed == None {
      return Returned(result.(error := "invalid seed relay url"));
    }
    if reply.Raises? {
      return Exception(reply.what);
    }
    if parsed.value.secure && !reply.sniOk {
      return Returned(result.(error := "failed to set SNI"));
    }
    ghost var taken := reply.kind10002;
    var relays := Deduplicate(reply.kind10002);
    FoundSomething(relays, reply.kind10002);
    if relays != [] {
      result := result.(ok := true, sourceEventKind := "10002", relayUrls := relays);
    } else {
      match reply.kind3 {
        case Kind3Raises(what) =>
          return Exception(what);
        case Urls(urls) =>
          taken := urls;
          relays := Deduplicate(urls);
          FoundSomething(relays, urls);
          result := result.(ok := relays != [], sourceEventKind := if relays != [] then "3" else "none",
                            relayUrls := relays);
          if !result.ok {
            result := result.(error := "no relay list found in kinds 10002/3");
          }
      }
    }
    var filtered, insecure := FilterSupportedRelayUrls(result.relayUrls);
    FilteredTaken(filtered, result.relayUrls, taken);
    result := result.(relayUrls := filtered);
    if filtered == [] {
      filtered, insecure := FilterSupportedRelayUrls([seed] + FALLBACK);
      FallbackIsSupported(seed);
      assert [seed] + FALLBACK == [seed, "wss://nos.lol", "wss://relay.snort.social"];
      result := result.(relayUrls := filtered, ok := true, sourceEventKind := "fallback");
    }
    return Returned(result);
  }

  lemma FoundSomething(r: seq<string>, xs: seq<string>)
    requires FirstOccurrences(r, xs, Parses)
    ensures r != [] <==> SomeParses(xs)
  {
    hide ParseRelayUrl, FirstIndex, NoDuplicates;
    if r != [] {
      assert r[0] in r;
    }
  }

  /** Filtering the first occurrences is filtering the list. */
  lemma FilteredTaken(filtered: seq<string>, r: seq<string>, xs: seq<string>)
    requires filtered == Supported(r) && r == Deduplicated(xs)
    ensures FirstOccurrences(filtered, xs, Secure)
    ensures filtered != [] <==> SomeSecure(xs)
  {
    hide ParseRelayUrl, Supported, Deduplicated, FirstIndex, NoDuplicates;
    EarlyDeduplication(xs);
    SupportedIs(xs);
    if filtered != [] {
      assert filtered[0] in filtered;
    }
  }

  lemma FallbackIsSupported(seed: string)
    ensures Supported([seed] + FALLBACK) != []
  {
    var url := FALLBACK[0];
    assert url[6..] == "nos.lol";
    ParsesWhen(true, "443", url[6..]);
    hide ParseAfterScheme, Supported;
    assert SECURE_SCHEME <= url && url[6..][0] == 'n';
    assert Secure(url);
    SupportedMembers([seed] + FALLBACK);
    assert ([seed] + FALLBACK)[1] == url;
  }

  // ----- all candidates -----

  const WELL_KNOWN := [
    "wss://nos.lol", "wss://relay.nostr.band", "wss://relay.snort.social", "wss://nostr.wine", "wss://relay.primal.net"
  ]

  /** What every result the loop can hold satisfies. */
  predicate Sound(result: BootstrapResult) {
    if result.ok then
      result.relayUrls != [] && NoDuplicates(result.relayUrls) && forall u :: u in result.relayUrls ==> Secure(u)
    else result.relayUrls == []
  }

  /** Tries the candidates in order; reply k answers candidate k. An exception leaves the result of
      the candidate before in place, but marks it as failed. */
  method ResolveRelaysForPubkey(pubkey: string, seed: string, replies: seq<Reply>) returns (result: BootstrapResult)
    requires |replies| == 6
    ensures Sound(result)
    ensures var candidates := [seed, "wss://nos.lol", "wss://relay.nostr.band", "wss://relay.snort.social",
                               "wss://nostr.wine", "wss://relay.primal.net"];
            && (result.ok <==> exists k :: 0 <= k < 6 && Succeeds(candidates[k], pubkey, replies[k]))
            && (forall k :: 0 <= k < 6 && Succeeds(candidates[k], pubkey, replies[k])
                            && (forall j :: 0 <= j < k ==> !Succeeds(candidates[j], pubkey, replies[j])) ==>
                  var reply := replies[k];
                  var taken := if SomeParses(reply.kind10002) then reply.kind10002 else reply.kind3.urls;
                  && (SomeSecure(taken) ==>
                        && FirstOccurrences(result.relayUrls, taken, Secure)
                        && result.sourceEventKind == (if SomeParses(reply.kind10002) then "10002" else "3"))
                  && (!SomeSecure(taken) ==>
                        && FirstOccurrences(result.relayUrls,
                                            [candidates[k], "wss://nos.lol", "wss://relay.snort.social"], Secure)
                        && result.sourceEventKind == "fallback"))
    ensures !result.ok ==>
              var reply := replies[5];
              && result.relayUrls == [] && result.sourceEventKind == ""
              && result.error == (if pubkey == "" then "empty hex pubkey"
                                  else if reply.Raises? then reply.what
                                  else if !reply.sniOk then "failed to set SNI"
                                  else if reply.kind3.Kind3Raises? then reply.kind3.what else "")
  {
    hide ParseRelayUrl, Parses, Secure, Succeeds, SomeParses, SomeSecure, FirstOccurrences, NoDuplicates;
    var candidates := [seed] + WELL_KNOWN;
    assert candidates == [seed, "wss://nos.lol", "wss://relay.nostr.band", "wss://relay.snort.social",
                          "wss://nostr.wine", "wss://relay.primal.net"];
    result := NO_RESULT;
    for i := 0 to 6
      invariant !result.ok && result.relayUrls == [] && result.sourceEventKind == ""
      invariant forall j :: 0 <= j < i ==> !Succeeds(candidates[j], pubkey, replies[j])
      invariant i == 6 ==>
                  result.error == (if pubkey == "" then "empty hex pubkey"
                                   else if replies[5].Raises? then replies[5].what
                                   else if !replies[5].sniOk then "failed to set SNI"
                                   else if replies[5].kind3.Kind3Raises? then replies[5].kind3.what else "")
    {
      var outcome := QuerySeedRelay(candidates[i], pubkey, replies[i]);
      WhyFailed(candidates[i], pubkey, replies[i]);
      if i == 5 {
        LastIsSecure();
      }
      match outcome {
        case Returned(r) =>
          result := r;
          if result.ok {
            ResultIsSound(result, candidates[i], pubkey, replies[i]);
            break;
          }
        case Exception(what) =>
          result := result.(ok := false, error := what);
      }
    }
  }

  /** A query that fails has one of five causes. */
  lemma WhyFailed(seed: string, pubkey: string, reply: Reply)
    ensures Secure(seed) ==> Parses(seed)
    ensures Succeeds(seed, pubkey, reply)
            || pubkey == "" || !Parses(seed) || reply.Raises? || (Secure(seed) && !reply.sniOk)
            || (!SomeParses(reply.kind10002) && reply.kind3.Kind3Raises?)
    ensures pubkey != "" && Parses(seed) && reply.Answers? && (Secure(seed) ==> reply.sniOk) && reply.kind3.Urls?
            ==> Succeeds(seed, pubkey, reply)
    ensures pubkey != "" && Parses(seed) && reply.Answers? && (Secure(seed) ==> reply.sniOk)
            && SomeParses(reply.kind10002)
            ==> Succeeds(seed, pubkey, reply)
  {
    hide ParseRelayUrl;
  }

  lemma SchemeBefore(name: string)
    requires name != "" && name[0] != ':' && name[0] != '/' && name[0] != '?'
    ensures Secure("wss://" + name)
  {
    hide Secure, ParseRelayUrl;
    var url := "wss://" + name;
    assert url[6] == name[0] && "wss://" <= url;
    WhatParses(url);
  }

  lemma LastIsSecure()
    ensures Secure("wss://relay.primal.net")
  {
    hide *;
    var name := "relay.primal.net";
    assert name[0] == 'r';
    SchemeBefore(name);
    assert "wss://" + name == "wss://relay.primal.net";
  }

  lemma ResultIsSound(result: BootstrapResult, seed: string, pubkey: string, reply: Reply)
    requires Succeeds(seed, pubkey, reply) && result.ok && result.relayUrls != []
    requires var taken := if SomeParses(reply.kind10002) then reply.kind10002 else reply.kind3.urls;
             && (SomeSecure(taken) ==> FirstOccurrences(result.relayUrls, taken, Secure))
             && (!SomeSecure(taken) ==>
                   FirstOccurrences(result.relayUrls, [seed, "wss://nos.lol", "wss://relay.snort.social"], Secure))
    ensures Sound(result)
  {
    hide ParseRelayUrl, Secure, Parses, FirstIndex;
  }
}
