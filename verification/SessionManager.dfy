/** The manager of all sessions (`session_manager.cpp`). */
module SessionManagerModel {
  import opened RelayStatsModel
  import opened RelaySessionModel
  import opened MultiSession
  import opened SessionRuns
  import Model = SessionModel
  import Bootstrap
  import Reconnect
  import RelayTarget

  /** The first n sessions are stopped one after the other. */
  function StopEach(w: World, n: nat, now: int): (r: World)
    requires WellFormed(w) && n <= |w.urls|
    ensures WellFormed(r) && r.urls == w.urls
  {
    if n == 0 then w else AfterMove(StopEach(w, n - 1, now), Move(n - 1, Model.Action(Model.Stop, now, 0)))
  }

  /** One more session, not started yet. */
  function Joined(w: World, url: string): World {
    World(w.urls + [url], w.sessions + [Model.NEW_SESSION], w.table)
  }

  /** A session for each address, created and started one after the other. */
  function StartEach(t: Table, urls: seq<string>, now: int): (r: World)
    ensures WellFormed(r) && r.urls == urls
  {
    if urls == [] then World([], [], t)
    else
      var n := |urls| - 1;
      AfterMove(Joined(StartEach(t, urls[..n], now), urls[n]), Move(n, Model.Action(Model.Start, now, 0)))
  }

  /** The moves that start the first n sessions. */
  function Starts(n: nat, now: int): seq<Move> {
    if n == 0 then [] else Starts(n - 1, now) + [Move(n - 1, Model.Action(Model.Start, now, 0))]
  }

  /** What a list of session objects and a table stand for. */
  ghost function WorldOf(ss: seq<RelaySession>, t: Table): (w: World)
    reads ss
    ensures WellFormed(w) && |w.urls| == |ss| && w.table == t
  {
    World(seq(|ss|, i requires 0 <= i < |ss| => ss[i].url),
          seq(|ss|, i requires 0 <= i < |ss| reads ss => ss[i].State()),
          t)
  }

  ghost predicate Separate(ss: seq<RelaySession>, stats: RelayStats) {
    && (forall i :: 0 <= i < |ss| ==> ss[i].stats == stats)
    && (forall i, j :: 0 <= i < j < |ss| ==> ss[i] != ss[j])
  }

  /** A step of one session changes its own part of the world. */
  lemma StepOf(w: World, r: World, m: Move)
    requires WellFormed(w) && WellFormed(r) && w.urls == r.urls && m.who < |w.urls|
    requires View(r, m.who) == Model.Apply(w.urls[m.who], View(w, m.who), m.action)
    requires SameElsewhere(w.table, r.table, w.urls[m.who])
    requires forall i :: 0 <= i < |w.urls| && i != m.who ==> w.sessions[i] == r.sessions[i]
    ensures r == AfterMove(w, m)
  {
    hide Model.Apply;
    EntryStays(w.urls[m.who], View(w, m.who), m.action);
    TableIs(w.table, r.table, w.urls[m.who]);
  }

  lemma TableIs(t: Table, t': Table, url: string)
    requires SameElsewhere(t, t', url) && (url in t ==> url in t')
    ensures t' == Put(t, url, Lookup(t', url))
  {
    var p := Put(t, url, Lookup(t', url));
    forall u
      ensures Lookup(p, u) == Lookup(t', u)
    {
      if u != url {
        assert Lookup(t, u) == Lookup(t', u);
      }
    }
    assert forall u :: (u in p <==> Lookup(p, u).Some?) && (u in t' <==> Lookup(t', u).Some?);
  }

  lemma NoSessions(t: Table, urls: seq<string>, now: int)
    ensures WorldOf([], t) == StartEach(t, urls[..0], now)
  {}

  lemma OneMoreStarted(t: Table, urls: seq<string>, i: nat, now: int)
    requires i < |urls|
    ensures StartEach(t, urls[..i + 1], now) ==
            AfterMove(Joined(StartEach(t, urls[..i], now), urls[i]), Move(i, Model.Action(Model.Start, now, 0)))
  {
    hide AfterMove, Joined;
    assert urls[..i + 1][..i] == urls[..i];
  }

  // ----- started sessions are a world of interleaved steps -----

  /** Sessions that are not started yet, next to those of a world. */
  function Padded(w: World, rest: seq<string>): World {
    World(w.urls + rest, w.sessions + seq(|rest|, i => Model.NEW_SESSION), w.table)
  }

  lemma PaddedStep(w: World, url: string, rest: seq<string>, m: Move)
    requires WellFormed(w) && m.who == |w.urls|
    ensures WellFormed(Padded(w, [url] + rest))
    ensures AfterMove(Padded(w, [url] + rest), m) == Padded(AfterMove(Joined(w, url), m), rest)
  {
    hide Model.Apply;
    var p, j := Padded(w, [url] + rest), Joined(w, url);
    assert p.urls == Padded(j, rest).urls;
    assert p.sessions == Padded(j, rest).sessions;
    assert View(p, m.who) == View(j, m.who);
  }

  lemma {:induction false} StartsSoFar(urls: seq<string>, t: Table, k: nat, now: int)
    requires k <= |urls|
    ensures Possible(NewWorld(urls, t), Starts(k, now))
    ensures After(NewWorld(urls, t), Starts(k, now)) == Padded(StartEach(t, urls[..k], now), urls[k..])
  {
    hide AfterMove, Joined, Possible, After, StartEach;
    var w := NewWorld(urls, t);
    if k == 0 {
      NothingHappens(w);
      NoSessions(t, urls, now);
      assert urls[0..] == urls && urls[..0] == [];
    } else {
      StartsSoFar(urls, t, k - 1, now);
      var m := Move(k - 1, Model.Action(Model.Start, now, 0));
      assert urls[k - 1..] == [urls[k - 1]] + urls[k..];
      PaddedStep(StartEach(t, urls[..k - 1], now), urls[k - 1], urls[k..], m);
      MoveExtends(w, Starts(k - 1, now), m);
      OneMoreStarted(t, urls, k - 1, now);
    }
  }

  /** What Start leaves behind over a table is reached by start steps of its sessions. */
  lemma StartIsInterleaving(urls: seq<string>, t: Table, now: int)
    ensures Possible(NewWorld(urls, t), Starts(|urls|, now))
    ensures After(NewWorld(urls, t), Starts(|urls|, now)) == StartEach(t, urls, now)
  {
    hide AfterMove, Joined, Possible, After, StartEach;
    var n := |urls|;
    StartsSoFar(urls, t, n, now);
    var w := StartEach(t, urls, now);
    assert urls[..n] == urls && urls[n..] == [];
    assert w.urls + [] == w.urls && w.sessions + seq(0, i => Model.NEW_SESSION) == w.sessions;
  }

  lemma {:induction false} MovesSplit(w: World, xs: seq<Move>, ys: seq<Move>)
    requires WellFormed(w) && Possible(w, xs) && Possible(After(w, xs), ys)
    ensures Possible(w, xs + ys) && After(w, xs + ys) == After(After(w, xs), ys)
    ensures Events(xs + ys) == Events(xs) + Events(ys)
  {
    hide AfterMove, Model.Enabled;
    if ys == [] {
      assert xs + ys == xs;
    } else {
      var n := |ys| - 1;
      MovesSplit(w, xs, ys[..n]);
      assert (xs + ys)[..|xs + ys| - 1] == xs + ys[..n];
    }
  }

  lemma {:induction false} StartsHaveNoEvents(n: nat, now: int)
    ensures Events(Starts(n, now)) == 0 && NoStop(Starts(n, now))
  {
    if n > 0 {
      StartsHaveNoEvents(n - 1, now);
      assert Starts(n, now)[..|Starts(n, now)| - 1] == Starts(n - 1, now);
    }
  }

  lemma {:induction false} StaysStarted(w: World, moves: seq<Move>, i: nat)
    requires WellFormed(w) && Possible(w, moves) && i < |w.urls| && w.sessions[i].started
    ensures After(w, moves).sessions[i].started
  {
    hide Model.Enabled;
    if moves != [] {
      var n := |moves| - 1;
      StaysStarted(w, moves[..n], i);
      ApplyStarted(w.urls[moves[n].who], View(After(w, moves[..n]), moves[n].who), moves[n].action);
    }
  }

  /** Only Start starts a session, and nothing undoes it. */
  lemma ApplyStarted(url: string, l: Model.Local, a: Model.Action)
    ensures Model.Apply(url, l, a).session.started == (l.session.started || a.event.Start?)
  {
    hide RelayTarget.ParseRelayUrl, Model.MarkError, WithStatus, WithEvent, Ensured, Model.Finish;
    forall op
      ensures Model.Finish(l, op).session.started == l.session.started
    {
      FinishStarted(l, op);
    }
    forall k: Model.Local, where, message
      ensures Model.MarkError(url, k, where, message, a.now, a.jitter).session.started == k.session.started
    {
      ErrorStarted(url, k, where, message, a.now, a.jitter);
    }
  }

  lemma FinishStarted(l: Model.Local, op: Model.Operation)
    ensures Model.Finish(l, op).session.started == l.session.started
  {}

  lemma ErrorStarted(url: string, l: Model.Local, where: Reconnect.Stage, message: string, now: int, jitter: nat)
    ensures Model.MarkError(url, l, where, message, now, jitter).session.started == l.session.started
  {
    hide Reconnect.ComputeReconnectDelayMs;
  }

  lemma {:induction false} AllStarted(t: Table, urls: seq<string>, now: int)
    ensures forall s :: s in StartEach(t, urls, now).sessions ==> s.started
  {
    hide Model.Apply;
    if urls != [] {
      var n := |urls| - 1;
      AllStarted(t, urls[..n], now);
      var w := Joined(StartEach(t, urls[..n], now), urls[n]);
      ApplyStarted(urls[n], View(w, n), Model.Action(Model.Start, now, 0));
    }
  }

  /** After Start over any table, in every interleaving of the sessions for distinct addresses
      without Stop, Aggregate reports what the sessions are doing, next to the entries for other
      addresses that the table already held. */
  lemma StartedAgree(urls: seq<string>, t: Table, now: int, moves: seq<Move>, a: AggregateStats)
    requires Bootstrap.NoDuplicates(urls) && ConsistentTable(t)
    requires Possible(StartEach(t, urls, now), moves) && NoStop(moves)
    requires IsAggregate(a, After(StartEach(t, urls, now), moves).table)
    ensures var w := After(StartEach(t, urls, now), moves);
            var rest := Leftover(t, urls);
            && a.connectedRelays == |Those(w, Reading)| + |WithStatusIn(rest, Subscribed)|
            && a.erroredRelays == |Those(w, Failing)| + |WithStatusIn(rest, Error)|
            && a.totalEvents == (EventSum(t) + Events(moves)) % UINT64
  {
    hide AfterMove, Possible, After, StartEach, Starts, NoStop, Those, IsAggregate, Events;
    hide Leftover, WithStatusIn, EventSum, ConsistentTable;
    var starts := Starts(|urls|, now);
    StartIsInterleaving(urls, t, now);
    StartsHaveNoEvents(|urls|, now);
    MovesSplit(NewWorld(urls, t), starts, moves);
    NoStopInBoth(starts, moves);
    AllStarted(t, urls, now);
    var w := StartEach(t, urls, now);
    forall i | 0 <= i < |urls|
      ensures After(w, moves).sessions[i].started
    {
      assert w.sessions[i] in w.sessions;
      StaysStarted(w, moves, i);
    }
    Agreement(urls, t, starts + moves, a);
  }

  /** From the bootstrap to the status line: after Start over an empty table, in every interleaving
      without Stop of the sessions for a successful bootstrap result, Aggregate reports as many
      connected relays as sessions that write their request or read, as many errored relays as
      sessions that wait for a timer or for nothing, and each handled EVENT message once. */
  lemma MonitoringAgrees(result: Bootstrap.BootstrapResult, now: int, moves: seq<Move>, a: AggregateStats)
    requires Bootstrap.Sound(result) && result.ok
    requires Possible(StartEach(map[], result.relayUrls, now), moves) && NoStop(moves)
    requires IsAggregate(a, After(StartEach(map[], result.relayUrls, now), moves).table)
    ensures var w := After(StartEach(map[], result.relayUrls, now), moves);
            && a.connectedRelays == |Those(w, Reading)|
            && a.erroredRelays == |Those(w, Failing)|
            && (Events(moves) < UINT64 ==> a.totalEvents == Events(moves))
            && forall i :: 0 <= i < |w.urls| ==> Monitored(w.urls[i])
  {
    hide Possible, After, StartEach, NoStop, Those, IsAggregate, Events;
    hide Leftover, WithStatusIn, EventSum, ConsistentTable;
    BootstrapListIsMonitored(result);
    NothingLeftOver(result.relayUrls);
    StartedAgree(result.relayUrls, map[], now, moves, a);
  }

  /** After a second Start, while the sessions that were stopped take no step: the relay counts agree
      if and only if no entry that is left over for another address says Subscribed or Error. */
  lemma RestartAgrees(v: World, urls: seq<string>, now: int, moves: seq<Move>, a: AggregateStats)
    requires WellFormed(v) && ConsistentTable(v.table) && Bootstrap.NoDuplicates(urls)
    requires var t := StopEach(v, |v.urls|, now).table;
             && Possible(StartEach(t, urls, now), moves) && NoStop(moves)
             && IsAggregate(a, After(StartEach(t, urls, now), moves).table)
    ensures var t := StopEach(v, |v.urls|, now).table;
            var w := After(StartEach(t, urls, now), moves);
            a.connectedRelays == |Those(w, Reading)| && a.erroredRelays == |Those(w, Failing)|
            <==> forall u :: u in t && u !in urls ==> t[u].status !in {Subscribed, Error}
  {
    hide AfterMove, Possible, After, StartEach, StopEach, NoStop, Those, IsAggregate, Events, EventSum, ConsistentTable;
    var t := StopEach(v, |v.urls|, now).table;
    StopsConsistent(v, |v.urls|, now);
    StartedAgree(urls, t, now, moves, a);
    NoneWithStatus(t, urls, Subscribed);
    NoneWithStatus(t, urls, Error);
  }

  lemma NoneWithStatus(t: Table, urls: seq<string>, status: RelayStatus)
    ensures |WithStatusIn(Leftover(t, urls), status)| == 0 <==>
            forall u :: u in t && u !in urls ==> t[u].status != status
  {
    var s := WithStatusIn(Leftover(t, urls), status);
    forall u
      ensures u in s <==> u in t && u !in urls && t[u].status == status
    {}
    if |s| == 0 {
      assert s == {};
    } else {
      var u :| u in s;
    }
  }

  lemma {:induction false} StopsConsistent(v: World, n: nat, now: int)
    requires WellFormed(v) && ConsistentTable(v.table) && n <= |v.urls|
    ensures ConsistentTable(StopEach(v, n, now).table)
  {
    hide Model.Apply;
    if n > 0 {
      StopsConsistent(v, n - 1, now);
      var w := StopEach(v, n - 1, now);
      StopConsistent(v.urls[n - 1], View(w, n - 1), now);
    }
  }

  lemma StopConsistent(url: string, l: Model.Local, now: int)
    requires Consistent(l.entry)
    ensures Consistent(Model.Apply(url, l, Model.Action(Model.Stop, now, 0)).entry)
  {}

  /** A forgotten session with an operation in flight can write over the entry of the new session
      for the same address: it says Error while the new session resolves. */
  lemma ForgottenSessionInterferes(url: string, t: Table)
    requires Monitored(url)
    ensures var w := NewWorld([url, url], t);
            var moves := [Move(0, Model.Action(Model.Start, 0, 0)), Move(0, Model.Action(Model.Stop, 0, 0)),
                          Move(1, Model.Action(Model.Start, 0, 0)),
                          Move(0, Model.Action(Model.Resolved(Model.Bad("")), 0, 0))];
            && Possible(w, moves)
            && After(w, moves).sessions[1].outstanding == multiset{Model.Resolution}
            && !After(w, moves).sessions[1].stopped
            && url in After(w, moves).table && After(w, moves).table[url].status == Error
  {
    hide Possible, After, RelayTarget.ParseRelayUrl, Reconnect.ComputeReconnectDelayMs;
    var w := NewWorld([url, url], t);
    var start, stop := Move(0, Model.Action(Model.Start, 0, 0)), Move(0, Model.Action(Model.Stop, 0, 0));
    var again := Move(1, Model.Action(Model.Start, 0, 0));
    var fail := Move(0, Model.Action(Model.Resolved(Model.Bad("")), 0, 0));
    NothingHappens(w);
    MoveExtends(w, [], start);
    assert [] + [start] == [start];
    MoveExtends(w, [start], stop);
    assert [start] + [stop] == [start, stop];
    MoveExtends(w, [start, stop], again);
    assert [start, stop] + [again] == [start, stop, again];
    MoveExtends(w, [start, stop, again], fail);
    assert [start, stop, again] + [fail] == [start, stop, again, fail];
  }

  lemma NoStopInBoth(xs: seq<Move>, ys: seq<Move>)
    requires NoStop(xs) && NoStop(ys)
    ensures NoStop(xs + ys)
  {}

  class SessionManager {
    const stats: RelayStats
    var sessions: seq<RelaySession>

    constructor (sharedStats: RelayStats)
      ensures stats == sharedStats && sessions == []
    {
      stats := sharedStats;
      sessions := [];
    }

    method StopAll(now: int)
      requires Separate(sessions, stats)
      modifies this, sessions, stats
      ensures sessions == []
      ensures WorldOf(old(sessions), stats.byRelay) ==
              StopEach(old(WorldOf(sessions, stats.byRelay)), old(|sessions|), now)
    {
      hide AfterMove, WorldOf;
      ghost var w := WorldOf(sessions, stats.byRelay);
      for i := 0 to |sessions|
        invariant sessions == old(sessions)
        invariant WorldOf(sessions, stats.byRelay) == StopEach(w, i, now)
      {
        StopOne(sessions[i], now, i);
      }
      sessions := [];
    }

    method StopOne(s: RelaySession, now: int, ghost i: nat)
      requires Separate(sessions, stats) && i < |sessions| && sessions[i] == s
      modifies s, stats
      ensures WorldOf(sessions, stats.byRelay) ==
              AfterMove(old(WorldOf(sessions, stats.byRelay)), Move(i, Model.Action(Model.Stop, now, 0)))
    {
      hide Model.Apply;
      ghost var w := WorldOf(sessions, stats.byRelay);
      ghost var a := Model.Action(Model.Stop, now, 0);
      assert View(w, i) == s.Here();
      s.Stop(now);
      StepOf(w, WorldOf(sessions, stats.byRelay), Move(i, a));
    }

    /** Stops what runs, and creates and starts a session for each address. */
    method Start(relayUrls: seq<string>, now: int)
      requires Separate(sessions, stats)
      modifies this, sessions, stats
      ensures Separate(sessions, stats) && fresh(sessions)
      ensures var stopped := StopEach(old(WorldOf(sessions, stats.byRelay)), old(|sessions|), now);
              WorldOf(sessions, stats.byRelay) == StartEach(stopped.table, relayUrls, now)
    {
      hide AfterMove, StopEach, WorldOf, Joined, StartEach;
      ghost var t := StopEach(WorldOf(sessions, stats.byRelay), |sessions|, now).table;
      ghost var was := sessions;
      StopAll(now);
      assert WorldOf(was, stats.byRelay).table == stats.byRelay;
      NoSessions(t, relayUrls, now);
      for i := 0 to |relayUrls|
        invariant Separate(sessions, stats) && fresh(sessions)
        invariant WorldOf(sessions, stats.byRelay) == StartEach(t, relayUrls[..i], now)
      {
        OneMoreStarted(t, relayUrls, i, now);
        StartOne(relayUrls[i], now);
      }
      assert relayUrls[..|relayUrls|] == relayUrls;
    }

    method StartOne(relayUrl: string, now: int)
      requires Separate(sessions, stats)
      modifies this, stats
      ensures Separate(sessions, stats)
      ensures |sessions| == |old(sessions)| + 1 && sessions[..|old(sessions)|] == old(sessions)
      ensures fresh(sessions[|old(sessions)|])
      ensures WorldOf(sessions, stats.byRelay) ==
              AfterMove(Joined(old(WorldOf(sessions, stats.byRelay)), relayUrl),
                   Move(|old(sessions)|, Model.Action(Model.Start, now, 0)))
    {
      hide Model.Apply;
      ghost var n := |sessions|;
      ghost var w := Joined(WorldOf(sessions, stats.byRelay), relayUrl);
      var session := new RelaySession(relayUrl, stats);
      sessions := sessions + [session];
      assert View(w, n) == session.Here();
      session.Start(now);
      StepOf(w, WorldOf(sessions, stats.byRelay), Move(n, Model.Action(Model.Start, now, 0)));
    }
  }
}
