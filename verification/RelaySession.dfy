/** The session object (`relay_session.cpp`): its handlers, which change its fields and the shared
    table in place, do what the step system says, and touch no other session's entry. */
module RelaySessionModel {
  import opened RelayTarget
  import opened Reconnect
  import opened RelayStatsModel
  import Model = SessionModel

  const NOT_PARSED := ParsedRelayUrl(true, "", "", "")

  /** Two tables agree on every address but one. */
  ghost predicate SameElsewhere(t: Table, t': Table, url: string) {
    forall u :: u != url ==> Lookup(t, u) == Lookup(t', u)
  }

  class RelaySession {
    const url: string
    const stats: RelayStats
    var parsed: ParsedRelayUrl
    var stopped: bool
    var wsConnected: bool
    var attempt: nat
    // What the session has handed to the I/O library.
    var started: bool
    var outstanding: multiset<Model.Operation>
    var timerCancelled: bool
    var delay: nat
    var closing: nat
    var shut: bool
    var doomed: bool

    ghost function State(): Model.Session
      reads this
    {
      Model.Session(started, stopped, wsConnected, attempt, outstanding, timerCancelled, delay, closing, shut, doomed)
    }

    /** The session and its entry, as the step system sees them. */
    ghost function Here(): Model.Local
      reads this, stats
    {
      Model.Local(State(), Lookup(stats.byRelay, url))
    }

    constructor (relayUrl: string, sharedStats: RelayStats)
      ensures url == relayUrl && stats == sharedStats
      ensures Here() == Model.Fresh(Lookup(sharedStats.byRelay, relayUrl))
    {
      url, stats := relayUrl, sharedStats;
      stopped, wsConnected, attempt := false, false, 0;
      started, outstanding, timerCancelled, delay, closing := false, multiset{}, false, 0, 0;
      shut, doomed := false, false;
      var p := ParseRelayUrl(relayUrl);
      parsed := if p.Some? then p.value else NOT_PARSED;
    }

    method ParseUrl()
      modifies `parsed
      ensures parsed == if ParseRelayUrl(url).Some? then ParseRelayUrl(url).value else NOT_PARSED
    {
      parsed := NOT_PARSED;
      var p := ParseRelayUrl(url);
      if p.Some? {
        parsed := p.value;
      }
    }

    method SetOwnStatus(status: RelayStatus, error: ErrorText, now: int)
      modifies stats
      ensures Here() == Model.SetStatus(url, old(Here()), status, error, now)
      ensures SameElsewhere(old(stats.byRelay), stats.byRelay, url)
    {
      stats.SetStatus(url, status, error, now);
    }

    method Launch(op: Model.Operation)
      modifies `outstanding, `shut, `doomed
      ensures Here() == Model.Launch(old(Here()), op)
    {
      outstanding := outstanding + multiset{op};
      doomed := shut && Model.NeedsSocket(op);
      if op.Connection? {
        shut := false;
      }
    }

    method Finish(op: Model.Operation)
      modifies `outstanding, `doomed
      ensures Here() == Model.Finish(old(Here()), op)
    {
      outstanding := outstanding - multiset{op};
      doomed := false;
    }

    method Start(now: int)
      modifies this, stats
      ensures Here() == Model.Apply(url, old(Here()), Model.Action(Model.Start, now, 0))
      ensures SameElsewhere(old(stats.byRelay), stats.byRelay, url)
    {
      hide ParseRelayUrl, WithStatus;
      started, stopped, timerCancelled := true, false, true;
      ParseUrl();
      if ParseRelayUrl(url).Some? {
        ParsedScheme(url);
      }
      if parsed.host == "" {
        stats.EnsureRelay(url);
        SetOwnStatus(Error, InvalidUrl, now);
        return;
      }
      if !parsed.secure {
        stats.EnsureRelay(url);
        SetOwnStatus(Error, UnsupportedScheme, now);
        return;
      }
      stats.EnsureRelay(url);
      SetOwnStatus(Resolving, NoError, now);
      Launch(Model.Resolution);
    }

    method Stop(now: int)
      modifies this, stats
      ensures Here() == Model.Apply(url, old(Here()), Model.Action(Model.Stop, now, 0))
      ensures SameElsewhere(old(stats.byRelay), stats.byRelay, url)
    {
      stopped, timerCancelled := true, true;
      if wsConnected {
        wsConnected := false;
        closing := closing + 1;
      } else {
        shut := true;
        SetOwnStatus(Disconnected, NoError, now);
      }
    }

    method OnClosed(now: int)
      modifies this, stats
      ensures Here() == Model.Apply(url, old(Here()), Model.Action(Model.Closed, now, 0))
      ensures SameElsewhere(old(stats.byRelay), stats.byRelay, url)
    {
      if closing > 0 {
        closing := closing - 1;
      }
      SetOwnStatus(Disconnected, NoError, now);
    }

    method ScheduleReconnect(jitter: nat)
      modifies this
      ensures Here() == Model.ScheduleReconnect(old(Here()), jitter)
    {
      hide ComputeReconnectDelayMs;
      attempt := attempt + 1;
      delay := ComputeReconnectDelayMs(attempt, jitter);
      timerCancelled := false;
      Launch(Model.Timer);
    }

    method MarkError(where: Stage, message: string, now: int, jitter: nat)
      modifies this, stats
      ensures Here() == Model.MarkError(url, old(Here()), where, message, now, jitter)
      ensures SameElsewhere(old(stats.byRelay), stats.byRelay, url)
    {
      hide ComputeReconnectDelayMs;
      SetOwnStatus(Error, StageFailed(where, message), now);
      if ShouldReconnectAttempt(stopped, attempt, where) {
        ScheduleReconnect(jitter);
      }
    }

    method OnResolve(ec: Model.Status, now: int, jitter: nat)
      modifies this, stats
      ensures Here() == Model.Apply(url, old(Here()), Model.Action(Model.Resolved(ec), now, jitter))
      ensures SameElsewhere(old(stats.byRelay), stats.byRelay, url)
    {
      hide Model.MarkError, Model.SetStatus, Model.Launch, Model.Finish;
      Finish(Model.Resolution);
      if ec.Bad? {
        MarkError(Resolve, ec.message, now, jitter);
        return;
      }
      SetOwnStatus(Connecting, NoError, now);
      Launch(Model.Connection);
    }

    method OnConnect(ec: Model.Status, sni: Model.Status, now: int, jitter: nat)
      modifies this, stats
      ensures Here() == Model.Apply(url, old(Here()), Model.Action(Model.Connected(ec, sni), now, jitter))
      ensures SameElsewhere(old(stats.byRelay), stats.byRelay, url)
    {
      hide Model.MarkError, Model.SetStatus, Model.Launch, Model.Finish;
      Finish(Model.Connection);
      if ec.Bad? {
        MarkError(Connect, ec.message, now, jitter);
        return;
      }
      if sni.Bad? {
        MarkError(SetSni, sni.message, now, jitter);
        return;
      }
      SetOwnStatus(TlsHandshaking, NoError, now);
      Launch(Model.TlsShake);
    }

    method OnTlsHandshake(ec: Model.Status, now: int, jitter: nat)
      modifies this, stats
      ensures Here() == Model.Apply(url, old(Here()), Model.Action(Model.TlsDone(ec), now, jitter))
      ensures SameElsewhere(old(stats.byRelay), stats.byRelay, url)
    {
      hide Model.MarkError, Model.SetStatus, Model.Launch, Model.Finish;
      Finish(Model.TlsShake);
      if ec.Bad? {
        MarkError(TlsHandshake, ec.message, now, jitter);
        return;
      }
      SetOwnStatus(WsHandshaking, NoError, now);
      Launch(Model.WsShake);
    }

    method OnWsHandshake(ec: Model.Status, now: int, jitter: nat)
      modifies this, stats
      ensures Here() == Model.Apply(url, old(Here()), Model.Action(Model.WsDone(ec), now, jitter))
      ensures SameElsewhere(old(stats.byRelay), stats.byRelay, url)
    {
      hide Model.MarkError, Model.SetStatus, Model.Launch, Model.Finish;
      Finish(Model.WsShake);
      if ec.Bad? {
        MarkError(WsHandshake, ec.message, now, jitter);
        return;
      }
      attempt := 0;
      wsConnected := true;
      SetOwnStatus(Subscribed, NoError, now);
      Launch(Model.ReqWrite);
    }

    method OnWriteReq(ec: Model.Status, now: int, jitter: nat)
      modifies this, stats
      ensures Here() == Model.Apply(url, old(Here()), Model.Action(Model.ReqWritten(ec), now, jitter))
      ensures SameElsewhere(old(stats.byRelay), stats.byRelay, url)
    {
      hide Model.MarkError, Model.Launch, Model.Finish;
      Finish(Model.ReqWrite);
      if ec.Bad? {
        MarkError(WriteReq, ec.message, now, jitter);
        return;
      }
      Launch(Model.MessageRead);
    }

    method HandleMessage(effect: Model.Effect)
      modifies stats
      ensures Here() == Model.HandleMessage(url, old(Here()), effect)
      ensures SameElsewhere(old(stats.byRelay), stats.byRelay, url)
    {
      match effect
      case EventCount => stats.IncrementEvent(url);
      case _ =>
    }

    method OnRead(ec: Model.Status, effect: Model.Effect, now: int, jitter: nat)
      modifies this, stats
      ensures Here() == Model.Apply(url, old(Here()), Model.Action(Model.MessageIn(ec, effect), now, jitter))
      ensures SameElsewhere(old(stats.byRelay), stats.byRelay, url)
    {
      hide Model.MarkError, Model.Launch, Model.Finish;
      Finish(Model.MessageRead);
      if ec.Bad? {
        MarkError(Read, ec.message, now, jitter);
        return;
      }
      HandleMessage(effect);
      if !stopped {
        Launch(Model.MessageRead);
      }
    }

    method ResetTransportForReconnect()
      modifies `wsConnected, `shut
      ensures Here() == Model.ResetTransport(old(Here()))
    {
      wsConnected := false;
      shut := true;
    }

    method OnTimer(ec: Model.Status, now: int)
      modifies this, stats
      ensures Here() == Model.Apply(url, old(Here()), Model.Action(Model.TimerDone(ec), now, 0))
      ensures SameElsewhere(old(stats.byRelay), stats.byRelay, url)
    {
      hide Model.SetStatus, Model.Launch, Model.Finish, Model.ResetTransport;
      Finish(Model.Timer);
      if ec.Bad? || stopped {
        return;
      }
      ResetTransportForReconnect();
      SetOwnStatus(Resolving, NoError, now);
      Launch(Model.Resolution);
    }
  }
}
