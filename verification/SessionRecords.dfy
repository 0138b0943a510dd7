/** What each event makes of a session and its entry, written out, and what the entry of a run says in
    terms of the run's own actions. */
module SessionRecords {
  import opened Options
  import opened RelayTarget
  import opened Reconnect
  import opened RelayStatsModel
  import opened SessionModel
  import opened SessionRuns
  import MultiSession

  // ----- the new state after each event -----

  /** Start begins to resolve a secure address, and rejects any other. */
  lemma StartMakes(url: string, l: Local, a: Action)
    requires Inv(url, l) && Enabled(l.session, a) && a.event == Start
    ensures var p := ParseRelayUrl(url);
            var s := l.session.(started := true, stopped := false, timerCancelled := true);
            Apply(url, l, a) ==
              if p == None then Local(s, Some(RelayStat(url, Error, CountOf(l.entry), InvalidUrl, None)))
              else if !p.value.secure then
                Local(s, Some(RelayStat(url, Error, CountOf(l.entry), UnsupportedScheme, None)))
              else Local(s.(outstanding := multiset{Resolution}),
                         Some(RelayStat(url, Resolving, CountOf(l.entry), NoError, None)))
  {
    hide ParseRelayUrl;
  }

  /** Stop closes an open WebSocket, or else the TCP socket, and says Disconnected at once only then. */
  lemma StopMakes(url: string, l: Local, a: Action)
    requires a.event == Stop
    ensures var s := l.session.(stopped := true, timerCancelled := true);
            Apply(url, l, a) ==
              if l.session.wsConnected then
                Local(s.(wsConnected := false, closing := l.session.closing + 1), l.entry)
              else
                Local(s.(shut := true), Some(RelayStat(url, Disconnected, CountOf(l.entry), NoError, None)))
  {}

  lemma ClosedMakes(url: string, l: Local, a: Action)
    requires Enabled(l.session, a) && a.event == Closed
    ensures Apply(url, l, a) == Local(l.session.(closing := l.session.closing - 1),
                                      Some(RelayStat(url, Disconnected, CountOf(l.entry), NoError, None)))
  {}

  /** The session without the operation that completes. */
  lemma FinishMakes(url: string, l: Local, op: Operation)
    requires Inv(url, l) && op in l.session.outstanding
    ensures Finish(l, op) == l.(session := l.session.(outstanding := multiset{}, doomed := false))
  {
    hide ParseRelayUrl, Pending, Finish, Between;
    Completes(url, l, op);
  }

  lemma LaunchMakes(l: Local, op: Operation)
    requires l.session.outstanding == multiset{}
    ensures Launch(l, op) == l.(session := l.session.(outstanding := multiset{op},
                                                      shut := l.session.shut && op != Connection,
                                                      doomed := l.session.shut
                                                        && op in {TlsShake, WsShake, ReqWrite, MessageRead}))
  {}

  lemma ResolvedMakes(url: string, l: Local, a: Action)
    requires Inv(url, l) && Enabled(l.session, a) && a.event == Resolved(Ok)
    ensures Apply(url, l, a) == Local(l.session.(outstanding := multiset{Connection}, shut := false, doomed := false),
                                      Some(RelayStat(url, Connecting, CountOf(l.entry), NoError, None)))
  {
    hide Finish, Launch;
    FinishMakes(url, l, Resolution);
    LaunchMakes(SetStatus(url, Finish(l, Resolution), Connecting, NoError, a.now), Connection);
  }

  lemma ConnectedMakes(url: string, l: Local, a: Action)
    requires Inv(url, l) && Enabled(l.session, a) && a.event == Connected(Ok, Ok)
    ensures Apply(url, l, a) == Local(l.session.(outstanding := multiset{TlsShake}, doomed := l.session.shut),
                                      Some(RelayStat(url, TlsHandshaking, CountOf(l.entry), NoError, None)))
  {
    hide Finish, Launch;
    FinishMakes(url, l, Connection);
    LaunchMakes(SetStatus(url, Finish(l, Connection), TlsHandshaking, NoError, a.now), TlsShake);
  }

  lemma TlsDoneMakes(url: string, l: Local, a: Action)
    requires Inv(url, l) && Enabled(l.session, a) && a.event == TlsDone(Ok)
    ensures Apply(url, l, a) == Local(l.session.(outstanding := multiset{WsShake}, doomed := l.session.shut),
                                      Some(RelayStat(url, WsHandshaking, CountOf(l.entry), NoError, None)))
  {
    hide Finish, Launch;
    FinishMakes(url, l, TlsShake);
    LaunchMakes(SetStatus(url, Finish(l, TlsShake), WsHandshaking, NoError, a.now), WsShake);
  }

  lemma WsDoneMakes(url: string, l: Local, a: Action)
    requires Inv(url, l) && Enabled(l.session, a) && a.event == WsDone(Ok)
    ensures Apply(url, l, a) == Local(l.session.(outstanding := multiset{ReqWrite}, attempt := 0, wsConnected := true,
                                                 doomed := l.session.shut),
                                      Some(RelayStat(url, Subscribed, CountOf(l.entry), NoError, Some(a.now))))
  {
    hide Finish, Launch;
    FinishMakes(url, l, WsShake);
    var l1 := Finish(l, WsShake);
    var l2 := l1.(session := l1.session.(attempt := 0, wsConnected := true));
    LaunchMakes(SetStatus(url, l2, Subscribed, NoError, a.now), ReqWrite);
  }

  lemma ReqWrittenMakes(url: string, l: Local, a: Action)
    requires Inv(url, l) && Enabled(l.session, a) && a.event == ReqWritten(Ok)
    ensures Apply(url, l, a) == Local(l.session.(outstanding := multiset{MessageRead}, doomed := l.session.shut),
                                      l.entry)
  {
    hide Finish, Launch;
    FinishMakes(url, l, ReqWrite);
    LaunchMakes(Finish(l, ReqWrite), MessageRead);
  }

  /** Only an EVENT message changes the entry, and only its count; a stopped session reads no more. */
  lemma MessageMakes(url: string, l: Local, a: Action)
    requires Inv(url, l) && Enabled(l.session, a) && a.event.MessageIn? && a.event.ec == Ok
    ensures Apply(url, l, a).session ==
              if l.session.stopped then l.session.(outstanding := multiset{}, doomed := false)
              else l.session.(outstanding := multiset{MessageRead}, doomed := l.session.shut)
    ensures l.entry.Some?
    ensures Apply(url, l, a).entry ==
              if a.event.effect == EventCount then
                Some(l.entry.value.(relayUrl := url,
                                    eventsCount := (l.entry.value.eventsCount + 1) % 0x1_0000_0000_0000_0000))
              else l.entry
  {
    hide Finish, Launch, Pending, ParseRelayUrl;
    FinishMakes(url, l, MessageRead);
    LaunchMakes(HandleMessage(url, Finish(l, MessageRead), a.event.effect), MessageRead);
  }

  lemma TimerMakes(url: string, l: Local, a: Action)
    requires Inv(url, l) && Enabled(l.session, a) && a.event.TimerDone?
    ensures Apply(url, l, a) ==
              if a.event.ec.Bad? || l.session.stopped then
                Local(l.session.(outstanding := multiset{}, doomed := false), l.entry)
              else
                Local(l.session.(outstanding := multiset{Resolution}, wsConnected := false,
                                 shut := true, doomed := false),
                      Some(RelayStat(url, Resolving, CountOf(l.entry), NoError, None)))
  {
    hide Finish, Launch;
    FinishMakes(url, l, Timer);
    LaunchMakes(SetStatus(url, ResetTransport(Finish(l, Timer)), Resolving, NoError, a.now), Resolution);
  }

  /** The stage and the message of a failure. */
  predicate Reports(e: Event, where: Stage, message: string) {
    || (e == Resolved(Bad(message)) && where == Resolve)
    || (e.Connected? && e.ec == Bad(message) && where == Connect)
    || (e == Connected(Ok, Bad(message)) && where == SetSni)
    || (e == TlsDone(Bad(message)) && where == TlsHandshake)
    || (e == WsDone(Bad(message)) && where == WsHandshake)
    || (e == ReqWritten(Bad(message)) && where == WriteReq)
    || (e.MessageIn? && e.ec == Bad(message) && where == Read)
  }

  /** A failure is recorded with its stage and message. It is retried before Stop, up to six times,
      unless it was in the WebSocket handshake or in setting the server name. */
  lemma FailureMakes(url: string, l: Local, a: Action, where: Stage, message: string)
    requires Inv(url, l) && Enabled(l.session, a) && Reports(a.event, where, message)
    ensures Apply(url, l, a).entry == Some(RelayStat(url, Error, CountOf(l.entry), StageFailed(where, message), None))
    ensures l.session.attempt <= 6
    ensures Apply(url, l, a).session ==
              if !l.session.stopped && l.session.attempt < 6 && where !in {WsHandshake, SetSni} then
                l.session.(outstanding := multiset{Timer}, attempt := l.session.attempt + 1,
                           delay := [500, 1000, 2000, 4000, 8000, 16000][l.session.attempt] + a.jitter,
                           timerCancelled := false, doomed := false)
              else l.session.(outstanding := multiset{}, doomed := false)
  {
    hide Finish, Launch, MarkError, Pending, ParseRelayUrl, Inv, ComputeReconnectDelayMs;
    var op := OperationOf(a.event).value;
    FinishMakes(url, l, op);
    AttemptIsSmall(url, l);
    MarkErrorMakes(url, Finish(l, op), where, message, a.now, a.jitter);
  }

  lemma AttemptIsSmall(url: string, l: Local)
    requires Inv(url, l)
    ensures l.session.attempt <= 6
  {
    hide ParseRelayUrl, Pending;
  }

  lemma MarkErrorMakes(url: string, l: Local, where: Stage, message: string, now: int, jitter: nat)
    requires l.session.outstanding == multiset{} && !l.session.doomed && l.session.attempt <= 6 && jitter <= 250
    ensures var r := MarkError(url, l, where, message, now, jitter);
            && r.entry == Some(RelayStat(url, Error, CountOf(l.entry), StageFailed(where, message), None))
            && r.session ==
                 if !l.session.stopped && l.session.attempt < 6 && where !in {WsHandshake, SetSni} then
                   l.session.(outstanding := multiset{Timer}, attempt := l.session.attempt + 1,
                              delay := [500, 1000, 2000, 4000, 8000, 16000][l.session.attempt] + jitter,
                              timerCancelled := false)
                 else l.session
  {
    hide Launch, ComputeReconnectDelayMs;
    RetriedStages(l.session.stopped, l.session.attempt, where);
    DelayTable(l.session.attempt + 1, jitter);
    var l1 := SetStatus(url, l, Error, StageFailed(where, message), now);
    var n := l1.session.attempt + 1;
    var s := l1.session.(attempt := n, delay := ComputeReconnectDelayMs(n, jitter), timerCancelled := false);
    LaunchMakes(l1.(session := s), Timer);
  }

  // ----- the entry of a run -----

  predicate NoneIsStop(acts: seq<Action>) {
    forall i :: 0 <= i < |acts| ==> acts[i].event != Stop
  }

  /** The entry carries its address, and an error exactly with the status Error. */
  predicate Coherent(url: string, e: Option<RelayStat>) {
    e.Some? ==> e.value.relayUrl == url && (e.value.lastError == NoError <==> e.value.status != Error)
  }

  predicate Timed(e: Option<RelayStat>, time: Option<int>) {
    e.Some? && e.value.status == Subscribed ==> e.value.connectedAt == time
  }

  /** What every step keeps of the entry. */
  lemma EntryStep(url: string, l: Local, a: Action, time: Option<int>)
    requires Inv(url, l) && Enabled(l.session, a)
    ensures Coherent(url, l.entry) ==> Coherent(url, Apply(url, l, a).entry)
    ensures Timed(l.entry, time) ==> Timed(Apply(url, l, a).entry, if a.event == WsDone(Ok) then Some(a.now) else time)
  {
    hide Inv, Apply, Enabled, ParseRelayUrl;
    match a.event
    case Start => StartMakes(url, l, a);
    case Stop => StopMakes(url, l, a);
    case Closed => ClosedMakes(url, l, a);
    case Resolved(ec) =>
      if ec.Bad? { FailureMakes(url, l, a, Resolve, ec.message); } else { ResolvedMakes(url, l, a); }
    case Connected(ec, sni) =>
      if ec.Bad? { FailureMakes(url, l, a, Connect, ec.message); }
      else if sni.Bad? { FailureMakes(url, l, a, SetSni, sni.message); }
      else { ConnectedMakes(url, l, a); }
    case TlsDone(ec) =>
      if ec.Bad? { FailureMakes(url, l, a, TlsHandshake, ec.message); } else { TlsDoneMakes(url, l, a); }
    case WsDone(ec) =>
      if ec.Bad? { FailureMakes(url, l, a, WsHandshake, ec.message); } else { WsDoneMakes(url, l, a); }
    case ReqWritten(ec) =>
      if ec.Bad? { FailureMakes(url, l, a, WriteReq, ec.message); } else { ReqWrittenMakes(url, l, a); }
    case MessageIn(ec, effect) =>
      if ec.Bad? { FailureMakes(url, l, a, Read, ec.message); } else { MessageMakes(url, l, a); }
    case TimerDone(ec) => TimerMakes(url, l, a);
  }

  /** In every run, stopped or not, the entry carries its address, and an error if and only if the
      status is Error: whatever comes after a failure clears it. */
  lemma {:induction false} ErrorsAreCurrent(url: string, entry: Option<RelayStat>, acts: seq<Action>)
    requires Consistent(entry) && Coherent(url, entry) && Legal(url, Fresh(entry), acts)
    ensures Coherent(url, Run(url, Fresh(entry), acts).entry)
  {
    hide Inv, Apply, Enabled, Coherent;
    if acts != [] {
      var n := |acts| - 1;
      ErrorsAreCurrent(url, entry, acts[..n]);
      RunKeepsInv(url, entry, acts[..n]);
      EntryStep(url, Run(url, Fresh(entry), acts[..n]), acts[n], None);
    }
  }

  /** Before Stop, the last action says what the entry records and what is in flight; the cases are all
      that there are. */
  lemma LastActionTells(url: string, entry: Option<RelayStat>, acts: seq<Action>)
    requires Consistent(entry) && Coherent(url, entry) && Legal(url, Fresh(entry), acts)
    requires acts != [] && NoneIsStop(acts)
    ensures var l := Run(url, Fresh(entry), acts);
            var e := acts[|acts| - 1].event;
            && l.entry.Some?
            && (e == Start ==>
                  var p := ParseRelayUrl(url);
                  && (p == None ==> l.entry.value.status == Error && l.entry.value.lastError == InvalidUrl)
                  && (p.Some? && !p.value.secure ==>
                        l.entry.value.status == Error && l.entry.value.lastError == UnsupportedScheme)
                  && (p.Some? && p.value.secure ==>
                        l.entry.value.status == Resolving && l.session.outstanding == multiset{Resolution}))
            && (e == TimerDone(Ok) ==>
                  l.entry.value.status == Resolving && l.session.outstanding == multiset{Resolution})
            && (e == Resolved(Ok) ==>
                  l.entry.value.status == Connecting && l.session.outstanding == multiset{Connection})
            && (e == Connected(Ok, Ok) ==>
                  l.entry.value.status == TlsHandshaking && l.session.outstanding == multiset{TlsShake})
            && (e == TlsDone(Ok) ==>
                  l.entry.value.status == WsHandshaking && l.session.outstanding == multiset{WsShake})
            && (e == WsDone(Ok) ==>
                  l.entry.value.status == Subscribed && l.session.outstanding == multiset{ReqWrite})
            && (e == ReqWritten(Ok) || (e.MessageIn? && e.ec == Ok) ==>
                  l.entry.value.status == Subscribed && l.session.outstanding == multiset{MessageRead})
            && (e.Resolved? && e.ec.Bad? ==> l.entry.value.lastError == StageFailed(Resolve, e.ec.message))
            && (e.Connected? && e.ec.Bad? ==> l.entry.value.lastError == StageFailed(Connect, e.ec.message))
            && (e.Connected? && e.ec.Ok? && e.sni.Bad? ==>
                  l.entry.value.lastError == StageFailed(SetSni, e.sni.message))
            && (e.TlsDone? && e.ec.Bad? ==> l.entry.value.lastError == StageFailed(TlsHandshake, e.ec.message))
            && (e.WsDone? && e.ec.Bad? ==> l.entry.value.lastError == StageFailed(WsHandshake, e.ec.message))
            && (e.ReqWritten? && e.ec.Bad? ==> l.entry.value.lastError == StageFailed(WriteReq, e.ec.message))
            && (e.MessageIn? && e.ec.Bad? ==> l.entry.value.lastError == StageFailed(Read, e.ec.message))
            && (l.entry.value.lastError == NoError <==> l.entry.value.status != Error)
    ensures var e := acts[|acts| - 1].event; e != Closed && (e.TimerDone? ==> e.ec == Ok)
  {
    hide Inv, Apply, Enabled, ParseRelayUrl, Coherent, Reports;
    var n := |acts| - 1;
    var l, a := Run(url, Fresh(entry), acts[..n]), acts[n];
    RunKeepsInv(url, entry, acts[..n]);
    RunKeepsInv(url, entry, acts);
    NotYetStopped(url, entry, acts[..n]);
    OnlyAfterStop(url, l, a);
    StepTells(url, l, a);
    ErrorsAreCurrent(url, entry, acts);
    CoherentMeans(url, Run(url, Fresh(entry), acts).entry);
  }

  /** A close completes, and a timer reports an error, only after Stop. */
  lemma OnlyAfterStop(url: string, l: Local, a: Action)
    requires Inv(url, l) && Enabled(l.session, a) && !l.session.stopped
    ensures a.event != Closed && (a.event.TimerDone? ==> a.event.ec == Ok)
  {
    hide ParseRelayUrl, Pending;
    if a.event.TimerDone? {
      OnlyPending(l.session, Timer);
    }
  }

  lemma CoherentMeans(url: string, e: Option<RelayStat>)
    requires Coherent(url, e) && e.Some?
    ensures e.value.lastError == NoError <==> e.value.status != Error
  {}

  lemma {:induction false} NotYetStopped(url: string, entry: Option<RelayStat>, acts: seq<Action>)
    requires Consistent(entry) && Legal(url, Fresh(entry), acts) && NoneIsStop(acts)
    ensures !Run(url, Fresh(entry), acts).session.stopped
  {
    hide Inv, Apply, Enabled;
    if acts != [] {
      var n := |acts| - 1;
      NotYetStopped(url, entry, acts[..n]);
      RunKeepsInv(url, entry, acts[..n]);
      StepKeeps(url, Run(url, Fresh(entry), acts[..n]), acts[n]);
    }
  }

  lemma EntryAfter(url: string, l: Local, a: Action)
    requires Inv(url, l) && Enabled(l.session, a)
    ensures Apply(url, l, a).entry.Some?
  {
    hide ParseRelayUrl, Pending, Apply;
    StepKeeps(url, l, a);
  }

  lemma StepTells(url: string, l: Local, a: Action)
    requires Inv(url, l) && Enabled(l.session, a) && !l.session.stopped && a.event != Stop
    ensures var r := Apply(url, l, a);
            var e := a.event;
            && r.entry.Some?
            && (e == Start ==>
                  var p := ParseRelayUrl(url);
                  && (p == None ==> r.entry.value.status == Error && r.entry.value.lastError == InvalidUrl)
                  && (p.Some? && !p.value.secure ==>
                        r.entry.value.status == Error && r.entry.value.lastError == UnsupportedScheme)
                  && (p.Some? && p.value.secure ==>
                        r.entry.value.status == Resolving && r.session.outstanding == multiset{Resolution}))
            && (e == TimerDone(Ok) ==> Shows(r, Resolving, Resolution))
            && (e == Resolved(Ok) ==> Shows(r, Connecting, Connection))
            && (e == Connected(Ok, Ok) ==> Shows(r, TlsHandshaking, TlsShake))
            && (e == TlsDone(Ok) ==> Shows(r, WsHandshaking, WsShake))
            && (e == WsDone(Ok) ==> Shows(r, Subscribed, ReqWrite))
            && (e == ReqWritten(Ok) || (e.MessageIn? && e.ec == Ok) ==> Shows(r, Subscribed, MessageRead))
            && (e.Resolved? && e.ec.Bad? ==> r.entry.value.lastError == StageFailed(Resolve, e.ec.message))
            && (e.Connected? && e.ec.Bad? ==> r.entry.value.lastError == StageFailed(Connect, e.ec.message))
            && (e.Connected? && e.ec.Ok? && e.sni.Bad? ==>
                  r.entry.value.lastError == StageFailed(SetSni, e.sni.message))
            && (e.TlsDone? && e.ec.Bad? ==> r.entry.value.lastError == StageFailed(TlsHandshake, e.ec.message))
            && (e.WsDone? && e.ec.Bad? ==> r.entry.value.lastError == StageFailed(WsHandshake, e.ec.message))
            && (e.ReqWritten? && e.ec.Bad? ==> r.entry.value.lastError == StageFailed(WriteReq, e.ec.message))
            && (e.MessageIn? && e.ec.Bad? ==> r.entry.value.lastError == StageFailed(Read, e.ec.message))
  {
    hide Inv, Apply, Enabled, ParseRelayUrl;
    if a.event == Start { StartMakes(url, l, a); }
    if a.event == TimerDone(Ok) { TimerMakes(url, l, a); }
    if a.event == Resolved(Ok) { ResolvedMakes(url, l, a); }
    if a.event == Connected(Ok, Ok) { ConnectedMakes(url, l, a); }
    if a.event == TlsDone(Ok) { TlsDoneMakes(url, l, a); }
    if a.event == WsDone(Ok) { WsDoneMakes(url, l, a); }
    if a.event == ReqWritten(Ok) { WasSubscribed(url, l, a); ReqWrittenMakes(url, l, a); }
    if a.event.MessageIn? && a.event.ec == Ok { WasSubscribed(url, l, a); MessageMakes(url, l, a); }
    if a.event.Resolved? && a.event.ec.Bad? { FailureMakes(url, l, a, Resolve, a.event.ec.message); }
    if a.event.Connected? && a.event.ec.Bad? { FailureMakes(url, l, a, Connect, a.event.ec.message); }
    if a.event.Connected? && a.event.ec.Ok? && a.event.sni.Bad? {
      FailureMakes(url, l, a, SetSni, a.event.sni.message);
    }
    if a.event.TlsDone? && a.event.ec.Bad? { FailureMakes(url, l, a, TlsHandshake, a.event.ec.message); }
    if a.event.WsDone? && a.event.ec.Bad? { FailureMakes(url, l, a, WsHandshake, a.event.ec.message); }
    if a.event.ReqWritten? && a.event.ec.Bad? { FailureMakes(url, l, a, WriteReq, a.event.ec.message); }
    if a.event.MessageIn? && a.event.ec.Bad? { FailureMakes(url, l, a, Read, a.event.ec.message); }
    EntryAfter(url, l, a);
  }

  predicate Shows(l: Local, status: RelayStatus, op: Operation) {
    l.entry.Some? && l.entry.value.status == status && l.session.outstanding == multiset{op}
  }

  lemma WasSubscribed(url: string, l: Local, a: Action)
    requires Inv(url, l) && Enabled(l.session, a) && !l.session.stopped && (a.event.ReqWritten? || a.event.MessageIn?)
    ensures l.entry.Some? && l.entry.value.status == Subscribed
  {
    hide ParseRelayUrl, Pending;
    OnlyPending(l.session, OperationOf(a.event).value);
  }

  // ----- the time of the connection and the count of events -----

  /** The time of the last successful WebSocket handshake. */
  function HandshakeTime(acts: seq<Action>): Option<int> {
    if acts == [] then None
    else if acts[|acts| - 1].event == WsDone(Ok) then Some(acts[|acts| - 1].now)
    else HandshakeTime(acts[..|acts| - 1])
  }

  /** How many EVENT messages were read. */
  function EventsRead(acts: seq<Action>): nat {
    if acts == [] then 0
    else EventsRead(acts[..|acts| - 1]) + (if acts[|acts| - 1].event == MessageIn(Ok, EventCount) then 1 else 0)
  }

  /** In every run an entry that says Subscribed carries the time of the last successful handshake. */
  lemma {:induction false} ConnectedSince(url: string, entry: Option<RelayStat>, acts: seq<Action>)
    requires Consistent(entry) && Legal(url, Fresh(entry), acts)
    requires entry.Some? ==> entry.value.status != Subscribed
    ensures var e := Run(url, Fresh(entry), acts).entry;
            e.Some? && e.value.status == Subscribed ==>
              HandshakeTime(acts).Some? && e.value.connectedAt == HandshakeTime(acts)
  {
    hide Inv, Apply, Enabled, Coherent;
    if acts != [] {
      var n := |acts| - 1;
      var l := Run(url, Fresh(entry), acts[..n]);
      ConnectedSince(url, entry, acts[..n]);
      RunKeepsInv(url, entry, acts[..n]);
      RunKeepsInv(url, entry, acts);
      EntryStep(url, l, acts[n], HandshakeTime(acts[..n]));
      SubscribedHasTime(url, Run(url, Fresh(entry), acts));
    }
  }

  lemma SubscribedHasTime(url: string, l: Local)
    requires Inv(url, l)
    ensures l.entry.Some? && l.entry.value.status == Subscribed ==> l.entry.value.connectedAt.Some?
  {
    hide ParseRelayUrl, Pending;
  }

  /** In every run the count of the entry grows by the EVENT messages read, modulo 2^64. */
  lemma {:induction false} EventsOfRun(url: string, entry: Option<RelayStat>, acts: seq<Action>)
    ensures CountOf(Run(url, Fresh(entry), acts).entry) % 0x1_0000_0000_0000_0000
            == (CountOf(entry) + EventsRead(acts)) % 0x1_0000_0000_0000_0000
  {
    hide Apply;
    if acts != [] {
      var n := |acts| - 1;
      var l := Run(url, Fresh(entry), acts[..n]);
      var one := if acts[n].event == MessageIn(Ok, EventCount) then 1 else 0;
      EventsOfRun(url, entry, acts[..n]);
      MultiSession.ApplyCounts(url, l, acts[n]);
      AddModulo(CountOf(l.entry), 0, one);
      AddModulo(CountOf(entry) + EventsRead(acts[..n]), 0, one);
    }
  }
}
