/** One relay session as a step system (`relay_session.cpp`). The state holds the fields that the
    handlers read and write, the asynchronous operations that are outstanding, and the session's
    own entry in the shared table. The environment chooses which operation completes, and how. */
module SessionModel {
  import opened Options
  import opened RelayTarget
  import opened Reconnect
  import opened RelayStatsModel

  datatype Operation = Resolution | Connection | TlsShake | WsShake | ReqWrite | MessageRead | Timer

  datatype Effect = Ignore | AuthChallenge | EventCount | EndOfStoredEvents

  /** What a completed operation reports: success, or an error with its message. */
  datatype Status = Ok | Bad(message: string)

  datatype Event =
    | Start
    | Stop
    | Resolved(ec: Status)
    | Connected(ec: Status, sni: Status)
    | TlsDone(ec: Status)
    | WsDone(ec: Status)
    | ReqWritten(ec: Status)
    | MessageIn(ec: Status, effect: Effect)
    | TimerDone(ec: Status)
    | Closed

  /** An event with the time and the random jitter that its handler may use. */
  datatype Action = Action(event: Event, now: int, jitter: nat)

  datatype Session = Session(
    started: bool,                     // Start has run
    stopped: bool,
    wsConnected: bool,
    attempt: nat,                      // reconnect_attempt_
    outstanding: multiset<Operation>,  // asynchronous operations in flight
    timerCancelled: bool,              // the timer was cancelled after it was last armed
    delay: nat,                        // the delay with which it was last armed
    closing: nat,                      // asynchronous closes in flight
    shut: bool,                        // the TCP socket was closed after the last connect was begun
    doomed: bool)                      // the operation in flight was begun on a closed TCP socket

  const NEW_SESSION := Session(false, false, false, 0, multiset{}, false, 0, 0, false, false)

  /** A session together with its entry in the table. */
  datatype Local = Local(session: Session, entry: Option<RelayStat>)

  function SetStatus(url: string, l: Local, status: RelayStatus, error: ErrorText, now: int): Local {
    l.(entry := Some(WithStatus(l.entry, url, status, error, now)))
  }

  /** The operations that need an open TCP socket. A connect opens one. */
  predicate NeedsSocket(op: Operation) {
    op.TlsShake? || op.WsShake? || op.ReqWrite? || op.MessageRead?
  }

  function Launch(l: Local, op: Operation): Local {
    var s := l.session;
    l.(session := s.(outstanding := s.outstanding + multiset{op},
                     shut := s.shut && !op.Connection?, doomed := s.shut && NeedsSocket(op)))
  }

  function Finish(l: Local, op: Operation): Local {
    l.(session := l.session.(outstanding := l.session.outstanding - multiset{op}, doomed := false))
  }

  function ScheduleReconnect(l: Local, jitter: nat): Local {
    var attempt := l.session.attempt + 1;
    Launch(l.(session := l.session.(attempt := attempt, delay := ComputeReconnectDelayMs(attempt, jitter),
                                    timerCancelled := false)), Timer)
  }

  function MarkError(url: string, l: Local, where: Stage, message: string, now: int, jitter: nat): Local {
    var l1 := SetStatus(url, l, Error, StageFailed(where, message), now);
    if ShouldReconnectAttempt(l.session.stopped, l.session.attempt, where) then ScheduleReconnect(l1, jitter) else l1
  }

  function Started(url: string, l: Local, now: int): Local {
    var l1 := l.(session := l.session.(started := true, stopped := false, timerCancelled := true));
    var l2 := l1.(entry := Some(Ensured(l1.entry, url)));
    match ParseRelayUrl(url)
    case None => SetStatus(url, l2, Error, InvalidUrl, now)
    case Some(p) =>
      if !p.secure then SetStatus(url, l2, Error, UnsupportedScheme, now)
      else Launch(SetStatus(url, l2, Resolving, NoError, now), Resolution)
  }

  function Stopped(url: string, l: Local, now: int): Local {
    var l1 := l.(session := l.session.(stopped := true, timerCancelled := true));
    if l1.session.wsConnected then
      l1.(session := l1.session.(wsConnected := false, closing := l1.session.closing + 1))
    else SetStatus(url, l1.(session := l1.session.(shut := true)), Disconnected, NoError, now)
  }

  /** The socket is closed before a reconnect. */
  function ResetTransport(l: Local): Local {
    l.(session := l.session.(wsConnected := false, shut := true))
  }

  function HandleMessage(url: string, l: Local, effect: Effect): Local {
    if effect.EventCount? then l.(entry := Some(WithEvent(l.entry, url))) else l
  }

  /** The state after the handler of an event. */
  function Apply(url: string, l: Local, a: Action): Local {
    match a.event
    case Start => Started(url, l, a.now)
    case Stop => Stopped(url, l, a.now)
    case Resolved(ec) =>
      var l1 := Finish(l, Resolution);
      if ec.Bad? then MarkError(url, l1, Resolve, ec.message, a.now, a.jitter)
      else Launch(SetStatus(url, l1, Connecting, NoError, a.now), Connection)
    case Connected(ec, sni) =>
      var l1 := Finish(l, Connection);
      if ec.Bad? then MarkError(url, l1, Connect, ec.message, a.now, a.jitter)
      else if sni.Bad? then MarkError(url, l1, SetSni, sni.message, a.now, a.jitter)
      else Launch(SetStatus(url, l1, TlsHandshaking, NoError, a.now), TlsShake)
    case TlsDone(ec) =>
      var l1 := Finish(l, TlsShake);
      if ec.Bad? then MarkError(url, l1, TlsHandshake, ec.message, a.now, a.jitter)
      else Launch(SetStatus(url, l1, WsHandshaking, NoError, a.now), WsShake)
    case WsDone(ec) =>
      var l1 := Finish(l, WsShake);
      if ec.Bad? then MarkError(url, l1, WsHandshake, ec.message, a.now, a.jitter)
      else
        var l2 := l1.(session := l1.session.(attempt := 0, wsConnected := true));
        Launch(SetStatus(url, l2, Subscribed, NoError, a.now), ReqWrite)
    case ReqWritten(ec) =>
      var l1 := Finish(l, ReqWrite);
      if ec.Bad? then MarkError(url, l1, WriteReq, ec.message, a.now, a.jitter) else Launch(l1, MessageRead)
    case MessageIn(ec, effect) =>
      var l1 := Finish(l, MessageRead);
      if ec.Bad? then MarkError(url, l1, Read, ec.message, a.now, a.jitter)
      else
        var l2 := HandleMessage(url, l1, effect);
        if l2.session.stopped then l2 else Launch(l2, MessageRead)
    case TimerDone(ec) =>
      var l1 := Finish(l, Timer);
      if ec.Bad? || l1.session.stopped then l1
      else Launch(SetStatus(url, ResetTransport(l1), Resolving, NoError, a.now), Resolution)
    case Closed =>
      SetStatus(url, l.(session := l.session.(closing := if l.session.closing > 0 then l.session.closing - 1 else 0)),
                Disconnected, NoError, a.now)
  }

  /** The operation that an event completes. */
  function OperationOf(e: Event): Option<Operation> {
    match e
    case Resolved(_) => Some(Resolution)
    case Connected(_, _) => Some(Connection)
    case TlsDone(_) => Some(TlsShake)
    case WsDone(_) => Some(WsShake)
    case ReqWritten(_) => Some(ReqWrite)
    case MessageIn(_, _) => Some(MessageRead)
    case TimerDone(_) => Some(Timer)
    case _ => None
  }

  /** The events that can come next: Start once, Stop any time after it, and the completion of what
      is outstanding. A timer reports an error only after it was cancelled, and an operation that was
      begun on a closed socket reports nothing else. */
  predicate Enabled(s: Session, a: Action) {
    && a.jitter <= MAX_JITTER
    && (s.doomed && OperationOf(a.event).Some? ==> a.event.ec.Bad?)
    && match a.event
       case Start => !s.started
       case Stop => s.started
       case Closed => s.closing > 0
       case TimerDone(ec) => Timer in s.outstanding && (ec.Bad? ==> s.timerCancelled)
       case e => OperationOf(e).value in s.outstanding
  }

  /** A run: every action is enabled in the state that the ones before it lead to. */
  predicate Legal(url: string, l: Local, acts: seq<Action>) {
    acts == [] || (
      var n := |acts| - 1;
      Legal(url, l, acts[..n]) && Enabled(Run(url, l, acts[..n]).session, acts[n]))
  }

  function Run(url: string, l: Local, acts: seq<Action>): Local {
    if acts == [] then l
    else
      var n := |acts| - 1;
      Apply(url, Run(url, l, acts[..n]), acts[n])
  }

  /** The state of a session before Start, next to any entry that the table holds. */
  function Fresh(entry: Option<RelayStat>): Local {
    Local(NEW_SESSION, entry)
  }
}
