/** What holds in every run of one session that is started once. */
module SessionRuns {
  import opened Options
  import opened RelayTarget
  import opened Reconnect
  import opened RelayStatsModel
  import opened SessionModel

  predicate Monitored(url: string) {
    ParseRelayUrl(url).Some? && ParseRelayUrl(url).value.secure
  }

  /** The one outstanding operation, if any. */
  function Pending(s: Session): Option<Operation> {
    if Resolution in s.outstanding then Some(Resolution)
    else if Connection in s.outstanding then Some(Connection)
    else if TlsShake in s.outstanding then Some(TlsShake)
    else if WsShake in s.outstanding then Some(WsShake)
    else if ReqWrite in s.outstanding then Some(ReqWrite)
    else if MessageRead in s.outstanding then Some(MessageRead)
    else if Timer in s.outstanding then Some(Timer)
    else None
  }

  /** The status that goes with an operation, before Stop. */
  function StatusDuring(op: Operation): RelayStatus {
    match op
    case Resolution => Resolving
    case Connection => Connecting
    case TlsShake => TlsHandshaking
    case WsShake => WsHandshaking
    case ReqWrite => Subscribed
    case MessageRead => Subscribed
    case Timer => Error
  }

  /** Why a session that was not stopped has nothing outstanding. */
  predicate GaveUp(url: string, attempt: nat, error: ErrorText) {
    if !ParseRelayUrl(url).Some? then error == InvalidUrl
    else if !Monitored(url) then error == UnsupportedScheme
    else
      && error.StageFailed?
      && (error.stage.WsHandshake? || error.stage.SetSni?
          || (attempt == 6 && (error.stage.Resolve? || error.stage.Connect? || error.stage.TlsHandshake?)))
  }

  function Just(op: Option<Operation>): multiset<Operation> {
    match op case None => multiset{} case Some(o) => multiset{o}
  }

  /** A single chain of operations. */
  predicate SingleChain(s: Session) {
    && s.outstanding == Just(Pending(s))
    && s.attempt <= 6
    && (Pending(s).Some? && Pending(s).value in {ReqWrite, MessageRead} ==> s.attempt == 0)
    && (Pending(s).Some? && Pending(s).value in {Resolution, Connection, TlsShake, WsShake} ==> !s.wsConnected)
    && (Pending(s) == Some(Timer) ==> 1 <= s.attempt)
  }

  /** The entry records what the session is doing. */
  predicate Recorded(url: string, l: Local) {
    && l.entry.Some?
    && match Pending(l.session)
       case Some(op) =>
         && Monitored(url)
         && l.entry.value.status == StatusDuring(op)
         && (op.Timer? ==> l.entry.value.lastError.StageFailed?)
       case None => l.entry.value.status == Error && GaveUp(url, l.session.attempt, l.entry.value.lastError)
  }

  predicate Consistent(e: Option<RelayStat>) {
    e.Some? ==> (e.value.connectedAt.Some? <==> e.value.status == Subscribed)
  }

  predicate Inv(url: string, l: Local) {
    var s := l.session;
    && Consistent(l.entry)
    && (!s.started ==> s == NEW_SESSION)
    && (s.started ==> SingleChain(s) && l.entry.Some? && (Pending(s).Some? ==> Monitored(url)))
    && (s.started && !s.stopped ==>
          && Recorded(url, l) && s.closing == 0 && !s.doomed
          && (Pending(s) == Some(Timer) ==> !s.timerCancelled)
          && (Pending(s).Some? && (Pending(s).value.Connection? || NeedsSocket(Pending(s).value)) ==> !s.shut))
    && (s.stopped ==> s.timerCancelled)
  }

  lemma PendingOf(s: Session, op: Option<Operation>)
    requires s.outstanding == Just(op)
    ensures Pending(s) == op
  {
    match op
    case None =>
    case Some(o) =>
      match o {
        case Resolution => case Connection => case TlsShake => case WsShake =>
        case ReqWrite => case MessageRead => case Timer =>
      }
  }

  lemma FinishOne(l: Local, op: Operation)
    requires l.session.outstanding == Just(Some(op))
    ensures Finish(l, op) == l.(session := l.session.(outstanding := Just(None), doomed := false))
  {}

  lemma LaunchOne(l: Local, op: Operation)
    requires l.session.outstanding == Just(None)
    ensures Launch(l, op) == l.(session := l.session.(outstanding := Just(Some(op)),
                                                      shut := l.session.shut && !op.Connection?,
                                                      doomed := l.session.shut && NeedsSocket(op)))
  {}

  /** Every outstanding operation is the pending one. */
  lemma OnlyPending(s: Session, op: Operation)
    requires s.outstanding == Just(Pending(s)) && op in s.outstanding
    ensures Pending(s) == Some(op)
  {}

  /** What is known once the completed operation is gone and before the next one begins. */
  predicate Between(url: string, l: Local) {
    var s := l.session;
    && Monitored(url)
    && Consistent(l.entry)
    && l.entry.Some?
    && s.started
    && s.outstanding == Just(None)
    && s.attempt <= 6
    && !s.doomed
    && (if s.stopped then s.timerCancelled else s.closing == 0)
  }

  lemma LaunchKeeps(url: string, l: Local, op: Operation)
    requires Between(url, l) && !op.Timer?
    requires if op.ReqWrite? || op.MessageRead? then l.session.attempt == 0 else !l.session.wsConnected
    requires !l.session.stopped ==> l.entry.value.status == StatusDuring(op) && (NeedsSocket(op) ==> !l.session.shut)
    ensures Inv(url, Launch(l, op))
    ensures Launch(l, op).session == l.session.(outstanding := Just(Some(op)),
                                                shut := l.session.shut && !op.Connection?,
                                                doomed := l.session.shut && NeedsSocket(op))
    ensures Pending(Launch(l, op).session) == Some(op)
  {
    hide ParseRelayUrl, Launch, Just, Pending;
    LaunchOne(l, op);
    PendingOf(Launch(l, op).session, Some(op));
  }

  lemma MarkErrorKeeps(url: string, l: Local, where: Stage, message: string, now: int, jitter: nat)
    requires Between(url, l)
    requires where.WriteReq? || where.Read? ==> l.session.attempt == 0
    ensures var r := MarkError(url, l, where, message, now, jitter);
            && Inv(url, r)
            && Pending(r.session) == (if ShouldReconnectAttempt(l.session.stopped, l.session.attempt, where)
                                      then Some(Timer) else None)
            && r.session.attempt == (if Pending(r.session).Some? then l.session.attempt + 1 else l.session.attempt)
            && r.session.stopped == l.session.stopped && r.session.started
            && r.session.wsConnected == l.session.wsConnected && r.session.shut == l.session.shut && !r.session.doomed
            && r.session.closing == l.session.closing
  {
    hide ParseRelayUrl, ComputeReconnectDelayMs, Launch, Just, Pending;
    var l1 := SetStatus(url, l, Error, StageFailed(where, message), now);
    if ShouldReconnectAttempt(l.session.stopped, l.session.attempt, where) {
      var attempt := l.session.attempt + 1;
      var l2 := l1.(session := l1.session.(attempt := attempt, delay := ComputeReconnectDelayMs(attempt, jitter),
                                           timerCancelled := false));
      LaunchOne(l2, Timer);
      PendingOf(Launch(l2, Timer).session, Some(Timer));
    } else {
      PendingOf(l1.session, None);
    }
  }

  /** When an operation completes, it was the only one. */
  lemma Completes(url: string, l: Local, op: Operation)
    requires Inv(url, l) && op in l.session.outstanding
    ensures Pending(l.session) == Some(op)
    ensures Finish(l, op) == l.(session := l.session.(outstanding := Just(None), doomed := false))
    ensures !l.session.stopped && (op.Connection? || NeedsSocket(op)) ==> !l.session.shut
    ensures l.session.started && SingleChain(l.session) && Monitored(url)
    ensures Between(url, Finish(l, op))
  {
    hide ParseRelayUrl, Pending, Finish;
    OnlyPending(l.session, op);
    FinishOne(l, op);
  }

  /** The stage whose failure an event reports. */
  function FailedStage(e: Event): Option<Stage> {
    match e
    case Resolved(Bad(_)) => Some(Resolve)
    case Connected(Bad(_), _) => Some(Connect)
    case Connected(Ok, Bad(_)) => Some(SetSni)
    case TlsDone(Bad(_)) => Some(TlsHandshake)
    case WsDone(Bad(_)) => Some(WsHandshake)
    case ReqWritten(Bad(_)) => Some(WriteReq)
    case MessageIn(Bad(_), _) => Some(Read)
    case _ => None
  }

  /** The operation that is outstanding after an event. */
  function NextPending(url: string, s: Session, e: Event): Option<Operation> {
    if FailedStage(e).Some? then
      if ShouldReconnectAttempt(s.stopped, s.attempt, FailedStage(e).value) then Some(Timer) else None
    else
      match e
      case Start => if Monitored(url) then Some(Resolution) else None
      case Stop => Pending(s)
      case Closed => Pending(s)
      case Resolved(_) => Some(Connection)
      case Connected(_, _) => Some(TlsShake)
      case TlsDone(_) => Some(WsShake)
      case WsDone(_) => Some(ReqWrite)
      case ReqWritten(_) => Some(MessageRead)
      case MessageIn(_, _) => if s.stopped then None else Some(MessageRead)
      case TimerDone(ec) => if ec.Bad? || s.stopped then None else Some(Resolution)
  }

  function NextAttempt(s: Session, e: Event): nat {
    if FailedStage(e).Some? && ShouldReconnectAttempt(s.stopped, s.attempt, FailedStage(e).value) then s.attempt + 1
    else if e == WsDone(Ok) then 0
    else s.attempt
  }

  function NextStopped(s: Session, e: Event): bool {
    !e.Start? && (e.Stop? || s.stopped)
  }

  function NextConnected(s: Session, e: Event): bool {
    match e
    case Stop => false
    case WsDone(Ok) => true
    case TimerDone(Ok) => s.wsConnected && s.stopped
    case _ => s.wsConnected
  }

  /** How many closes are in flight after an event. */
  function NextClosing(s: Session, e: Event): nat {
    match e
    case Stop => if s.wsConnected then s.closing + 1 else s.closing
    case Closed => if s.closing > 0 then s.closing - 1 else 0
    case _ => s.closing
  }

  function NextShut(s: Session, e: Event): bool {
    match e
    case Stop => s.shut || !s.wsConnected
    case Resolved(Ok) => false
    case TimerDone(Ok) => s.shut || !s.stopped
    case _ => s.shut
  }

  function NextDoomed(s: Session, e: Event): bool {
    match e
    case Stop => s.doomed
    case Closed => s.doomed
    case Connected(Ok, Ok) => s.shut
    case TlsDone(Ok) => s.shut
    case WsDone(Ok) => s.shut
    case ReqWritten(Ok) => s.shut
    case MessageIn(Ok, _) => s.shut && !s.stopped
    case _ => false
  }

  /** The session follows the chain of operations. */
  predicate Follows(url: string, l: Local, a: Action) {
    var s := Apply(url, l, a).session;
    && Pending(s) == NextPending(url, l.session, a.event)
    && s.attempt == NextAttempt(l.session, a.event)
    && s.stopped == NextStopped(l.session, a.event)
    && s.wsConnected == NextConnected(l.session, a.event)
    && s.closing == NextClosing(l.session, a.event)
    && s.shut == NextShut(l.session, a.event)
    && s.doomed == NextDoomed(l.session, a.event)
    && s.started
  }

  lemma StartKeeps(url: string, l: Local, now: int)
    requires Inv(url, l) && !l.session.started
    ensures var r := Started(url, l, now);
            && Inv(url, r)
            && Pending(r.session) == (if Monitored(url) then Some(Resolution) else None)
            && r.session.attempt == 0 && !r.session.stopped && r.session.started
            && !r.session.wsConnected && r.session.closing == 0 && !r.session.shut && !r.session.doomed
  {
    hide ParseRelayUrl, Pending;
    var l1 := l.(session := l.session.(started := true, stopped := false, timerCancelled := true));
    var l2 := l1.(entry := Some(Ensured(l1.entry, url)));
    PendingOf(l2.session, None);
    if Monitored(url) {
      LaunchKeeps(url, SetStatus(url, l2, Resolving, NoError, now), Resolution);
    }
  }

  lemma SamePending(s: Session, t: Session)
    requires s.outstanding == t.outstanding
    ensures Pending(s) == Pending(t)
  {}

  lemma StopKeeps(url: string, l: Local, now: int)
    requires Inv(url, l) && l.session.started
    ensures Inv(url, Stopped(url, l, now))
    ensures var s := Stopped(url, l, now).session;
            && Pending(s) == Pending(l.session) && s.attempt == l.session.attempt && s.stopped && s.started
            && !s.wsConnected && s.closing == NextClosing(l.session, Stop)
            && s.shut == NextShut(l.session, Stop) && s.doomed == l.session.doomed
  {
    hide ParseRelayUrl, Pending;
    SamePending(l.session, Stopped(url, l, now).session);
  }

  lemma HandshakeKeeps(url: string, l: Local, a: Action)
    requires Inv(url, l) && Enabled(l.session, a)
    requires a.event.Resolved? || a.event.Connected? || a.event.TlsDone? || a.event.WsDone?
    ensures Inv(url, Apply(url, l, a)) && Follows(url, l, a)
  {
    hide ParseRelayUrl, ComputeReconnectDelayMs, Launch, Finish, Pending, Just, MarkError, Inv;
    var op := OperationOf(a.event).value;
    Completes(url, l, op);
    var l1 := Finish(l, op);
    match a.event
    case Resolved(ec) =>
      if ec.Bad? { MarkErrorKeeps(url, l1, Resolve, ec.message, a.now, a.jitter); }
      else { LaunchKeeps(url, SetStatus(url, l1, Connecting, NoError, a.now), Connection); }
    case Connected(ec, sni) =>
      if ec.Bad? { MarkErrorKeeps(url, l1, Connect, ec.message, a.now, a.jitter); }
      else if sni.Bad? { MarkErrorKeeps(url, l1, SetSni, sni.message, a.now, a.jitter); }
      else { LaunchKeeps(url, SetStatus(url, l1, TlsHandshaking, NoError, a.now), TlsShake); }
    case TlsDone(ec) =>
      if ec.Bad? { MarkErrorKeeps(url, l1, TlsHandshake, ec.message, a.now, a.jitter); }
      else { LaunchKeeps(url, SetStatus(url, l1, WsHandshaking, NoError, a.now), WsShake); }
    case WsDone(ec) =>
      if ec.Bad? { MarkErrorKeeps(url, l1, WsHandshake, ec.message, a.now, a.jitter); }
      else {
        var l2 := l1.(session := l1.session.(attempt := 0, wsConnected := true));
        LaunchKeeps(url, SetStatus(url, l2, Subscribed, NoError, a.now), ReqWrite);
      }
  }

  lemma TrafficKeeps(url: string, l: Local, a: Action)
    requires Inv(url, l) && Enabled(l.session, a)
    requires a.event.ReqWritten? || a.event.MessageIn? || a.event.TimerDone?
    ensures Inv(url, Apply(url, l, a)) && Follows(url, l, a)
  {
    hide ParseRelayUrl, ComputeReconnectDelayMs, Launch, Finish, Pending, Just, MarkError, Inv;
    var op := OperationOf(a.event).value;
    Completes(url, l, op);
    var l1 := Finish(l, op);
    match a.event
    case ReqWritten(ec) =>
      if ec.Bad? { MarkErrorKeeps(url, l1, WriteReq, ec.message, a.now, a.jitter); }
      else { StatusWhile(url, l); LaunchKeeps(url, l1, MessageRead); }
    case MessageIn(ec, effect) =>
      if ec.Bad? { MarkErrorKeeps(url, l1, Read, ec.message, a.now, a.jitter); }
      else {
        StatusWhile(url, l);
        var l2 := HandleMessage(url, l1, effect);
        if l2.session.stopped { IdleKeeps(url, l2); } else { LaunchKeeps(url, l2, MessageRead); }
      }
    case TimerDone(ec) =>
      if ec.Bad? || l1.session.stopped { StatusWhile(url, l); IdleKeeps(url, l1); }
      else {
        var l2 := ResetTransport(l1);
        LaunchKeeps(url, SetStatus(url, l2, Resolving, NoError, a.now), Resolution);
      }
  }

  lemma StatusWhile(url: string, l: Local)
    requires Inv(url, l) && Pending(l.session).Some?
    ensures l.entry.Some?
    ensures !l.session.stopped ==> l.entry.value.status == StatusDuring(Pending(l.session).value)
    ensures Pending(l.session) == Some(Timer) && !l.session.stopped ==> !l.session.timerCancelled
  {
    hide ParseRelayUrl;
  }

  /** A stopped session may have nothing outstanding. */
  lemma IdleKeeps(url: string, l: Local)
    requires Between(url, l) && l.session.stopped
    ensures Inv(url, l) && Pending(l.session) == None
  {
    hide ParseRelayUrl;
    PendingOf(l.session, None);
  }

  lemma ClosedKeeps(url: string, l: Local, a: Action)
    requires Inv(url, l) && Enabled(l.session, a) && a.event.Closed?
    ensures Inv(url, Apply(url, l, a)) && Follows(url, l, a)
  {
    hide ParseRelayUrl, Pending;
    SamePending(l.session, Apply(url, l, a).session);
  }

  /** Each enabled step keeps the invariant and follows the chain. */
  lemma StepKeeps(url: string, l: Local, a: Action)
    requires Inv(url, l) && Enabled(l.session, a)
    ensures Inv(url, Apply(url, l, a)) && Follows(url, l, a)
  {
    hide ParseRelayUrl, Inv;
    match a.event
    case Start => StartKeeps(url, l, a.now);
    case Stop => StopKeeps(url, l, a.now);
    case Closed => ClosedKeeps(url, l, a);
    case ReqWritten(_) => TrafficKeeps(url, l, a);
    case MessageIn(_, _) => TrafficKeeps(url, l, a);
    case TimerDone(_) => TrafficKeeps(url, l, a);
    case _ => HandshakeKeeps(url, l, a);
  }

  /** One more action. */
  lemma RunExtends(url: string, l: Local, acts: seq<Action>, a: Action)
    ensures Legal(url, l, acts + [a]) <==> Legal(url, l, acts) && Enabled(Run(url, l, acts).session, a)
    ensures Run(url, l, acts + [a]) == Apply(url, Run(url, l, acts), a)
  {
    hide Enabled, Apply;
    assert (acts + [a])[..|acts + [a]| - 1] == acts;
  }

  lemma {:induction false} RunKeeps(url: string, l: Local, acts: seq<Action>)
    requires Inv(url, l) && Legal(url, l, acts)
    ensures Inv(url, Run(url, l, acts))
  {
    hide Inv, Apply, Enabled;
    if acts != [] {
      var n := |acts| - 1;
      RunKeeps(url, l, acts[..n]);
      StepKeeps(url, Run(url, l, acts[..n]), acts[n]);
    }
  }

  lemma FreshHolds(url: string, entry: Option<RelayStat>)
    requires Consistent(entry)
    ensures Inv(url, Fresh(entry))
  {}

  /** Every state of every run satisfies the invariant. */
  lemma RunKeepsInv(url: string, entry: Option<RelayStat>, acts: seq<Action>)
    requires Consistent(entry) && Legal(url, Fresh(entry), acts)
    ensures Inv(url, Run(url, Fresh(entry), acts))
  {
    hide Inv, Legal, Run;
    FreshHolds(url, entry);
    RunKeeps(url, Fresh(entry), acts);
  }
}
