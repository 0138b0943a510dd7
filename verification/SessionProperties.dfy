/** The promises of one session, over all its runs. */
module SessionProperties {
  import opened Options
  import opened RelayTarget
  import opened Reconnect
  import opened RelayStatsModel
  import opened SessionModel
  import opened SessionRuns

  // ----- one chain of operations -----

  /** At most one operation is outstanding. It fixes the status, the flag and the attempt counter. */
  lemma OneChain(url: string, entry: Option<RelayStat>, acts: seq<Action>)
    requires Consistent(entry) && Legal(url, Fresh(entry), acts)
    ensures var l := Run(url, Fresh(entry), acts);
            var s := l.session;
            && |s.outstanding| <= 1
            && s.attempt <= MAX_RECONNECT_ATTEMPTS
            && (forall op :: op in s.outstanding ==>
                  && (op in {Resolution, Connection, TlsShake, WsShake} ==> !s.wsConnected)
                  && (op in {ReqWrite, MessageRead} ==> s.attempt == 0)
                  && (op == Timer ==> 1 <= s.attempt)
                  && (!s.stopped ==> l.entry.Some? && l.entry.value.status == StatusDuring(op)))
            && (l.entry.Some? ==> (l.entry.value.connectedAt.Some? <==> l.entry.value.status == Subscribed))
  {
    hide ParseRelayUrl, Run, Legal, Pending;
    RunKeepsInv(url, entry, acts);
    var l := Run(url, Fresh(entry), acts);
    if l.session.started {
      forall op | op in l.session.outstanding
        ensures Pending(l.session) == Some(op)
      {
        OnlyPending(l.session, op);
      }
    }
  }

  // ----- giving up -----

  /** A started session that was not stopped and waits for nothing has failed for good: in the
      WebSocket handshake or while it set the server name, or in an early stage after six retries. */
  lemma GivenUp(url: string, entry: Option<RelayStat>, acts: seq<Action>)
    requires Consistent(entry) && Monitored(url) && Legal(url, Fresh(entry), acts)
    requires var s := Run(url, Fresh(entry), acts).session; s.started && !s.stopped && s.outstanding == multiset{}
    ensures var l := Run(url, Fresh(entry), acts);
            && l.entry.Some? && l.entry.value.status == Error && l.entry.value.lastError.StageFailed?
            && var where := l.entry.value.lastError.stage;
               where in {WsHandshake, SetSni}
               || (l.session.attempt == MAX_RECONNECT_ATTEMPTS && where in {Resolve, Connect, TlsHandshake})
    ensures forall a :: Enabled(Run(url, Fresh(entry), acts).session, a) ==> a.event == Stop
  {
    hide ParseRelayUrl, Run, Legal, Monitored;
    RunKeepsInv(url, entry, acts);
    var l := Run(url, Fresh(entry), acts);
    PendingOf(l.session, None);
    GaveUpWhenMonitored(url, l.session.attempt, l.entry.value.lastError);
    forall a | Enabled(l.session, a)
      ensures a.event == Stop
    {}
  }

  lemma GaveUpWhenMonitored(url: string, attempt: nat, error: ErrorText)
    requires Monitored(url) && GaveUp(url, attempt, error)
    ensures error.StageFailed?
    ensures error.stage in {WsHandshake, SetSni} || (attempt == 6 && error.stage in {Resolve, Connect, TlsHandshake})
  {
    hide ParseRelayUrl;
  }

  /** A failure before Stop ends the session if and only if it is one of these; a failed read or
      request write is always retried. */
  lemma FailureOutcome(url: string, entry: Option<RelayStat>, acts: seq<Action>, a: Action)
    requires Consistent(entry) && Legal(url, Fresh(entry), acts) && Enabled(Run(url, Fresh(entry), acts).session, a)
    requires FailedStage(a.event).Some? && !Run(url, Fresh(entry), acts).session.stopped
    ensures var l := Run(url, Fresh(entry), acts);
            var where := FailedStage(a.event).value;
            var r := Apply(url, l, a).session;
            && (r.outstanding == multiset{} <==>
                    where in {WsHandshake, SetSni} || l.session.attempt == MAX_RECONNECT_ATTEMPTS)
            && (r.outstanding != multiset{} ==> r.outstanding == multiset{Timer} && r.attempt == l.session.attempt + 1)
            && (where in {Read, WriteReq} ==> r.outstanding == multiset{Timer} && r.attempt == 1)
  {
    hide ParseRelayUrl, Run, Legal, Apply, Pending;
    RunKeepsInv(url, entry, acts);
    var l := Run(url, Fresh(entry), acts);
    StepKeeps(url, l, a);
    FailureEnds(l.session, a);
    Emptiness(Apply(url, l, a).session);
  }

  lemma FailureEnds(s: Session, a: Action)
    requires Enabled(s, a) && FailedStage(a.event).Some? && SingleChain(s)
    ensures var where := FailedStage(a.event).value;
            where in {Read, WriteReq} ==> s.attempt == 0
    ensures !s.stopped ==> (ShouldReconnectAttempt(s.stopped, s.attempt, FailedStage(a.event).value) <==>
                              !(FailedStage(a.event).value in {WsHandshake, SetSni}
                                || s.attempt == MAX_RECONNECT_ATTEMPTS))
  {
    hide Pending;
    OnlyPending(s, OperationOf(a.event).value);
  }

  lemma Emptiness(s: Session)
    requires SingleChain(s)
    ensures s.outstanding == multiset{} <==> Pending(s) == None
    ensures Pending(s) == Some(Timer) ==> s.outstanding == multiset{Timer}
  {
    hide Pending;
  }

  // ----- retrying ends -----

  /** How many operations have completed. */
  function Completions(acts: seq<Action>): nat {
    if acts == [] then 0
    else Completions(acts[..|acts| - 1]) + (if OperationOf(acts[|acts| - 1].event).Some? then 1 else 0)
  }

  predicate NoHandshake(acts: seq<Action>) {
    forall i :: 0 <= i < |acts| ==> acts[i].event != WsDone(Ok)
  }

  /** The completions that can still come while no WebSocket handshake succeeds. */
  function Remaining(s: Session): int {
    var rounds := 4 * (MAX_RECONNECT_ATTEMPTS - s.attempt);
    if !s.started then 4 + rounds
    else
      match Pending(s)
      case Some(Resolution) => 4 + rounds
      case Some(Connection) => 3 + rounds
      case Some(TlsShake) => 2 + rounds
      case Some(WsShake) => 1
      case Some(Timer) => 5 + rounds
      case _ => 0
  }

  /** Without a successful WebSocket handshake a session lives through at most 28 completions. */
  lemma {:induction false} RetriesEnd(url: string, entry: Option<RelayStat>, acts: seq<Action>)
    requires Consistent(entry) && Legal(url, Fresh(entry), acts) && NoHandshake(acts)
    ensures var s := Run(url, Fresh(entry), acts).session;
            && Completions(acts) + Remaining(s) <= 28 && Remaining(s) >= 0
            && Pending(s) !in {Some(ReqWrite), Some(MessageRead)}
  {
    hide ParseRelayUrl, Apply, Pending, Remaining, Inv, Enabled;
    if acts == [] {
      NothingPending(entry);
    } else {
      var n := |acts| - 1;
      var l := Run(url, Fresh(entry), acts[..n]);
      RetriesEnd(url, entry, acts[..n]);
      RunKeepsInv(url, entry, acts[..n]);
      RetryStep(url, l, acts[n]);
    }
  }

  lemma NothingPending(entry: Option<RelayStat>)
    ensures Remaining(Fresh(entry).session) == 28 && Pending(Fresh(entry).session) == None
  {}

  lemma RetryStep(url: string, l: Local, a: Action)
    requires Inv(url, l) && Enabled(l.session, a) && a.event != WsDone(Ok)
    requires Pending(l.session) !in {Some(ReqWrite), Some(MessageRead)} && Remaining(l.session) >= 0
    ensures var s := Apply(url, l, a).session;
            && Remaining(s) + (if OperationOf(a.event).Some? then 1 else 0) <= Remaining(l.session)
            && Remaining(s) >= 0
            && Pending(s) !in {Some(ReqWrite), Some(MessageRead)}
  {
    hide ParseRelayUrl, Apply, Pending, Monitored, Inv, Enabled, NextPending, NextAttempt, Remaining;
    StepKeeps(url, l, a);
    ChainFacts(url, l, a);
    RetryCount(url, l.session, Apply(url, l, a).session, a.event);
  }

  /** The completed operation was the pending one. */
  lemma ChainFacts(url: string, l: Local, a: Action)
    requires Inv(url, l) && Enabled(l.session, a)
    ensures l.session.attempt <= MAX_RECONNECT_ATTEMPTS
    ensures OperationOf(a.event).Some? ==> l.session.started && Pending(l.session) == OperationOf(a.event)
    ensures a.event.Start? ==> !l.session.started && l.session.attempt == 0
    ensures !a.event.Start? ==> l.session.started
  {
    hide ParseRelayUrl, Pending;
    if OperationOf(a.event).Some? {
      OnlyPending(l.session, OperationOf(a.event).value);
    }
  }

  lemma RetryCount(url: string, s: Session, r: Session, e: Event)
    requires s.attempt <= MAX_RECONNECT_ATTEMPTS && e != WsDone(Ok) && Remaining(s) >= 0
    requires Pending(s) !in {Some(ReqWrite), Some(MessageRead)}
    requires OperationOf(e).Some? ==> s.started && Pending(s) == OperationOf(e)
    requires e.Start? ==> !s.started && s.attempt == 0
    requires !e.Start? ==> s.started
    requires Pending(r) == NextPending(url, s, e) && r.attempt == NextAttempt(s, e) && r.started
    ensures Remaining(r) + (if OperationOf(e).Some? then 1 else 0) <= Remaining(s) && Remaining(r) >= 0
    ensures Pending(r) !in {Some(ReqWrite), Some(MessageRead)}
  {
    hide ParseRelayUrl, Pending, Monitored;
  }

  // ----- after Stop -----

  /** The completions that can still come after Stop. */
  function Budget(s: Session): nat {
    match Pending(s)
    case Some(Resolution) => 6
    case Some(Connection) => 5
    case Some(TlsShake) => 4
    case Some(WsShake) => 3
    case Some(ReqWrite) => 2
    case Some(MessageRead) => 1
    case Some(Timer) => 1
    case None => 0
  }

  /** How many messages were handled. */
  function Handled(acts: seq<Action>): nat {
    if acts == [] then 0
    else Handled(acts[..|acts| - 1])
         + (if acts[|acts| - 1].event.MessageIn? && acts[|acts| - 1].event.ec.Ok? then 1 else 0)
  }

  function Messages(s: Session): nat {
    if Pending(s) in {None, Some(Timer)} then 0 else 1
  }

  predicate Armed(s: Session, a: Action) {
    FailedStage(a.event).Some? && ShouldReconnectAttempt(s.stopped, s.attempt, FailedStage(a.event).value)
  }

  lemma StoppedStep(url: string, l: Local, a: Action)
    requires Inv(url, l) && Enabled(l.session, a) && l.session.started && l.session.stopped
    ensures var s := Apply(url, l, a).session;
            && s.started && s.stopped
            && Budget(s) + (if OperationOf(a.event).Some? then 1 else 0) <= Budget(l.session)
            && Messages(s) + (if a.event.MessageIn? && a.event.ec.Ok? then 1 else 0) <= Messages(l.session)
            && !Armed(l.session, a)
            && (Pending(s) == Some(Timer) ==> Pending(l.session) == Some(Timer))
  {
    hide ParseRelayUrl, Apply, Pending, Monitored, Inv;
    StepKeeps(url, l, a);
    ChainFacts(url, l, a);
  }

  lemma {:induction false} AfterStop(url: string, l: Local, acts: seq<Action>)
    requires Inv(url, l) && l.session.started && l.session.stopped && Legal(url, l, acts)
    ensures var r := Run(url, l, acts);
            && Inv(url, r) && r.session.started && r.session.stopped
            && Completions(acts) + Budget(r.session) <= Budget(l.session)
            && Handled(acts) + Messages(r.session) <= Messages(l.session)
            && (Pending(r.session) == Some(Timer) ==> Pending(l.session) == Some(Timer))
  {
    hide Inv, Apply, Enabled, Pending, Budget, Messages;
    if acts != [] {
      var n := |acts| - 1;
      AfterStop(url, l, acts[..n]);
      StepKeeps(url, Run(url, l, acts[..n]), acts[n]);
      StoppedStep(url, Run(url, l, acts[..n]), acts[n]);
    }
  }

  /** A run splits at any point. */
  lemma {:induction false} RunSplits(url: string, l: Local, xs: seq<Action>, ys: seq<Action>)
    ensures Legal(url, l, xs + ys) <==> Legal(url, l, xs) && Legal(url, Run(url, l, xs), ys)
    ensures Run(url, l, xs + ys) == Run(url, Run(url, l, xs), ys)
  {
    hide Apply, Enabled;
    if ys == [] {
      assert xs + ys == xs;
    } else {
      var n := |ys| - 1;
      RunSplits(url, l, xs, ys[..n]);
      assert (xs + ys)[..|xs + ys| - 1] == xs + ys[..n];
    }
  }

  /** Once Stop has run, at most six operations complete and then nothing is outstanding, at most
      one message is handled, and no reconnect timer is armed: one that is outstanding later was
      outstanding at Stop. */
  lemma QuietAfterStop(url: string, entry: Option<RelayStat>, before: seq<Action>, stop: Action, after: seq<Action>)
    requires Consistent(entry) && stop.event == Stop
    requires Legal(url, Fresh(entry), before + [stop] + after)
    ensures Completions(after) <= 6 && Handled(after) <= 1
    ensures Completions(after) == 6 ==>
              Run(url, Fresh(entry), before + [stop] + after).session.outstanding == multiset{}
    ensures forall i :: 0 <= i < |after| ==>
              !Armed(Run(url, Run(url, Fresh(entry), before + [stop]), after[..i]).session, after[i])
    ensures forall i :: 0 <= i <= |after| ==>
              (Timer in Run(url, Run(url, Fresh(entry), before + [stop]), after[..i]).session.outstanding
               ==> Timer in Run(url, Fresh(entry), before).session.outstanding)
  {
    hide Inv, Apply, Enabled, Pending, Armed, Run, Legal, Completions, Handled, Messages;
    var l := Run(url, Fresh(entry), before + [stop]);
    RunSplits(url, Fresh(entry), before + [stop], after);
    StopSplits(url, entry, before, stop);
    SameOutstanding(url, Run(url, Fresh(entry), before), stop);
    RunKeepsInv(url, entry, before + [stop]);
    StopLast(url, entry, before, stop);
    AfterStop(url, l, after);
    AtMostOne(l.session);
    SpentBudget(url, Run(url, l, after));
    forall i | 0 <= i < |after|
      ensures !Armed(Run(url, l, after[..i]).session, after[i])
    {
      LegalPrefix(url, l, after, i);
      AfterStop(url, l, after[..i]);
      StoppedStep(url, Run(url, l, after[..i]), after[i]);
    }
    forall i | 0 <= i <= |after|
      ensures Timer in Run(url, l, after[..i]).session.outstanding ==> Timer in l.session.outstanding
    {
      if i < |after| {
        LegalPrefix(url, l, after, i);
      }
      assert after[..|after|] == after;
      AfterStop(url, l, after[..i]);
      TimerIsPending(url, Run(url, l, after[..i]));
      TimerIsPending(url, l);
    }
  }

  /** Stop takes nothing out of flight. */
  lemma SameOutstanding(url: string, l: Local, stop: Action)
    requires stop.event == Stop
    ensures Apply(url, l, stop).session.outstanding == l.session.outstanding
  {}

  lemma TimerIsPending(url: string, l: Local)
    requires Inv(url, l) && l.session.started
    ensures Timer in l.session.outstanding <==> Pending(l.session) == Some(Timer)
  {
    hide ParseRelayUrl, Pending;
    Emptiness(l.session);
    if Timer in l.session.outstanding {
      OnlyPending(l.session, Timer);
    }
  }

  lemma AtMostOne(s: Session)
    ensures Messages(s) <= 1
  {}

  lemma SpentBudget(url: string, l: Local)
    requires Inv(url, l) && l.session.started
    ensures Budget(l.session) == 0 ==> l.session.outstanding == multiset{}
  {
    hide ParseRelayUrl, Pending;
  }

  lemma StopLast(url: string, entry: Option<RelayStat>, before: seq<Action>, stop: Action)
    requires Consistent(entry) && stop.event == Stop && Legal(url, Fresh(entry), before + [stop])
    ensures var s := Run(url, Fresh(entry), before + [stop]).session; s.started && s.stopped
  {
    hide Inv, Apply, Pending, Run, Legal;
    RunExtends(url, Fresh(entry), before, stop);
    RunKeepsInv(url, entry, before);
    StepKeeps(url, Run(url, Fresh(entry), before), stop);
  }

  lemma {:induction false} LegalPrefix(url: string, l: Local, acts: seq<Action>, i: nat)
    requires Legal(url, l, acts) && i < |acts|
    ensures Legal(url, l, acts[..i]) && Enabled(Run(url, l, acts[..i]).session, acts[i])
  {
    hide Enabled, Apply, Run;
    var n := |acts| - 1;
    if i < n {
      LegalPrefix(url, l, acts[..n], i);
      assert acts[..n][..i] == acts[..i] && acts[..n][i] == acts[i];
    }
  }

  lemma Extend(url: string, l: Local, acts: seq<Action>, a: Action)
    requires Legal(url, l, acts) && Enabled(Run(url, l, acts).session, a)
    ensures Legal(url, l, acts + [a]) && Run(url, l, acts + [a]) == Apply(url, Run(url, l, acts), a)
    ensures Completions(acts + [a]) == Completions(acts) + (if OperationOf(a.event).Some? then 1 else 0)
    ensures Handled(acts + [a]) == Handled(acts) + (if a.event.MessageIn? && a.event.ec.Ok? then 1 else 0)
    ensures NoHandshake(acts) && a.event != WsDone(Ok) ==> NoHandshake(acts + [a])
  {
    hide Enabled, Apply, Run, Legal;
    RunExtends(url, l, acts, a);
    assert (acts + [a])[..|acts + [a]| - 1] == acts;
  }

  /** The table entry keeps saying Disconnected whatever comes after Stop, if and only if Stop found
      no open WebSocket, and no operation of the chain under way: the later handlers do not look
      whether the session is stopped. */
  lemma StaysDisconnected(url: string, entry: Option<RelayStat>, before: seq<Action>, stop: Action)
    requires Consistent(entry) && stop.event == Stop && Legal(url, Fresh(entry), before + [stop])
    requires !Run(url, Fresh(entry), before).session.stopped
    ensures var s := Run(url, Fresh(entry), before).session;
            !s.wsConnected && (s.outstanding == multiset{} || s.outstanding == multiset{Timer})
            <==> (forall after :: Legal(url, Fresh(entry), before + [stop] + after)
                                  ==> SaysDisconnected(Run(url, Fresh(entry), before + [stop] + after)))
  {
    hide Inv, Apply, Enabled, Pending, Run, Legal, SaysDisconnected, Settled;
    var l := Run(url, Fresh(entry), before);
    var r := Run(url, Fresh(entry), before + [stop]);
    StopSplits(url, entry, before, stop);
    var quiet := !l.session.wsConnected
                 && (l.session.outstanding == multiset{} || l.session.outstanding == multiset{Timer});
    forall after | quiet && Legal(url, Fresh(entry), before + [stop] + after)
      ensures SaysDisconnected(Run(url, Fresh(entry), before + [stop] + after))
    {
      RunSplits(url, Fresh(entry), before + [stop], after);
      StopSettles(url, l, stop);
      StopOrClose(url, l, stop);
      SettledRun(url, r, after);
    }
    if !quiet {
      var after := LoudStop(url, l, stop);
      RunSplits(url, Fresh(entry), before + [stop], after);
    }
  }

  predicate SaysDisconnected(l: Local) {
    l.entry.Some? && l.entry.value.status == Disconnected
  }

  lemma StopSplits(url: string, entry: Option<RelayStat>, before: seq<Action>, stop: Action)
    requires Consistent(entry) && stop.event == Stop && Legal(url, Fresh(entry), before + [stop])
    ensures var l := Run(url, Fresh(entry), before);
            && Inv(url, l) && l.session.started && Enabled(l.session, stop)
            && Legal(url, Fresh(entry), before + [stop])
            && Run(url, Fresh(entry), before + [stop]) == Apply(url, l, stop)
  {
    hide Inv, Apply, Pending, Run, Legal;
    RunExtends(url, Fresh(entry), before, stop);
    RunKeepsInv(url, entry, before);
  }

  /** The completion that reports an error. */
  function FailureOf(op: Operation): Action {
    Action(match op
           case Resolution => Resolved(Bad(""))
           case Connection => Connected(Bad(""), Ok)
           case TlsShake => TlsDone(Bad(""))
           case WsShake => WsDone(Bad(""))
           case ReqWrite => ReqWritten(Bad(""))
           case MessageRead => MessageIn(Bad(""), Ignore)
           case Timer => TimerDone(Bad("")), 0, 0)
  }

  lemma LoudStop(url: string, l: Local, stop: Action) returns (after: seq<Action>)
    requires Inv(url, l) && l.session.started && !l.session.stopped && stop.event == Stop && Enabled(l.session, stop)
    requires l.session.wsConnected || !(l.session.outstanding == multiset{} || l.session.outstanding == multiset{Timer})
    ensures Legal(url, Apply(url, l, stop), after) && !SaysDisconnected(Run(url, Apply(url, l, stop), after))
  {
    if l.session.wsConnected {
      after := [];
      NotYetClosed(url, l, stop);
    } else {
      var op :| op in l.session.outstanding && op != Timer by { SomeOther(url, l); }
      after := [FailureOf(op)];
      StopOrClose(url, l, stop);
      FailsLater(url, Apply(url, l, stop), op);
      assert after[..0] == [];
    }
  }

  lemma SomeOther(url: string, l: Local)
    requires Inv(url, l) && l.session.started
    requires !(l.session.outstanding == multiset{} || l.session.outstanding == multiset{Timer})
    ensures exists op :: op in l.session.outstanding && op != Timer
  {
    hide ParseRelayUrl, Pending;
    Emptiness(l.session);
    assert Pending(l.session).value in l.session.outstanding;
  }

  lemma NotYetClosed(url: string, l: Local, stop: Action)
    requires Inv(url, l) && l.session.started && !l.session.stopped && stop.event == Stop && l.session.wsConnected
    ensures !SaysDisconnected(Apply(url, l, stop))
  {
    hide ParseRelayUrl, Pending;
  }

  /** Stopped, with the WebSocket closed or being closed, and with nothing outstanding but a timer. */
  predicate Settled(s: Session) {
    s.started && s.stopped && !s.wsConnected && (Pending(s) == None || Pending(s) == Some(Timer))
  }

  lemma SettledStep(url: string, l: Local, a: Action)
    requires Inv(url, l) && Settled(l.session) && Enabled(l.session, a)
    ensures Settled(Apply(url, l, a).session)
    ensures SaysDisconnected(l) ==> SaysDisconnected(Apply(url, l, a))
  {
    hide Pending, ParseRelayUrl, Inv, Apply, SaysDisconnected, Enabled;
    StepKeeps(url, l, a);
    ChainFacts(url, l, a);
    NothingSaid(url, l, a);
  }

  /** Without a socket to close or a chain under way no later handler says anything else. */
  lemma NothingSaid(url: string, l: Local, a: Action)
    requires l.session.stopped && !l.session.wsConnected && !a.event.Start?
    requires OperationOf(a.event) == None || OperationOf(a.event) == Some(Timer)
    ensures SaysDisconnected(l) ==> SaysDisconnected(Apply(url, l, a))
  {}

  lemma {:induction false} SettledRun(url: string, l: Local, acts: seq<Action>)
    requires Inv(url, l) && Settled(l.session) && Legal(url, l, acts)
    ensures Inv(url, Run(url, l, acts)) && Settled(Run(url, l, acts).session)
    ensures SaysDisconnected(l) ==> SaysDisconnected(Run(url, l, acts))
  {
    hide Inv, Settled, Apply, Enabled, SaysDisconnected;
    if acts != [] {
      var n := |acts| - 1;
      SettledRun(url, l, acts[..n]);
      SettledStep(url, Run(url, l, acts[..n]), acts[n]);
      StepKeeps(url, Run(url, l, acts[..n]), acts[n]);
    }
  }

  lemma StopSettles(url: string, l: Local, stop: Action)
    requires Inv(url, l) && l.session.started && stop.event == Stop && Enabled(l.session, stop)
    requires l.session.outstanding == multiset{} || l.session.outstanding == multiset{Timer}
    ensures Inv(url, Apply(url, l, stop)) && Settled(Apply(url, l, stop).session)
  {
    hide Inv, Pending, ParseRelayUrl;
    StepKeeps(url, l, stop);
    PendingOf(l.session, if l.session.outstanding == multiset{} then None else Some(Timer));
  }

  /** Once the entry says Disconnected after the first Stop it says so for good, if and only if Stop
      found nothing outstanding but a timer, whether or not it had a WebSocket to close. */
  lemma SettlesDisconnected(url: string, entry: Option<RelayStat>, before: seq<Action>, stop: Action)
    requires Consistent(entry) && stop.event == Stop && Legal(url, Fresh(entry), before + [stop])
    requires !Run(url, Fresh(entry), before).session.stopped
    ensures var s := Run(url, Fresh(entry), before).session;
            var r := Run(url, Fresh(entry), before + [stop]);
            s.outstanding == multiset{} || s.outstanding == multiset{Timer}
            <==> (forall mid, more :: Legal(url, r, mid) && SaysDisconnected(Run(url, r, mid))
                                      && Legal(url, Run(url, r, mid), more)
                                      ==> SaysDisconnected(Run(url, Run(url, r, mid), more)))
  {
    hide Inv, Apply, Enabled, Pending, Run, Legal, SaysDisconnected, Settled;
    var l := Run(url, Fresh(entry), before);
    var r := Run(url, Fresh(entry), before + [stop]);
    StopSplits(url, entry, before, stop);
    if l.session.outstanding == multiset{} || l.session.outstanding == multiset{Timer} {
      StopSettles(url, l, stop);
      forall mid, more | Legal(url, r, mid) && SaysDisconnected(Run(url, r, mid)) && Legal(url, Run(url, r, mid), more)
        ensures SaysDisconnected(Run(url, Run(url, r, mid), more))
      {
        SettledRun(url, r, mid);
        SettledRun(url, Run(url, r, mid), more);
      }
    } else {
      var mid, more := Unsettled(url, l, stop);
    }
  }

  /** The entry says Disconnected at once, or when the close is done, and then an operation fails. */
  lemma Unsettled(url: string, l: Local, stop: Action) returns (mid: seq<Action>, more: seq<Action>)
    requires Inv(url, l) && l.session.started && !l.session.stopped && stop.event == Stop
    requires !(l.session.outstanding == multiset{} || l.session.outstanding == multiset{Timer})
    ensures var r := Apply(url, l, stop);
            && Legal(url, r, mid) && SaysDisconnected(Run(url, r, mid))
            && Legal(url, Run(url, r, mid), more) && !SaysDisconnected(Run(url, Run(url, r, mid), more))
  {
    hide Inv, Apply, Enabled, Run, Legal, SaysDisconnected;
    var r := Apply(url, l, stop);
    var op :| op in l.session.outstanding && op != Timer by { SomeOther(url, l); }
    mid := NothingYet(url, r);
    StopOrClose(url, l, stop);
    if l.session.wsConnected {
      RunExtends(url, r, mid, CLOSE_DONE);
      mid := mid + [CLOSE_DONE];
    }
    var q := Run(url, r, mid);
    FailsLater(url, q, op);
    more := NothingYet(url, q);
    RunExtends(url, q, more, FailureOf(op));
    more := more + [FailureOf(op)];
  }

  const CLOSE_DONE := Action(Closed, 0, 0)

  lemma StopOrClose(url: string, l: Local, stop: Action)
    requires stop.event == Stop
    ensures var r := Apply(url, l, stop);
            && r.session.outstanding == l.session.outstanding
            && (!l.session.wsConnected ==> SaysDisconnected(r))
            && (l.session.wsConnected ==>
                  && Enabled(r.session, CLOSE_DONE)
                  && SaysDisconnected(Apply(url, r, CLOSE_DONE))
                  && Apply(url, r, CLOSE_DONE).session.outstanding == l.session.outstanding)
  {}

  lemma FailsLater(url: string, q: Local, op: Operation)
    requires op in q.session.outstanding && op != Timer
    ensures Enabled(q.session, FailureOf(op))
    ensures var r := Apply(url, q, FailureOf(op));
            r.entry.Some? && r.entry.value.status == Error && !SaysDisconnected(r)
  {
    hide ParseRelayUrl;
  }

  // ----- coming to rest -----

  /** Nothing is in flight any more. */
  predicate AtRest(s: Session) {
    s.outstanding == multiset{} && s.closing == 0
  }

  /** Stopped, with the flag clear, and no handshake that can still set it: the chain is before or in
      the TLS handshake on a closed socket, or in a WebSocket handshake begun on one. */
  predicate StaysClear(s: Session) {
    && s.started && s.stopped && !s.wsConnected
    && Pending(s) != Some(Resolution)
    && (Pending(s) == Some(Connection) || Pending(s) == Some(TlsShake) ==> s.shut)
    && (Pending(s) == Some(WsShake) ==> s.shut && s.doomed)
  }

  lemma ClearStep(url: string, l: Local, a: Action)
    requires Inv(url, l) && StaysClear(l.session) && Enabled(l.session, a)
    ensures StaysClear(Apply(url, l, a).session)
  {
    hide Pending, ParseRelayUrl, Apply, Inv, Monitored;
    StepKeeps(url, l, a);
    ChainFacts(url, l, a);
  }

  lemma {:induction false} ClearRun(url: string, l: Local, acts: seq<Action>)
    requires Inv(url, l) && StaysClear(l.session) && Legal(url, l, acts)
    ensures Inv(url, Run(url, l, acts)) && StaysClear(Run(url, l, acts).session)
  {
    hide Inv, StaysClear, Apply, Enabled;
    if acts != [] {
      var n := |acts| - 1;
      ClearRun(url, l, acts[..n]);
      ClearStep(url, Run(url, l, acts[..n]), acts[n]);
      StepKeeps(url, Run(url, l, acts[..n]), acts[n]);
    }
  }

  /** Stopped, and no connect to come that could open the socket again: if the flag is set, the
      socket is closed. */
  predicate StaysShut(s: Session) {
    && s.started && s.stopped
    && Pending(s) != Some(Resolution)
    && (s.wsConnected || (Pending(s).Some? && Pending(s).value in {Connection, TlsShake, WsShake}) ==> s.shut)
  }

  lemma ShutStep(url: string, l: Local, a: Action)
    requires Inv(url, l) && StaysShut(l.session) && Enabled(l.session, a)
    ensures StaysShut(Apply(url, l, a).session)
  {
    hide Pending, ParseRelayUrl, Apply, Inv, Monitored;
    StepKeeps(url, l, a);
    ChainFacts(url, l, a);
  }

  lemma {:induction false} ShutRun(url: string, l: Local, acts: seq<Action>)
    requires Inv(url, l) && StaysShut(l.session) && Legal(url, l, acts)
    ensures Inv(url, Run(url, l, acts)) && StaysShut(Run(url, l, acts).session)
  {
    hide Inv, StaysShut, Apply, Enabled;
    if acts != [] {
      var n := |acts| - 1;
      ShutRun(url, l, acts[..n]);
      ShutStep(url, Run(url, l, acts[..n]), acts[n]);
      StepKeeps(url, Run(url, l, acts[..n]), acts[n]);
    }
  }

  /** A stopped session rests with the flag ws_connected_ clear, whatever comes after the first Stop,
      if and only if Stop found neither the resolve nor the WebSocket handshake outstanding: these may
      have succeeded before they are cancelled, while an operation begun on the socket that Stop closed
      can only fail. */
  lemma RestsClear(url: string, entry: Option<RelayStat>, before: seq<Action>, stop: Action)
    requires Consistent(entry) && stop.event == Stop && Legal(url, Fresh(entry), before + [stop])
    requires !Run(url, Fresh(entry), before).session.stopped
    ensures var s := Run(url, Fresh(entry), before).session;
            var r := Run(url, Fresh(entry), before + [stop]);
            Resolution !in s.outstanding && WsShake !in s.outstanding
            <==> (forall after :: Legal(url, r, after) && AtRest(Run(url, r, after).session)
                                  ==> !Run(url, r, after).session.wsConnected)
  {
    hide Inv, Apply, Enabled, Pending, Run, Legal, AtRest, StaysClear;
    var l := Run(url, Fresh(entry), before);
    var r := Run(url, Fresh(entry), before + [stop]);
    StopSplits(url, entry, before, stop);
    StepKeeps(url, l, stop);
    if Resolution !in l.session.outstanding && WsShake !in l.session.outstanding {
      StopStaysClear(url, l, stop);
      forall after | Legal(url, r, after) && AtRest(Run(url, r, after).session)
        ensures !Run(url, r, after).session.wsConnected
      {
        ClearRun(url, r, after);
        ClearFlag(Run(url, r, after).session);
      }
    } else if Resolution in l.session.outstanding {
      StopInFlight(url, l, stop, Resolution);
      var after := OpensAgain(url, r);
    } else {
      StopInFlight(url, l, stop, WsShake);
      var after := HandshakeWasDone(url, r);
    }
  }

  lemma ClearFlag(s: Session)
    requires StaysClear(s)
    ensures !s.wsConnected
  {}

  lemma StopStaysClear(url: string, l: Local, stop: Action)
    requires Inv(url, l) && l.session.started && !l.session.stopped && stop.event == Stop && Enabled(l.session, stop)
    requires Resolution !in l.session.outstanding && WsShake !in l.session.outstanding
    ensures StaysClear(Apply(url, l, stop).session)
  {
    hide ParseRelayUrl, Apply, Inv, Pending;
    StepKeeps(url, l, stop);
    ChainFlag(url, l);
  }

  /** The pending operation is in flight, and the flag is clear before the handshake is done. */
  lemma ChainFlag(url: string, l: Local)
    requires Inv(url, l) && l.session.started
    ensures Pending(l.session).Some? ==> Pending(l.session).value in l.session.outstanding
    ensures Pending(l.session).Some? && Pending(l.session).value in {Resolution, Connection, TlsShake, WsShake}
            ==> !l.session.wsConnected
  {
    hide ParseRelayUrl, Pending;
    if Pending(l.session).Some? {
      PendingIsOutstanding(url, l);
    }
  }

  lemma StopInFlight(url: string, l: Local, stop: Action, op: Operation)
    requires Inv(url, l) && l.session.started && !l.session.stopped && stop.event == Stop && Enabled(l.session, stop)
    requires op in l.session.outstanding && (op == Resolution || op == WsShake)
    ensures var s := Apply(url, l, stop).session;
            && Pending(s) == Some(op) && s.started && s.stopped && s.closing == 0 && s.shut && !s.doomed
  {
    hide ParseRelayUrl, Apply, Pending;
    StepKeeps(url, l, stop);
    OnlyPending(l.session, op);
  }

  /** When the flag is set at rest after the first Stop, the TCP socket is closed all the same, whatever
      came in between, if and only if Stop did not find the resolve outstanding: only a resolve leads to
      a connect that opens the socket again. */
  lemma RestsShut(url: string, entry: Option<RelayStat>, before: seq<Action>, stop: Action)
    requires Consistent(entry) && stop.event == Stop && Legal(url, Fresh(entry), before + [stop])
    requires !Run(url, Fresh(entry), before).session.stopped
    ensures var r := Run(url, Fresh(entry), before + [stop]);
            Resolution !in Run(url, Fresh(entry), before).session.outstanding
            <==> (forall after :: Legal(url, r, after)
                                  && AtRest(Run(url, r, after).session) && Run(url, r, after).session.wsConnected
                                  ==> Run(url, r, after).session.shut)
  {
    hide Inv, Apply, Enabled, Pending, Run, Legal, AtRest, StaysShut;
    var l := Run(url, Fresh(entry), before);
    var r := Run(url, Fresh(entry), before + [stop]);
    StopSplits(url, entry, before, stop);
    StepKeeps(url, l, stop);
    if Resolution !in l.session.outstanding {
      StopStaysShut(url, l, stop);
      forall after | Legal(url, r, after) && Run(url, r, after).session.wsConnected
        ensures Run(url, r, after).session.shut
      {
        ShutRun(url, r, after);
        ShutFlag(Run(url, r, after).session);
      }
    } else {
      StopInFlight(url, l, stop, Resolution);
      var after := OpensAgain(url, r);
    }
  }

  lemma ShutFlag(s: Session)
    requires StaysShut(s) && s.wsConnected
    ensures s.shut
  {}

  lemma StopStaysShut(url: string, l: Local, stop: Action)
    requires Inv(url, l) && l.session.started && !l.session.stopped && stop.event == Stop && Enabled(l.session, stop)
    requires Resolution !in l.session.outstanding
    ensures StaysShut(Apply(url, l, stop).session)
  {
    hide ParseRelayUrl, Apply, Inv, Pending;
    StepKeeps(url, l, stop);
    ChainFlag(url, l);
  }

  /** The completion that reports success. */
  function SuccessOf(op: Operation): Action {
    Action(match op
           case Resolution => Resolved(Ok)
           case Connection => Connected(Ok, Ok)
           case TlsShake => TlsDone(Ok)
           case WsShake => WsDone(Ok)
           case ReqWrite => ReqWritten(Ok)
           case MessageRead => MessageIn(Ok, Ignore)
           case Timer => TimerDone(Ok), 0, 0)
  }

  lemma OutcomeEnabled(s: Session, op: Operation)
    requires op in s.outstanding && op != Timer
    ensures Enabled(s, FailureOf(op)) && OperationOf(FailureOf(op).event) == Some(op)
    ensures !s.doomed ==> Enabled(s, SuccessOf(op))
    ensures OperationOf(SuccessOf(op).event) == Some(op) && FailedStage(SuccessOf(op).event) == None
  {}

  /** When everything succeeds after a Stop during the resolve, a new socket is opened and the session
      rests with the flag set. */
  lemma {:induction false} OpensAgain(url: string, l: Local) returns (after: seq<Action>)
    requires Inv(url, l) && l.session.started && l.session.stopped && l.session.closing == 0 && !l.session.doomed
    requires Pending(l.session).Some? && Pending(l.session) != Some(Timer)
    requires Pending(l.session) == Some(Resolution) || !l.session.shut
    requires Pending(l.session) in {Some(ReqWrite), Some(MessageRead)} ==> l.session.wsConnected
    ensures Legal(url, l, after)
    ensures var s := Run(url, l, after).session; AtRest(s) && s.wsConnected && !s.shut
    decreases Budget(l.session)
  {
    hide Inv, Apply, Enabled, Run, Legal, Pending, Messages;
    var op := Pending(l.session).value;
    var a := SuccessOf(op);
    PendingIsOutstanding(url, l);
    OutcomeEnabled(l.session, op);
    StepKeeps(url, l, a);
    StoppedStep(url, l, a);
    var r := Apply(url, l, a);
    var nothing := NothingYet(url, l);
    RunExtends(url, l, nothing, a);
    assert nothing + [a] == [a];
    if op == MessageRead {
      after := [a];
      SpentBudget(url, r);
    } else {
      var rest := OpensAgain(url, r);
      after := [a] + rest;
      RunSplits(url, l, [a], rest);
    }
  }

  /** A WebSocket handshake that had succeeded when Stop came sets the flag; the request cannot be
      written on the closed socket, and nothing clears the flag any more. */
  lemma HandshakeWasDone(url: string, l: Local) returns (after: seq<Action>)
    requires Inv(url, l) && Pending(l.session) == Some(WsShake)
    requires l.session.started && l.session.stopped && l.session.closing == 0 && l.session.shut && !l.session.doomed
    ensures Legal(url, l, after)
    ensures var s := Run(url, l, after).session; AtRest(s) && s.wsConnected
  {
    hide Inv, Apply, Enabled, Run, Legal, Pending, Messages;
    var done, failed := SuccessOf(WsShake), FailureOf(ReqWrite);
    PendingIsOutstanding(url, l);
    OutcomeEnabled(l.session, WsShake);
    StepKeeps(url, l, done);
    var m := Apply(url, l, done);
    PendingIsOutstanding(url, m);
    OutcomeEnabled(m.session, ReqWrite);
    StepKeeps(url, m, failed);
    SpentBudget(url, Apply(url, m, failed));
    var nothing := NothingYet(url, l);
    RunExtends(url, l, nothing, done);
    RunExtends(url, l, nothing + [done], failed);
    after := nothing + [done] + [failed];
  }

  // ----- both bounds are reached -----

  /** The pending operation completes. */
  lemma Push(url: string, l: Local, acts: seq<Action>, a: Action)
    requires Inv(url, l) && Legal(url, l, acts)
    requires var s := Run(url, l, acts).session;
             && s.started && a.jitter <= MAX_JITTER
             && OperationOf(a.event).Some? && Pending(s) == OperationOf(a.event)
             && (a.event.TimerDone? ==> a.event.ec.Ok?)
             && (s.doomed ==> a.event.ec.Bad?)
    ensures var s := Run(url, l, acts).session;
            var r := Run(url, l, acts + [a]).session;
            && Legal(url, l, acts + [a])
            && r.started && r.stopped == s.stopped
            && r.shut == NextShut(s, a.event) && r.doomed == NextDoomed(s, a.event)
            && Pending(r) == NextPending(url, s, a.event) && r.attempt == NextAttempt(s, a.event)
    ensures Completions(acts + [a]) == Completions(acts) + 1
    ensures Handled(acts + [a]) == Handled(acts) + (if a.event.MessageIn? && a.event.ec.Ok? then 1 else 0)
    ensures NoHandshake(acts) && a.event != WsDone(Ok) ==> NoHandshake(acts + [a])
  {
    hide Inv, Apply, Run, Legal, Pending, NextPending, NextAttempt, NoHandshake, Completions, Handled;
    RunKeeps(url, l, acts);
    PendingIsOutstanding(url, Run(url, l, acts));
    Extend(url, l, acts, a);
    StepKeeps(url, Run(url, l, acts), a);
  }

  lemma PendingIsOutstanding(url: string, l: Local)
    requires Inv(url, l) && l.session.started && Pending(l.session).Some?
    ensures Pending(l.session).value in l.session.outstanding
  {
    hide ParseRelayUrl, Pending;
  }

  /** A run in which every round fails in the TLS handshake. */
  lemma {:induction false} WorstRounds(url: string, rounds: nat) returns (acts: seq<Action>)
    requires Monitored(url) && rounds <= MAX_RECONNECT_ATTEMPTS
    ensures var l := Fresh(None);
            var s := Run(url, l, acts).session;
            && Legal(url, l, acts) && NoHandshake(acts) && Completions(acts) == 4 * rounds
            && s.started && !s.stopped && Pending(s) == Some(Resolution) && s.attempt == rounds && !s.doomed
    decreases rounds
  {
    hide Inv, Apply, Run, Legal, Pending, NoHandshake, Completions, Handled, Monitored;
    FreshHolds(url, None);
    if rounds == 0 {
      acts := [Action(Start, 0, 0)];
      JustStarted(url);
    } else {
      acts := WorstRounds(url, rounds - 1);
      Push(url, Fresh(None), acts, Action(Resolved(Ok), 0, 0));
      acts := acts + [Action(Resolved(Ok), 0, 0)];
      Push(url, Fresh(None), acts, Action(Connected(Ok, Ok), 0, 0));
      acts := acts + [Action(Connected(Ok, Ok), 0, 0)];
      Push(url, Fresh(None), acts, Action(TlsDone(Bad("")), 0, 0));
      acts := acts + [Action(TlsDone(Bad("")), 0, 0)];
      Push(url, Fresh(None), acts, Action(TimerDone(Ok), 0, 0));
      acts := acts + [Action(TimerDone(Ok), 0, 0)];
    }
  }

  lemma JustStarted(url: string)
    requires Monitored(url)
    ensures var acts := [Action(Start, 0, 0)];
            var s := Run(url, Fresh(None), acts).session;
            && Legal(url, Fresh(None), acts) && NoHandshake(acts) && Completions(acts) == 0
            && s.started && !s.stopped && Pending(s) == Some(Resolution) && s.attempt == 0 && !s.doomed
  {
    hide ParseRelayUrl, Monitored, Apply, Run, Legal, Completions, Handled, Pending, Inv;
    var nothing := NothingYet(url, Fresh(None));
    var start := Action(Start, 0, 0);
    FreshHolds(url, None);
    Extend(url, Fresh(None), nothing, start);
    StepKeeps(url, Fresh(None), start);
    assert nothing + [start] == [start];
  }

  /** The bound of 28 completions is exact. */
  lemma RetryBoundReached(url: string) returns (acts: seq<Action>)
    requires Monitored(url)
    ensures Legal(url, Fresh(None), acts) && NoHandshake(acts) && Completions(acts) == 28
  {
    hide Inv, Apply, Run, Legal, Pending, NoHandshake, Completions, Handled, Monitored;
    FreshHolds(url, None);
    acts := WorstRounds(url, MAX_RECONNECT_ATTEMPTS);
    Push(url, Fresh(None), acts, Action(Resolved(Ok), 0, 0));
    acts := acts + [Action(Resolved(Ok), 0, 0)];
    Push(url, Fresh(None), acts, Action(Connected(Ok, Ok), 0, 0));
    acts := acts + [Action(Connected(Ok, Ok), 0, 0)];
    Push(url, Fresh(None), acts, Action(TlsDone(Ok), 0, 0));
    acts := acts + [Action(TlsDone(Ok), 0, 0)];
    Push(url, Fresh(None), acts, Action(WsDone(Bad("")), 0, 0));
    acts := acts + [Action(WsDone(Bad("")), 0, 0)];
  }

  /** After a Stop right after Start all six operations may still complete, the last of them with an
      event that is counted. */
  lemma QuietBoundReached(url: string) returns (before: seq<Action>, after: seq<Action>)
    requires Monitored(url)
    ensures Legal(url, Fresh(None), before + after) && |before| > 0 && before[|before| - 1].event == Stop
    ensures Completions(after) == 6 && Handled(after) == 1
  {
    hide Inv, Apply, Run, Legal, Pending, NoHandshake, Completions, Handled, Monitored, Follows;
    var start, stop := Action(Start, 0, 0), Action(Stop, 0, 0);
    FreshHolds(url, None);
    JustStarted(url);
    RunKeeps(url, Fresh(None), [start]);
    Extend(url, Fresh(None), [start], stop);
    StepKeeps(url, Run(url, Fresh(None), [start]), stop);
    before := [start] + [stop];
    var l := Run(url, Fresh(None), before);
    StoppedAt(url, Run(url, Fresh(None), [start]), stop);
    after := NothingYet(url, l);
    Push(url, l, after, Action(Resolved(Ok), 0, 0));
    after := after + [Action(Resolved(Ok), 0, 0)];
    Push(url, l, after, Action(Connected(Ok, Ok), 0, 0));
    after := after + [Action(Connected(Ok, Ok), 0, 0)];
    Push(url, l, after, Action(TlsDone(Ok), 0, 0));
    after := after + [Action(TlsDone(Ok), 0, 0)];
    Push(url, l, after, Action(WsDone(Ok), 0, 0));
    after := after + [Action(WsDone(Ok), 0, 0)];
    Push(url, l, after, Action(ReqWritten(Ok), 0, 0));
    after := after + [Action(ReqWritten(Ok), 0, 0)];
    Push(url, l, after, Action(MessageIn(Ok, EventCount), 0, 0));
    after := after + [Action(MessageIn(Ok, EventCount), 0, 0)];
    RunSplits(url, Fresh(None), before, after);
  }

  lemma StoppedAt(url: string, l: Local, stop: Action)
    requires Follows(url, l, stop) && stop.event == Stop
    ensures var s := Apply(url, l, stop).session;
            s.started && s.stopped && Pending(s) == Pending(l.session) && s.doomed == l.session.doomed
  {
    hide Pending, Apply;
  }

  lemma NothingYet(url: string, l: Local) returns (acts: seq<Action>)
    ensures acts == [] && Legal(url, l, acts) && Run(url, l, acts) == l && Completions(acts) == 0 && Handled(acts) == 0
  {
    acts := [];
  }

  // ----- the waits of a streak -----

  /** The jitters of the reconnects armed since the last successful WebSocket handshake. */
  function Jitters(url: string, l: Local, acts: seq<Action>): seq<nat> {
    if acts == [] then []
    else
      var n := |acts| - 1;
      var before := Jitters(url, l, acts[..n]);
      if acts[n].event == WsDone(Ok) then []
      else if Armed(Run(url, l, acts[..n]).session, acts[n]) then before + [acts[n].jitter]
      else before
  }

  /** The sum of the delays with which these reconnects were armed. */
  function Waited(url: string, l: Local, acts: seq<Action>): nat {
    if acts == [] then 0
    else
      var n := |acts| - 1;
      var before := Waited(url, l, acts[..n]);
      if acts[n].event == WsDone(Ok) then 0
      else if Armed(Run(url, l, acts[..n]).session, acts[n]) then before + Run(url, l, acts).session.delay
      else before
  }

  /** In every run the attempt counter counts the reconnects since the last successful handshake,
      and their waits are those of one streak; six of them take between 31.5 and 33 seconds. */
  lemma StreakOfRun(url: string, entry: Option<RelayStat>, acts: seq<Action>)
    requires Consistent(entry) && Legal(url, Fresh(entry), acts)
    ensures var s := Run(url, Fresh(entry), acts).session;
            var waited := Waited(url, Fresh(entry), acts);
            && (s.attempt > 0 ==> 2 * Base(s.attempt) - 500 <= waited <= 2 * Base(s.attempt) - 500 + 250 * s.attempt)
            && (s.attempt == MAX_RECONNECT_ATTEMPTS ==> 31500 <= waited <= 33000)
  {
    hide Run, Legal, Jitters, Waited, Inv, TotalDelay, Base, ComputeReconnectDelayMs;
    Streak(url, entry, acts);
    RunKeepsInv(url, entry, acts);
    AttemptBound(url, Run(url, Fresh(entry), acts));
    StreakDelay(Jitters(url, Fresh(entry), acts));
  }

  lemma AttemptBound(url: string, l: Local)
    requires Inv(url, l)
    ensures l.session.attempt <= MAX_RECONNECT_ATTEMPTS
  {
    hide ParseRelayUrl, Pending;
  }

  lemma {:induction false} Streak(url: string, entry: Option<RelayStat>, acts: seq<Action>)
    requires Consistent(entry) && Legal(url, Fresh(entry), acts)
    ensures var js := Jitters(url, Fresh(entry), acts);
            && |js| == Run(url, Fresh(entry), acts).session.attempt
            && (forall i :: 0 <= i < |js| ==> js[i] <= MAX_JITTER)
            && Waited(url, Fresh(entry), acts) == TotalDelay(js)
  {
    hide Inv, Apply, Enabled, Pending, ComputeReconnectDelayMs, ParseRelayUrl, Armed, TotalDelay;
    if acts == [] {
      assert TotalDelay([]) == 0 by { NoDelay(); }
    } else {
      var n := |acts| - 1;
      var l := Run(url, Fresh(entry), acts[..n]);
      var js := Jitters(url, Fresh(entry), acts[..n]);
      Streak(url, entry, acts[..n]);
      RunKeepsInv(url, entry, acts[..n]);
      ArmStep(url, l, acts[n]);
      OneMoreDelay(js, acts[n].jitter);
      NoDelay();
    }
  }

  lemma NoDelay()
    ensures TotalDelay([]) == 0
  {}

  lemma OneMoreDelay(js: seq<nat>, j: nat)
    ensures TotalDelay(js + [j]) == TotalDelay(js) + ComputeReconnectDelayMs(|js| + 1, j)
  {
    hide ComputeReconnectDelayMs;
    assert (js + [j])[..|js + [j]| - 1] == js;
  }

  lemma ArmStep(url: string, l: Local, a: Action)
    requires Inv(url, l) && Enabled(l.session, a)
    ensures var s := Apply(url, l, a).session;
            && a.jitter <= MAX_JITTER
            && (if a.event == WsDone(Ok) then s.attempt == 0
                else if Armed(l.session, a) then
                  s.attempt == l.session.attempt + 1 && s.delay == ComputeReconnectDelayMs(s.attempt, a.jitter)
                else s.attempt == l.session.attempt)
  {
    hide ComputeReconnectDelayMs, ParseRelayUrl, Pending, Inv;
    StepKeeps(url, l, a);
  }
}
