/** A second Start while the sessions that the manager stopped and forgot are still at work: old and
    new sessions interleave over one table. */
module Restart {
  import opened Options
  import opened RelayTarget
  import opened Reconnect
  import opened RelayStatsModel
  import opened SessionModel
  import opened SessionRuns
  import opened MultiSession
  import Bootstrap
  import SessionManagerModel
  import SessionProperties

  // ----- old and new sessions in one world -----

  /** What the manager leaves when it stops sessions of distinct addresses. */
  predicate Forgotten(v: World) {
    && WellFormed(v) && Bootstrap.NoDuplicates(v.urls) && ConsistentTable(v.table)
    && forall i :: 0 <= i < |v.urls| ==> Inv(v.urls[i], View(v, i)) && v.sessions[i].started && v.sessions[i].stopped
  }

  /** New sessions beside them. */
  function Both(v: World, urls: seq<string>): World {
    World(v.urls + urls, v.sessions + seq(|urls|, i => NEW_SESSION), v.table)
  }

  /** The sessions from number n on. */
  function NewPart(w: World, n: nat): World
    requires WellFormed(w) && n <= |w.urls|
  {
    World(w.urls[n..], w.sessions[n..], w.table)
  }

  /** The new sessions are started, and no step was a Stop. */
  predicate NewRunning(v: World, urls: seq<string>, moves: seq<Move>)
    requires WellFormed(v)
  {
    && Possible(Both(v, urls), moves) && NoStop(moves)
    && forall s :: s in NewPart(After(Both(v, urls), moves), |v.urls|).sessions ==> s.started
  }

  /** The table counts the new sessions, and nothing else. */
  predicate CountsNew(w: World, n: nat)
    requires WellFormed(w) && n <= |w.urls|
  {
    && |WithStatusIn(w.table, Subscribed)| == |Those(NewPart(w, n), Reading)|
    && |WithStatusIn(w.table, Error)| == |Those(NewPart(w, n), Failing)|
  }

  predicate OnlyTimer(s: Session) {
    s.outstanding == multiset{} || s.outstanding == multiset{Timer}
  }

  predicate Uncounted(t: Table, urls: seq<string>) {
    forall u :: u in t && u !in urls ==> t[u].status != Subscribed && t[u].status != Error
  }

  /** What a caller can check when the sessions are stopped: nothing is outstanding but timers, no
      close is in flight for an address that is used again, and no entry for another address says
      Subscribed or Error. */
  predicate Clean(v: World, urls: seq<string>)
    requires WellFormed(v)
  {
    && (forall i :: 0 <= i < |v.urls| ==>
          OnlyTimer(v.sessions[i]) && (v.urls[i] in urls ==> v.sessions[i].closing == 0))
    && Uncounted(v.table, urls)
  }

  // ----- clean sessions do not interfere -----

  /** What holds of the old sessions all along. */
  predicate OldQuiet(w: World, n: nat, urls: seq<string>)
    requires WellFormed(w) && n <= |w.urls|
  {
    forall i :: 0 <= i < n ==>
      && w.sessions[i].started && w.sessions[i].stopped && OnlyTimer(w.sessions[i])
      && (w.urls[i] in urls ==> w.sessions[i].closing == 0)
  }

  predicate NewFine(w: World, n: nat)
    requires WellFormed(w) && n <= |w.urls|
  {
    forall j :: n <= j < |w.urls| ==> Inv(w.urls[j], View(w, j)) && !w.sessions[j].stopped
  }

  /** A step of a quiet session leaves its entry alone, or writes Disconnected when a close is done. */
  lemma QuietSessionStep(url: string, l: Local, a: Action)
    requires l.session.started && l.session.stopped && OnlyTimer(l.session) && a.event != Stop && Enabled(l.session, a)
    ensures var r := Apply(url, l, a);
            && r.session.started && r.session.stopped && OnlyTimer(r.session)
            && (l.session.closing == 0 ==> r.session.closing == 0 && r.entry == l.entry)
            && (r.entry == l.entry || (r.entry.Some? && r.entry.value.status == Disconnected))
  {}

  lemma LookupPut(t: Table, url: string, e: Option<RelayStat>, u: string)
    requires e == None ==> Lookup(t, url) == None
    ensures Lookup(Put(t, url, e), u) == if u == url then e else Lookup(t, u)
  {}

  /** A step changes one session and one entry. */
  lemma MoveChanges(w: World, m: Move, u: string)
    requires WellFormed(w) && m.who < |w.urls|
    ensures var l := Apply(w.urls[m.who], View(w, m.who), m.action);
            && AfterMove(w, m).sessions == w.sessions[m.who := l.session]
            && Lookup(AfterMove(w, m).table, u) == if u == w.urls[m.who] then l.entry else Lookup(w.table, u)
  {
    hide Apply;
    EntryStays(w.urls[m.who], View(w, m.who), m.action);
    LookupPut(w.table, w.urls[m.who], Apply(w.urls[m.who], View(w, m.who), m.action).entry, u);
  }

  /** What the step of one session changes for another. */
  lemma MoveView(w: World, m: Move, j: nat)
    requires WellFormed(w) && m.who < |w.urls| && j < |w.urls|
    ensures var l := Apply(w.urls[m.who], View(w, m.who), m.action);
            && (j == m.who ==> View(AfterMove(w, m), j) == l)
            && (j != m.who && w.urls[j] != w.urls[m.who] ==> View(AfterMove(w, m), j) == View(w, j))
            && (j != m.who && l.entry == View(w, m.who).entry ==> View(AfterMove(w, m), j) == View(w, j))
            && (j != m.who ==> AfterMove(w, m).sessions[j] == w.sessions[j])
  {
    hide Apply;
    MoveChanges(w, m, w.urls[j]);
  }

  predicate UncountedEntry(e: Option<RelayStat>) {
    e.Some? ==> e.value.status != Subscribed && e.value.status != Error
  }

  lemma UncountedIs(t: Table, urls: seq<string>)
    ensures Uncounted(t, urls) <==> forall u :: u !in urls ==> UncountedEntry(Lookup(t, u))
  {
    if Uncounted(t, urls) {
      forall u | u !in urls
        ensures UncountedEntry(Lookup(t, u))
      {}
    }
    if forall u :: u !in urls ==> UncountedEntry(Lookup(t, u)) {
      forall u | u in t && u !in urls
        ensures t[u].status != Subscribed && t[u].status != Error
      {
        assert UncountedEntry(Lookup(t, u));
      }
    }
  }

  lemma OldMoveKeeps(w: World, n: nat, urls: seq<string>, m: Move)
    requires WellFormed(w) && n <= |w.urls| && w.urls[n..] == urls
    requires OldQuiet(w, n, urls) && NewFine(w, n) && Uncounted(w.table, urls)
    requires m.who < n && m.action.event != Stop && Enabled(w.sessions[m.who], m.action)
    ensures var r := AfterMove(w, m); OldQuiet(r, n, urls) && NewFine(r, n) && Uncounted(r.table, urls)
  {
    hide Inv, Apply, AfterMove, Enabled, Uncounted, UncountedEntry, OnlyTimer;
    var r := AfterMove(w, m);
    QuietSessionStep(w.urls[m.who], View(w, m.who), m.action);
    forall j | 0 <= j < |w.urls|
      ensures j >= n ==> View(r, j) == View(w, j)
      ensures j == m.who ==> View(r, j) == Apply(w.urls[j], View(w, j), m.action)
      ensures j != m.who ==> r.sessions[j] == w.sessions[j]
    {
      MoveView(w, m, j);
      assert j >= n ==> w.urls[j] == urls[j - n];
    }
    assert r.sessions[m.who] == View(r, m.who).session;
    UncountedIs(w.table, urls);
    UncountedIs(r.table, urls);
    forall u | u !in urls
      ensures UncountedEntry(Lookup(r.table, u))
    {
      MoveChanges(w, m, u);
      DisconnectedIsUncounted(Lookup(r.table, u));
    }
  }

  lemma DisconnectedIsUncounted(e: Option<RelayStat>)
    ensures e.Some? && e.value.status == Disconnected ==> UncountedEntry(e)
  {}

  lemma NewMoveKeeps(w: World, n: nat, urls: seq<string>, m: Move)
    requires WellFormed(w) && n <= |w.urls| && w.urls[n..] == urls && Bootstrap.NoDuplicates(urls)
    requires NewFine(w, n)
    requires n <= m.who < |w.urls| && m.action.event != Stop && Enabled(w.sessions[m.who], m.action)
    ensures var r := AfterMove(w, m);
            && r.sessions[..n] == w.sessions[..n]
            && (forall u :: u !in urls ==> Lookup(r.table, u) == Lookup(w.table, u))
            && NewFine(r, n)
            && View(r, m.who) == Apply(w.urls[m.who], View(w, m.who), m.action)
            && forall j :: n <= j < |w.urls| && j != m.who ==> View(r, j) == View(w, j)
  {
    hide Inv, Apply, AfterMove, Enabled;
    var r := AfterMove(w, m);
    var who := m.who;
    StepKeeps(w.urls[who], View(w, who), m.action);
    assert w.urls[who] == urls[who - n];
    forall u | u !in urls
      ensures Lookup(r.table, u) == Lookup(w.table, u)
    {
      MoveChanges(w, m, u);
    }
    forall j | 0 <= j < |w.urls|
      ensures j != who ==> r.sessions[j] == w.sessions[j]
      ensures n <= j && j != who ==> View(r, j) == View(w, j)
    {
      MoveView(w, m, j);
      assert j >= n ==> w.urls[j] == urls[j - n];
    }
    MoveView(w, m, who);
    NewFineStays(w, r, n, who);
  }

  lemma NewFineStays(w: World, r: World, n: nat, who: nat)
    requires WellFormed(w) && WellFormed(r) && n <= who < |w.urls| && r.urls == w.urls && NewFine(w, n)
    requires Inv(r.urls[who], View(r, who)) && !View(r, who).session.stopped
    requires forall j :: n <= j < |w.urls| && j != who ==> View(r, j) == View(w, j)
    ensures NewFine(r, n)
  {
    hide Inv;
    forall j | n <= j < |w.urls|
      ensures Inv(r.urls[j], View(r, j)) && !r.sessions[j].stopped
    {
      assert r.sessions[j] == View(r, j).session && w.sessions[j] == View(w, j).session;
    }
  }

  /** Old sessions that are unchanged stay quiet. */
  lemma SameOld(w: World, r: World, n: nat, urls: seq<string>)
    requires WellFormed(w) && WellFormed(r) && n <= |w.urls| && r.urls == w.urls && r.sessions[..n] == w.sessions[..n]
    requires OldQuiet(w, n, urls)
    ensures OldQuiet(r, n, urls)
  {
    forall i | 0 <= i < n
      ensures r.sessions[i] == w.sessions[i]
    {
      assert r.sessions[i] == r.sessions[..n][i] && w.sessions[i] == w.sessions[..n][i];
    }
  }

  lemma {:induction false} CleanRun(v: World, urls: seq<string>, moves: seq<Move>)
    requires Forgotten(v) && Bootstrap.NoDuplicates(urls) && Clean(v, urls)
    requires Possible(Both(v, urls), moves) && NoStop(moves)
    ensures var w := After(Both(v, urls), moves);
            OldQuiet(w, |v.urls|, urls) && NewFine(w, |v.urls|) && Uncounted(w.table, urls)
  {
    hide Inv, Apply, AfterMove, Enabled, Uncounted, OldQuiet, NewFine;
    var n := |v.urls|;
    if moves == [] {
      BothStart(v, urls);
      CleanStart(v, urls);
    } else {
      var k := |moves| - 1;
      CleanRun(v, urls, moves[..k]);
      var w, m := After(Both(v, urls), moves[..k]), moves[k];
      if m.who < n {
        OldMoveKeeps(w, n, urls, m);
      } else {
        NewMoveKeeps(w, n, urls, m);
        SameOld(w, AfterMove(w, m), n, urls);
        UncountedIs(w.table, urls);
        UncountedIs(AfterMove(w, m).table, urls);
      }
    }
  }

  lemma BothStart(v: World, urls: seq<string>)
    requires Forgotten(v)
    ensures var w := Both(v, urls);
            && WellFormed(w) && w.urls[|v.urls|..] == urls && w.sessions[..|v.urls|] == v.sessions
            && NewFine(w, |v.urls|)
  {
    hide Inv, ConsistentTable;
    var n, w := |v.urls|, Both(v, urls);
    forall j | n <= j < |w.urls|
      ensures Inv(w.urls[j], View(w, j))
    {
      ConsistentEntry(v.table, w.urls[j]);
      FreshHolds(w.urls[j], Lookup(v.table, w.urls[j]));
    }
  }

  lemma ConsistentEntry(t: Table, u: string)
    requires ConsistentTable(t)
    ensures Consistent(Lookup(t, u))
  {}

  lemma CleanStart(v: World, urls: seq<string>)
    requires Forgotten(v) && Clean(v, urls)
    ensures OldQuiet(Both(v, urls), |v.urls|, urls)
  {
    hide Inv, Uncounted;
  }

  /** The table counts the started new sessions, and the entries for other addresses. */
  lemma CountNew(w: World, n: nat, urls: seq<string>)
    requires WellFormed(w) && n <= |w.urls| && w.urls[n..] == urls && Bootstrap.NoDuplicates(urls) && NewFine(w, n)
    requires forall s :: s in NewPart(w, n).sessions ==> s.started
    ensures CountsNew(w, n) <==> Uncounted(w.table, urls)
  {
    hide Inv, Reading, Failing, Those, WithStatusIn, Leftover;
    var p := NewPart(w, n);
    forall j | 0 <= j < |urls|
      ensures urls[j] in w.table
      ensures w.table[urls[j]].status == Subscribed <==> Reading(p.sessions[j])
      ensures w.table[urls[j]].status == Error <==> Failing(p.sessions[j])
    {
      assert p.sessions[j] in p.sessions;
      assert p.sessions[j] == w.sessions[n + j] && urls[j] == w.urls[n + j];
      ShownStatus(urls[j], View(w, n + j));
    }
    CountStatus(p, w.table, Subscribed, Reading);
    CountStatus(p, w.table, Error, Failing);
    SessionManagerModel.NoneWithStatus(w.table, urls, Subscribed);
    SessionManagerModel.NoneWithStatus(w.table, urls, Error);
  }

  // ----- whatever is not clean interferes -----

  /** The moves that start the first k sessions after number n. */
  function NewStarts(n: nat, k: nat, now: int): seq<Move> {
    if k == 0 then [] else NewStarts(n, k - 1, now) + [Move(n + k - 1, Action(Start, now, 0))]
  }

  /** The first k new sessions have begun to resolve, or have rejected their address. */
  predicate Begun(w: World, n: nat, k: nat)
    requires WellFormed(w) && n + k <= |w.urls|
  {
    && (forall j :: n <= j < n + k ==>
          w.sessions[j].started && if Monitored(w.urls[j]) then FirstResolve(w.sessions[j]) else Failing(w.sessions[j]))
    && (forall j :: n + k <= j < |w.urls| ==> w.sessions[j] == NEW_SESSION)
  }

  lemma {:induction false} StartsBegin(v: World, urls: seq<string>, k: nat)
    requires Forgotten(v) && Bootstrap.NoDuplicates(urls) && k <= |urls|
    ensures var n, moves := |v.urls|, NewStarts(|v.urls|, k, 0);
            && Possible(Both(v, urls), moves) && NoStop(moves)
            && var w := After(Both(v, urls), moves);
               && w.sessions[..n] == v.sessions
               && (forall u :: u !in urls ==> Lookup(w.table, u) == Lookup(v.table, u))
               && NewFine(w, n) && Begun(w, n, k)
  {
    hide Possible, After, AfterMove, Apply, Enabled, Inv, NewFine, Monitored, Failing, FirstResolve;
    var n, b := |v.urls|, Both(v, urls);
    BothStart(v, urls);
    if k == 0 {
      NothingHappens(b);
    } else {
      StartsBegin(v, urls, k - 1);
      var before := NewStarts(n, k - 1, 0);
      var w, i := After(b, before), n + k - 1;
      StartOfNew(w.urls[i], Lookup(w.table, w.urls[i]));
      assert View(w, i) == Fresh(Lookup(w.table, w.urls[i]));
      var start := Move(i, Action(Start, 0, 0));
      NewMoveKeeps(w, n, urls, start);
      MoveExtends(b, before, start);
      var r := AfterMove(w, start);
      forall j | n <= j < |w.urls| && j != i
        ensures r.sessions[j] == w.sessions[j]
      {
        assert View(r, j) == View(w, j);
      }
      assert r.sessions[i] == View(r, i).session;
    }
  }

  /** Writing one entry changes the number of entries with a status by that entry. */
  lemma StatusPut(t: Table, u: string, e: RelayStat, status: RelayStatus)
    ensures |WithStatusIn(t[u := e], status)| + (if u in t && t[u].status == status then 1 else 0)
            == |WithStatusIn(t, status)| + (if e.status == status then 1 else 0)
  {
    hide WithStatusIn;
    StatusWithout(t[u := e], u, status);
    assert t[u := e] - {u} == t - {u};
    if u in t {
      StatusWithout(t, u, status);
    } else {
      assert t - {u} == t;
    }
  }

  /** A step of an old session that makes its entry say Error, or stop saying it, leaves the counts
      wrong when they were right. */
  lemma OldMoveMiscounts(w: World, n: nat, m: Move)
    requires WellFormed(w) && n <= |w.urls| && m.who < n && CountsNew(w, n)
    requires var e, r := Lookup(w.table, w.urls[m.who]), Apply(w.urls[m.who], View(w, m.who), m.action).entry;
             r.Some? && (r.value.status == Error) != (e.Some? && e.value.status == Error)
    ensures !CountsNew(AfterMove(w, m), n)
    ensures NewPart(AfterMove(w, m), n).sessions == NewPart(w, n).sessions
  {
    hide Apply, WithStatusIn, Those;
    var u := w.urls[m.who];
    var r := Apply(u, View(w, m.who), m.action).entry.value;
    StatusPut(w.table, u, r, Error);
    assert NewPart(AfterMove(w, m), n).sessions == NewPart(w, n).sessions;
    SameThose(NewPart(AfterMove(w, m), n), NewPart(w, n), Failing);
  }

  lemma SameThose(w: World, r: World, p: Session -> bool)
    requires w.sessions == r.sessions
    ensures Those(w, p) == Those(r, p)
  {}

  /** A step of an old session is one more move. */
  lemma OneMoreOld(v: World, urls: seq<string>, moves: seq<Move>, m: Move)
    requires WellFormed(v) && NewRunning(v, urls, moves) && m.who < |v.urls| && m.action.event != Stop
    requires Enabled(After(Both(v, urls), moves).sessions[m.who], m.action)
    ensures NewRunning(v, urls, moves + [m])
    ensures After(Both(v, urls), moves + [m]) == AfterMove(After(Both(v, urls), moves), m)
  {
    hide Possible, After, Apply, Enabled;
    var w := After(Both(v, urls), moves);
    MoveExtends(Both(v, urls), moves, m);
    assert NewPart(AfterMove(w, m), |v.urls|).sessions == NewPart(w, |v.urls|).sessions;
  }

  /** The operation of an old session fails. */
  lemma OldFails(v: World, urls: seq<string>, moves: seq<Move>, i: nat) returns (more: seq<Move>)
    requires Forgotten(v) && Bootstrap.NoDuplicates(urls) && i < |v.urls| && !OnlyTimer(v.sessions[i])
    requires moves == NewStarts(|v.urls|, |urls|, 0) && NewRunning(v, urls, moves)
    requires CountsNew(After(Both(v, urls), moves), |v.urls|) && Uncounted(After(Both(v, urls), moves).table, urls)
    ensures NewRunning(v, urls, more) && !CountsNew(After(Both(v, urls), more), |v.urls|)
  {
    hide Possible, After, AfterMove, Apply, Enabled, Inv, NewFine, NewRunning, CountsNew, NewPart;
    hide Monitored, FirstResolve, Failing, ConsistentTable, Uncounted;
    var n, url := |v.urls|, v.urls[i];
    StartsBegin(v, urls, |urls|);
    var w := After(Both(v, urls), moves);
    SessionProperties.SomeOther(url, View(v, i));
    var op :| op in v.sessions[i].outstanding && op != Timer;
    assert w.sessions[i] == w.sessions[..n][i];
    assert w.urls[i] == url;
    SessionProperties.FailsLater(url, View(w, i), op);
    NotErrorYet(v, urls, w, i, op);
    var m := Move(i, SessionProperties.FailureOf(op));
    FailureIsNoStop(op);
    OldMoveMiscounts(w, n, m);
    OneMoreOld(v, urls, moves, m);
    more := moves + [m];
  }

  lemma FailureIsNoStop(op: Operation)
    ensures SessionProperties.FailureOf(op).event != Stop
  {}

  /** The entry of an old session at work says something else than Error once the new sessions are
      started: it is not counted, or the new session resolves. */
  lemma NotErrorYet(v: World, urls: seq<string>, w: World, i: nat, op: Operation)
    requires Forgotten(v) && i < |v.urls| && op in v.sessions[i].outstanding
    requires WellFormed(w) && w.urls == v.urls + urls && NewFine(w, |v.urls|) && Begun(w, |v.urls|, |urls|)
    requires Uncounted(w.table, urls)
    ensures var e := Lookup(w.table, v.urls[i]); !(e.Some? && e.value.status == Error)
  {
    hide Inv, Monitored;
    var n, url := |v.urls|, v.urls[i];
    if url in urls {
      var j :| 0 <= j < |urls| && urls[j] == url;
      assert w.urls[n + j] == url;
      MonitoredWhile(url, View(v, i), op);
      ShownStatus(url, View(w, n + j));
    }
  }

  lemma MonitoredWhile(url: string, l: Local, op: Operation)
    requires Inv(url, l) && op in l.session.outstanding
    ensures Monitored(url)
  {
    hide ParseRelayUrl, Pending, Finish, Between;
    Completes(url, l, op);
  }

  /** The close of an old session is done after the new session for its address has failed. */
  lemma OldCloses(v: World, urls: seq<string>, moves: seq<Move>, i: nat) returns (more: seq<Move>)
    requires Forgotten(v) && Bootstrap.NoDuplicates(urls)
    requires i < |v.urls| && v.urls[i] in urls && v.sessions[i].closing > 0
    requires moves == NewStarts(|v.urls|, |urls|, 0) && NewRunning(v, urls, moves)
    requires CountsNew(After(Both(v, urls), moves), |v.urls|)
    ensures NewRunning(v, urls, more) && !CountsNew(After(Both(v, urls), more), |v.urls|)
  {
    hide Possible, After, AfterMove, Apply, Enabled, Inv, CountsNew, NewPart, NewFine;
    hide Monitored, FirstResolve, Failing, ConsistentTable;
    var n, url := |v.urls|, v.urls[i];
    StartsBegin(v, urls, |urls|);
    var j :| 0 <= j < |urls| && urls[j] == url;
    more := NewFails(v, urls, moves, j);
    var w := After(Both(v, urls), more);
    if CountsNew(w, n) {
      assert w.sessions[i] == w.sessions[..n][i];
      assert w.urls[i] == url;
      CloseIsDone(url, View(w, i));
      var m := Move(i, SessionProperties.CLOSE_DONE);
      OldMoveMiscounts(w, n, m);
      OneMoreOld(v, urls, more, m);
      more := more + [m];
    }
  }

  lemma CloseIsDone(url: string, l: Local)
    requires l.session.closing > 0
    ensures var r := Apply(url, l, SessionProperties.CLOSE_DONE);
            Enabled(l.session, SessionProperties.CLOSE_DONE) && r.entry.Some? && r.entry.value.status == Disconnected
  {}

  const RESOLVE_FAILED := Action(Resolved(Bad("")), 0, 0)

  /** The resolve of new session j fails. */
  lemma ResolveFailsBeside(w: World, n: nat, urls: seq<string>, j: nat)
    requires WellFormed(w) && n <= |w.urls| && w.urls[n..] == urls && Bootstrap.NoDuplicates(urls)
    requires NewFine(w, n) && j < |urls| && FirstResolve(w.sessions[n + j])
    requires forall k :: n <= k < |w.urls| ==> w.sessions[k].started
    ensures Enabled(w.sessions[n + j], RESOLVE_FAILED)
    ensures var r := AfterMove(w, Move(n + j, RESOLVE_FAILED));
            && r.sessions[..n] == w.sessions[..n]
            && (forall k :: n <= k < |w.urls| ==> r.sessions[k].started)
            && urls[j] in r.table && r.table[urls[j]].status == Error
  {
    hide AfterMove, Apply, Enabled, NewFine, FirstResolve, Failing, Reading;
    var fail := Move(n + j, RESOLVE_FAILED);
    var r := AfterMove(w, fail);
    assert w.urls[n + j] == urls[j];
    ResolveFails(urls[j], View(w, n + j));
    NewMoveKeeps(w, n, urls, fail);
    forall k | n <= k < |w.urls|
      ensures r.sessions[k].started
    {
      assert r.sessions[k] == View(r, k).session && (k != n + j ==> View(r, k) == View(w, k));
    }
    assert View(r, n + j).entry == Lookup(r.table, urls[j]);
  }

  /** The new sessions of a world. */
  lemma NewAreStarted(w: World, n: nat)
    requires WellFormed(w) && n <= |w.urls|
    ensures (forall s :: s in NewPart(w, n).sessions ==> s.started) <==>
            (forall k :: n <= k < |w.urls| ==> w.sessions[k].started)
  {
    var ss := NewPart(w, n).sessions;
    if forall s :: s in ss ==> s.started {
      forall k | n <= k < |w.urls|
        ensures w.sessions[k].started
      {
        assert ss[k - n] in ss;
      }
    }
  }

  /** New session j has failed, and its entry says Error. */
  lemma NewFails(v: World, urls: seq<string>, moves: seq<Move>, j: nat) returns (more: seq<Move>)
    requires Forgotten(v) && Bootstrap.NoDuplicates(urls) && j < |urls|
    requires moves == NewStarts(|v.urls|, |urls|, 0) && NewRunning(v, urls, moves)
    ensures NewRunning(v, urls, more)
    ensures var w := After(Both(v, urls), more);
            && w.sessions[..|v.urls|] == v.sessions
            && urls[j] in w.table && w.table[urls[j]].status == Error
  {
    hide Possible, After, AfterMove, Apply, Enabled, Inv, Monitored, FirstResolve, Failing, ConsistentTable, NewPart;
    var n, b := |v.urls|, Both(v, urls);
    StartsBegin(v, urls, |urls|);
    var w := After(b, moves);
    assert w.urls[n + j] == urls[j] && w.urls[n..] == urls;
    if Monitored(urls[j]) {
      var fail := Move(n + j, RESOLVE_FAILED);
      ResolveFailsBeside(w, n, urls, j);
      MoveExtends(b, moves, fail);
      NewAreStarted(AfterMove(w, fail), n);
      more := moves + [fail];
    } else {
      ShownStatus(urls[j], View(w, n + j));
      more := moves;
    }
  }

  lemma StartsRunning(v: World, urls: seq<string>)
    requires Forgotten(v) && Bootstrap.NoDuplicates(urls)
    ensures NewRunning(v, urls, NewStarts(|v.urls|, |urls|, 0))
  {
    hide Possible, After, Inv, Monitored, FirstResolve, Failing, ConsistentTable;
    StartsBegin(v, urls, |urls|);
  }

  /** Sessions that are not clean can leave the counts wrong. */
  lemma Interferes(v: World, urls: seq<string>) returns (moves: seq<Move>)
    requires Forgotten(v) && Bootstrap.NoDuplicates(urls) && !Clean(v, urls)
    ensures NewRunning(v, urls, moves) && !CountsNew(After(Both(v, urls), moves), |v.urls|)
  {
    hide Possible, After, Inv, NewRunning, CountsNew, NewFine, Begun, OnlyTimer, ConsistentTable, Uncounted;
    var n := |v.urls|;
    moves := NewStarts(n, |urls|, 0);
    StartsRunning(v, urls);
    StartsBegin(v, urls, |urls|);
    var w := After(Both(v, urls), moves);
    if CountsNew(w, n) {
      NewStarted(v, urls, moves);
      CountNew(w, n, urls);
      UncountedIs(w.table, urls);
      UncountedIs(v.table, urls);
      var i :| 0 <= i < n && !(OnlyTimer(v.sessions[i]) && (v.urls[i] in urls ==> v.sessions[i].closing == 0));
      if !OnlyTimer(v.sessions[i]) {
        moves := OldFails(v, urls, moves, i);
      } else {
        moves := OldCloses(v, urls, moves, i);
      }
    }
  }

  lemma NewStarted(v: World, urls: seq<string>, moves: seq<Move>)
    requires WellFormed(v) && NewRunning(v, urls, moves)
    ensures var w := After(Both(v, urls), moves);
            && w.urls[|v.urls|..] == urls
            && forall s :: s in NewPart(w, |v.urls|).sessions ==> s.started
  {
    hide Possible, After;
  }

  /** The exact condition for a second Start, whatever the stopped sessions still do: the relay counts
      agree with the new sessions in every interleaving if and only if the stopped ones are clean. */
  lemma RestartCondition(v: World, urls: seq<string>)
    requires Forgotten(v) && Bootstrap.NoDuplicates(urls)
    ensures Clean(v, urls) <==>
            (forall moves :: NewRunning(v, urls, moves) ==> CountsNew(After(Both(v, urls), moves), |v.urls|))
  {
    hide Possible, After, NoStop, Clean, CountsNew, NewFine, OldQuiet, Uncounted;
    hide Inv, ConsistentTable, Bootstrap.NoDuplicates;
    if Clean(v, urls) {
      forall moves | NewRunning(v, urls, moves)
        ensures CountsNew(After(Both(v, urls), moves), |v.urls|)
      {
        WellFormedBoth(v, urls);
        CleanRun(v, urls, moves);
        NewStarted(v, urls, moves);
        CountNew(After(Both(v, urls), moves), |v.urls|, urls);
      }
    } else {
      var moves := Interferes(v, urls);
    }
  }

  lemma WellFormedBoth(v: World, urls: seq<string>)
    requires Forgotten(v)
    ensures WellFormed(Both(v, urls))
  {}

  // ----- what the manager does -----

  /** All sessions are started, in a state that some run leads to. */
  predicate Running(w: World) {
    && WellFormed(w)
    && forall i :: 0 <= i < |w.urls| ==> Inv(w.urls[i], View(w, i)) && View(w, i).session.started
  }

  predicate StoppedUpTo(w: World, k: nat)
    requires WellFormed(w) && k <= |w.urls|
  {
    forall i :: 0 <= i < k ==> View(w, i).session.stopped
  }

  lemma StopOneMore(w: World, k: nat, now: int)
    requires Running(w) && Bootstrap.NoDuplicates(w.urls) && k < |w.urls| && StoppedUpTo(w, k)
    ensures var r := AfterMove(w, Move(k, Action(Stop, now, 0))); Running(r) && StoppedUpTo(r, k + 1)
  {
    hide Inv, Apply, AfterMove, Enabled, View;
    var stop := Action(Stop, now, 0);
    var m := Move(k, stop);
    var r := AfterMove(w, m);
    StopIsEnabled(View(w, k).session, now);
    SessionOfView(w, k);
    StepKeeps(w.urls[k], View(w, k), stop);
    forall i | 0 <= i < |w.urls|
      ensures View(r, i) == if i == k then Apply(w.urls[i], View(w, i), stop) else View(w, i)
    {
      StepElsewhere(w, m, i);
    }
  }

  lemma SessionOfView(w: World, i: nat)
    requires WellFormed(w) && i < |w.urls|
    ensures View(w, i).session == w.sessions[i]
  {}

  /** Stopping running sessions of distinct addresses leaves forgotten ones. */
  lemma {:induction false} StopsForget(v: World, k: nat, now: int)
    requires WellFormed(v) && Running(v) && Bootstrap.NoDuplicates(v.urls) && k <= |v.urls|
    ensures var r := SessionManagerModel.StopEach(v, k, now); Running(r) && StoppedUpTo(r, k)
  {
    hide AfterMove, Running;
    if k > 0 {
      StopsForget(v, k - 1, now);
      StopOneMore(SessionManagerModel.StopEach(v, k - 1, now), k - 1, now);
    }
  }

  lemma StopIsEnabled(s: Session, now: int)
    requires s.started
    ensures Enabled(s, Action(Stop, now, 0))
  {}

  lemma StopAllForgets(v: World, now: int)
    requires Running(v) && Bootstrap.NoDuplicates(v.urls) && ConsistentTable(v.table)
    ensures Forgotten(SessionManagerModel.StopEach(v, |v.urls|, now))
  {
    hide Inv, ConsistentTable, SessionManagerModel.StopEach;
    StopsForget(v, |v.urls|, now);
    SessionManagerModel.StopsConsistent(v, |v.urls|, now);
    var r := SessionManagerModel.StopEach(v, |v.urls|, now);
    forall i | 0 <= i < |r.urls|
      ensures r.sessions[i].started && r.sessions[i].stopped
    {
      SessionOfView(r, i);
    }
  }

  /** The sessions of every interleaving are such, once they are started. */
  lemma ReachedIsRunning(urls: seq<string>, t: Table, moves: seq<Move>)
    requires Bootstrap.NoDuplicates(urls) && ConsistentTable(t) && Possible(NewWorld(urls, t), moves)
    requires forall i :: 0 <= i < |urls| ==> After(NewWorld(urls, t), moves).sessions[i].started
    ensures var w := After(NewWorld(urls, t), moves); Running(w) && ConsistentTable(w.table)
  {
    hide Possible, After, Inv, ConsistentTable;
    var w := After(NewWorld(urls, t), moves);
    forall i | 0 <= i < |urls|
      ensures Inv(urls[i], View(w, i)) && Consistent(Lookup(w.table, urls[i]))
    {
      EachSession(urls, t, moves, i);
      InvIsConsistent(urls[i], View(w, i));
    }
    OutsideStays(NewWorld(urls, t), moves);
    forall u
      ensures Consistent(Lookup(w.table, u))
    {
      ConsistentEntry(t, u);
      if u in urls {
        var i :| 0 <= i < |urls| && urls[i] == u;
      }
    }
    ConsistentEntries(w.table);
  }

  lemma InvIsConsistent(url: string, l: Local)
    requires Inv(url, l)
    ensures Consistent(l.entry)
  {
    hide ParseRelayUrl, Pending;
  }

  lemma ConsistentEntries(t: Table)
    requires forall u :: Consistent(Lookup(t, u))
    ensures ConsistentTable(t)
  {
    forall u | u in t
      ensures Consistent(Some(t[u]))
    {
      assert Lookup(t, u) == Some(t[u]);
    }
  }

  /** Start of the new sessions beside the old ones leaves of the new sessions and the table what the
      manager's Start does. */
  lemma {:induction false} StartsBeside(v: World, urls: seq<string>, k: nat, now: int)
    requires WellFormed(v) && k <= |urls|
    ensures var n, moves := |v.urls|, NewStarts(|v.urls|, k, now);
            && Possible(Both(v, urls), moves) && Possible(NewWorld(urls, v.table), SessionManagerModel.Starts(k, now))
            && After(Both(v, urls), moves).sessions[..n] == v.sessions
            && NewPart(After(Both(v, urls), moves), n)
               == After(NewWorld(urls, v.table), SessionManagerModel.Starts(k, now))
  {
    hide Possible, After, AfterMove, Enabled, NewPart;
    var n, b, c := |v.urls|, Both(v, urls), NewWorld(urls, v.table);
    if k == 0 {
      NothingHappens(b);
      NothingHappens(c);
      NewPartOfBoth(v, urls);
    } else {
      var before, starts := NewStarts(n, k - 1, now), SessionManagerModel.Starts(k - 1, now);
      StartsBeside(v, urls, k - 1, now);
      NotStartedYet(urls, v.table, k - 1, now);
      OneMoreBeside(b, before, c, starts, n, k - 1, Action(Start, now, 0));
    }
  }

  /** A step of a new session beside the old ones is its step without them. */
  lemma OneMoreBeside(b: World, before: seq<Move>, c: World, starts: seq<Move>, n: nat, i: nat, a: Action)
    requires WellFormed(b) && WellFormed(c) && i < |c.urls| && |b.urls| == n + |c.urls|
    requires Possible(b, before) && Possible(c, starts)
    requires NewPart(After(b, before), n) == After(c, starts) && Enabled(After(c, starts).sessions[i], a)
    ensures var moves, alone := before + [Move(n + i, a)], starts + [Move(i, a)];
            && Possible(b, moves) && Possible(c, alone)
            && After(b, moves).sessions[..n] == After(b, before).sessions[..n]
            && NewPart(After(b, moves), n) == After(c, alone)
  {
    hide Possible, After, AfterMove, Enabled, NewPart;
    var w := After(b, before);
    NewPartAt(w, n, i);
    MoveExtends(b, before, Move(n + i, a));
    MoveExtends(c, starts, Move(i, a));
    ShiftedMove(w, n, Move(i, a));
  }

  lemma NewPartOfBoth(v: World, urls: seq<string>)
    requires WellFormed(v)
    ensures Both(v, urls).sessions[..|v.urls|] == v.sessions
    ensures NewPart(Both(v, urls), |v.urls|) == NewWorld(urls, v.table)
  {
    var n, b, c := |v.urls|, Both(v, urls), NewWorld(urls, v.table);
    assert b.urls[n..] == urls && b.sessions[n..] == c.sessions;
  }

  lemma NewPartAt(w: World, n: nat, i: nat)
    requires WellFormed(w) && n + i < |w.urls|
    ensures NewPart(w, n).sessions[i] == w.sessions[n + i] && |NewPart(w, n).urls| == |w.urls| - n
  {}

  lemma ShiftedMove(w: World, n: nat, m: Move)
    requires WellFormed(w) && n + m.who < |w.urls|
    ensures NewPart(AfterMove(w, Move(n + m.who, m.action)), n) == AfterMove(NewPart(w, n), m)
    ensures AfterMove(w, Move(n + m.who, m.action)).sessions[..n] == w.sessions[..n]
  {
    hide Apply;
    assert View(w, n + m.who) == View(NewPart(w, n), m.who);
  }

  lemma NotStartedYet(urls: seq<string>, t: Table, k: nat, now: int)
    requires k < |urls|
    ensures Possible(NewWorld(urls, t), SessionManagerModel.Starts(k, now))
    ensures var w := After(NewWorld(urls, t), SessionManagerModel.Starts(k, now));
            Enabled(w.sessions[k], Action(Start, now, 0))
  {
    hide Possible, After, SessionManagerModel.StartEach;
    SessionManagerModel.StartsSoFar(urls, t, k, now);
  }
}
