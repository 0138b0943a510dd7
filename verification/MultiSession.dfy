/** Many sessions over one table: the steps of different sessions interleave freely. */
module MultiSession {
  import opened Options
  import opened RelayTarget
  import opened Reconnect
  import opened RelayStatsModel
  import opened SessionModel
  import opened SessionRuns
  import Bootstrap

  datatype World = World(urls: seq<string>, sessions: seq<Session>, table: Table)

  /** Session number who takes a step. */
  datatype Move = Move(who: nat, action: Action)

  predicate WellFormed(w: World) {
    |w.urls| == |w.sessions|
  }

  function View(w: World, i: nat): Local
    requires WellFormed(w) && i < |w.urls|
  {
    Local(w.sessions[i], Lookup(w.table, w.urls[i]))
  }

  function Put(t: Table, url: string, e: Option<RelayStat>): Table {
    match e case Some(stat) => t[url := stat] case None => t
  }

  function AfterMove(w: World, m: Move): (r: World)
    requires WellFormed(w) && m.who < |w.urls|
    ensures WellFormed(r) && r.urls == w.urls
  {
    var l := Apply(w.urls[m.who], View(w, m.who), m.action);
    World(w.urls, w.sessions[m.who := l.session], Put(w.table, w.urls[m.who], l.entry))
  }

  predicate Possible(w: World, moves: seq<Move>)
    requires WellFormed(w)
    decreases |moves|, 0
  {
    moves == [] || (
      var n := |moves| - 1;
      && Possible(w, moves[..n])
      && moves[n].who < |w.urls|
      && Enabled(After(w, moves[..n]).sessions[moves[n].who], moves[n].action))
  }

  function After(w: World, moves: seq<Move>): (r: World)
    requires WellFormed(w) && Possible(w, moves)
    ensures WellFormed(r) && r.urls == w.urls
    decreases |moves|, 1
  {
    if moves == [] then w
    else
      var n := |moves| - 1;
      AfterMove(After(w, moves[..n]), moves[n])
  }

  /** The actions of one session. */
  function Own(moves: seq<Move>, i: nat): seq<Action> {
    if moves == [] then []
    else
      var n := |moves| - 1;
      Own(moves[..n], i) + (if moves[n].who == i then [moves[n].action] else [])
  }

  /** How many EVENT messages were handled. */
  function Events(moves: seq<Move>): nat {
    if moves == [] then 0
    else
      var n := |moves| - 1;
      Events(moves[..n]) + (if CountsEvent(moves[n].action.event) then 1 else 0)
  }

  predicate CountsEvent(e: Event) {
    e == MessageIn(Ok, EventCount)
  }

  /** The sessions right after their construction, over a table. */
  function NewWorld(urls: seq<string>, t: Table): World {
    World(urls, seq(|urls|, i => NEW_SESSION), t)
  }

  // ----- one session among many -----

  lemma StepElsewhere(w: World, m: Move, i: nat)
    requires WellFormed(w) && m.who < |w.urls| && i < |w.urls| && Bootstrap.NoDuplicates(w.urls)
    ensures View(AfterMove(w, m), i) == if m.who == i then Apply(w.urls[i], View(w, i), m.action) else View(w, i)
  {
    hide Apply;
    var url := w.urls[m.who];
    EntryStays(url, View(w, m.who), m.action);
  }

  /** No action removes the entry. */
  lemma EntryStays(url: string, l: Local, a: Action)
    ensures l.entry.Some? ==> Apply(url, l, a).entry.Some?
  {
    hide ParseRelayUrl, ComputeReconnectDelayMs;
  }

  /** Whatever the others do, each session runs as if it were alone. */
  lemma {:induction false} Independent(w: World, moves: seq<Move>, i: nat)
    requires WellFormed(w) && Bootstrap.NoDuplicates(w.urls) && Possible(w, moves) && i < |w.urls|
    ensures Legal(w.urls[i], View(w, i), Own(moves, i))
    ensures View(After(w, moves), i) == Run(w.urls[i], View(w, i), Own(moves, i))
  {
    hide Apply, Enabled, AfterMove, Run, Legal;
    if moves == [] {
      NothingRun(w.urls[i], View(w, i));
    } else {
      var n := |moves| - 1;
      Independent(w, moves[..n], i);
      StepElsewhere(After(w, moves[..n]), moves[n], i);
      RunExtends(w.urls[i], View(w, i), Own(moves[..n], i), moves[n].action);
      assert Own(moves[..n], i) + [] == Own(moves[..n], i);
    }
  }

  lemma NothingRun(url: string, l: Local)
    ensures Legal(url, l, []) && Run(url, l, []) == l
  {}

  /** Two interleavings of the same runs end in the same world: the order among different sessions
      does not matter. */
  lemma OrderDoesNotMatter(urls: seq<string>, t: Table, moves: seq<Move>, others: seq<Move>)
    requires Bootstrap.NoDuplicates(urls) && Possible(NewWorld(urls, t), moves) && Possible(NewWorld(urls, t), others)
    requires forall i :: 0 <= i < |urls| ==> Own(moves, i) == Own(others, i)
    ensures After(NewWorld(urls, t), moves) == After(NewWorld(urls, t), others)
  {
    hide After, Possible, Run, Legal;
    var n := NewWorld(urls, t);
    var w, v := After(n, moves), After(n, others);
    forall i | 0 <= i < |urls|
      ensures View(w, i) == View(v, i)
    {
      Independent(n, moves, i);
      Independent(n, others, i);
    }
    assert w.sessions == v.sessions by {
      assert forall i :: 0 <= i < |urls| ==> w.sessions[i] == View(w, i).session && v.sessions[i] == View(v, i).session;
    }
    OutsideStays(n, moves);
    OutsideStays(n, others);
    SameTable(w, v);
  }

  lemma SameTable(w: World, v: World)
    requires WellFormed(w) && WellFormed(v) && w.urls == v.urls
    requires forall i :: 0 <= i < |w.urls| ==> View(w, i) == View(v, i)
    requires forall u :: u !in w.urls ==> Lookup(w.table, u) == Lookup(v.table, u)
    ensures w.table == v.table
  {
    forall u
      ensures Lookup(w.table, u) == Lookup(v.table, u)
    {
      if u in w.urls {
        var i :| 0 <= i < |w.urls| && w.urls[i] == u;
        assert View(w, i) == View(v, i);
      }
    }
    assert forall u :: (u in w.table <==> Lookup(w.table, u).Some?) && (u in v.table <==> Lookup(v.table, u).Some?);
  }

  /** The entries of addresses without a session stay what they were. */
  lemma {:induction false} OutsideStays(w: World, moves: seq<Move>)
    requires WellFormed(w) && Possible(w, moves)
    ensures forall u :: u !in w.urls ==> Lookup(After(w, moves).table, u) == Lookup(w.table, u)
  {
    hide Apply, Enabled;
    if moves != [] {
      OutsideStays(w, moves[..|moves| - 1]);
    }
  }

  // ----- what the table says -----

  predicate NoStop(moves: seq<Move>) {
    forall i :: 0 <= i < |moves| ==> moves[i].action.event != Stop
  }

  /** Every entry has a connection time exactly when it says Subscribed. */
  predicate ConsistentTable(t: Table) {
    forall u :: u in t ==> Consistent(Some(t[u]))
  }

  /** The state that every session has reached on its own. */
  lemma EachSession(urls: seq<string>, t: Table, moves: seq<Move>, i: nat)
    requires Bootstrap.NoDuplicates(urls) && ConsistentTable(t) && Possible(NewWorld(urls, t), moves) && i < |urls|
    ensures Inv(urls[i], View(After(NewWorld(urls, t), moves), i))
    ensures NoStop(moves) ==> !After(NewWorld(urls, t), moves).sessions[i].stopped
  {
    hide Inv, Run, Legal, NoStop;
    var w := NewWorld(urls, t);
    var entry := Lookup(t, urls[i]);
    Independent(w, moves, i);
    RunKeepsInv(urls[i], entry, Own(moves, i));
    if NoStop(moves) {
      OwnHasNoStop(moves, i);
      NeverStopped(urls[i], entry, Own(moves, i));
    }
  }

  lemma {:induction false} OwnHasNoStop(moves: seq<Move>, i: nat)
    requires NoStop(moves)
    ensures forall k :: 0 <= k < |Own(moves, i)| ==> Own(moves, i)[k].event != Stop
  {
    if moves != [] {
      OwnHasNoStop(moves[..|moves| - 1], i);
    }
  }

  lemma {:induction false} NeverStopped(url: string, entry: Option<RelayStat>, acts: seq<Action>)
    requires Consistent(entry) && Legal(url, Fresh(entry), acts)
    requires forall k :: 0 <= k < |acts| ==> acts[k].event != Stop
    ensures !Run(url, Fresh(entry), acts).session.stopped
  {
    hide Inv, Apply, Enabled;
    if acts != [] {
      var n := |acts| - 1;
      NeverStopped(url, entry, acts[..n]);
      RunKeepsInv(url, entry, acts[..n]);
      StepKeeps(url, Run(url, Fresh(entry), acts[..n]), acts[n]);
    }
  }

  predicate Reading(s: Session) {
    ReqWrite in s.outstanding || MessageRead in s.outstanding
  }

  predicate Failing(s: Session) {
    Timer in s.outstanding || s.outstanding == multiset{}
  }

  /** The status that a running session shows. */
  lemma ShownStatus(url: string, l: Local)
    requires Inv(url, l) && l.session.started && !l.session.stopped
    ensures l.entry.Some?
    ensures l.entry.value.status == Subscribed <==> Reading(l.session)
    ensures l.entry.value.status == Error <==> Failing(l.session)
  {
    hide ParseRelayUrl;
  }

  /** The indices below n where a flag is set. */
  function Indices(flags: seq<bool>, n: nat): set<nat>
    requires n <= |flags|
  {
    set i: nat | i < n && flags[i]
  }

  function Marked(urls: seq<string>, flags: seq<bool>, n: nat): set<string>
    requires n <= |flags| == |urls|
  {
    set i: nat | i < n && flags[i] :: urls[i]
  }

  /** Distinct addresses are as many as their indices. */
  lemma {:induction false} CountMarked(urls: seq<string>, flags: seq<bool>, n: nat)
    requires n <= |flags| == |urls| && Bootstrap.NoDuplicates(urls)
    ensures |Marked(urls, flags, n)| == |Indices(flags, n)|
  {
    hide Marked, Indices;
    if n == 0 {
      NoneBelowZero(urls, flags);
    } else {
      CountMarked(urls, flags, n - 1);
      OneMoreMarked(urls, flags, n);
      OneMoreIndex(flags, n);
    }
  }

  lemma NoneBelowZero(urls: seq<string>, flags: seq<bool>)
    requires |flags| == |urls|
    ensures Marked(urls, flags, 0) == {} && Indices(flags, 0) == {}
  {}

  lemma OneMoreMarked(urls: seq<string>, flags: seq<bool>, n: nat)
    requires 0 < n <= |flags| == |urls| && Bootstrap.NoDuplicates(urls)
    ensures |Marked(urls, flags, n)| == |Marked(urls, flags, n - 1)| + (if flags[n - 1] then 1 else 0)
  {
    var before := Marked(urls, flags, n - 1);
    if flags[n - 1] {
      assert Marked(urls, flags, n) == before + {urls[n - 1]};
      assert urls[n - 1] !in before;
    } else {
      assert Marked(urls, flags, n) == before;
    }
  }

  lemma OneMoreIndex(flags: seq<bool>, n: nat)
    requires 0 < n <= |flags|
    ensures |Indices(flags, n)| == |Indices(flags, n - 1)| + (if flags[n - 1] then 1 else 0)
  {
    if flags[n - 1] {
      assert Indices(flags, n) == Indices(flags, n - 1) + {n - 1};
    } else {
      assert Indices(flags, n) == Indices(flags, n - 1);
    }
  }

  /** The sessions that satisfy p. */
  function Those(w: World, p: Session -> bool): set<nat> {
    set i: nat | i < |w.sessions| && p(w.sessions[i])
  }

  /** The entries of a table for other addresses. */
  function Leftover(t: Table, urls: seq<string>): (r: Table)
    ensures r.Keys <= t.Keys
  {
    map u | u in t && u !in urls :: t[u]
  }

  /** A status that the sessions with a property show, and no others, is counted right, next to the
      entries for other addresses. */
  lemma CountStatus(w: World, t: Table, status: RelayStatus, p: Session -> bool)
    requires WellFormed(w) && Bootstrap.NoDuplicates(w.urls)
    requires forall u :: u !in w.urls ==> Lookup(w.table, u) == Lookup(t, u)
    requires forall i :: 0 <= i < |w.urls| ==>
               w.urls[i] in w.table && (w.table[w.urls[i]].status == status <==> p(w.sessions[i]))
    ensures |WithStatusIn(w.table, status)| == |Those(w, p)| + |WithStatusIn(Leftover(t, w.urls), status)|
  {
    var n := |w.urls|;
    var flags := seq(n, i requires 0 <= i < n => p(w.sessions[i]));
    CountMarked(w.urls, flags, n);
    assert Those(w, p) == Indices(flags, n);
    StatusParts(w.table, t, w.urls, status, Marked(w.urls, flags, n));
  }

  lemma PartOf(r: Table, t: Table, urls: seq<string>, status: RelayStatus, u: string)
    requires u !in urls ==> Lookup(r, u) == Lookup(t, u)
    ensures u in WithStatusIn(Leftover(t, urls), status) ==> u !in urls
    ensures u !in urls ==> (u in WithStatusIn(r, status) <==> u in WithStatusIn(Leftover(t, urls), status))
    ensures u in WithStatusIn(r, status) <==> u in r && r[u].status == status
  {}

  /** The entries with a status are those of the sessions and the leftover ones. */
  lemma StatusParts(r: Table, t: Table, urls: seq<string>, status: RelayStatus, own: set<string>)
    requires forall u :: u !in urls ==> Lookup(r, u) == Lookup(t, u)
    requires forall u :: u in own <==> u in urls && u in r && r[u].status == status
    ensures |WithStatusIn(r, status)| == |own| + |WithStatusIn(Leftover(t, urls), status)|
  {
    hide WithStatusIn, Leftover, Lookup;
    var others := WithStatusIn(Leftover(t, urls), status);
    forall u
      ensures u in WithStatusIn(r, status) <==> u in own || u in others
      ensures u !in own || u !in others
    {
      PartOf(r, t, urls, status, u);
    }
    assert WithStatusIn(r, status) == own + others;
    assert own !! others;
  }

  // ----- events -----

  lemma EventSumPut(t: Table, url: string, stat: RelayStat)
    ensures EventSum(t[url := stat]) + (if url in t then t[url].eventsCount else 0) == EventSum(t) + stat.eventsCount
  {
    hide EventSum;
    EventSumWithout(t[url := stat], url);
    assert t[url := stat] - {url} == t - {url};
    if url in t {
      EventSumWithout(t, url);
    } else {
      assert t - {url} == t;
    }
  }

  /** Only an EVENT message changes the count of an entry. */
  lemma ApplyCounts(url: string, l: Local, a: Action)
    ensures CountOf(Apply(url, l, a).entry) ==
            if CountsEvent(a.event) then (CountOf(l.entry) + 1) % UINT64 else CountOf(l.entry)
    ensures CountsEvent(a.event) ==> Apply(url, l, a).entry.Some?
  {
    hide ParseRelayUrl, MarkError, Finish, Launch;
    forall k: Local, op
      ensures Finish(k, op).entry == k.entry && Launch(k, op).entry == k.entry
    {
      EntryUntouched(k, op);
    }
    forall k: Local, where, message
      ensures CountOf(MarkError(url, k, where, message, a.now, a.jitter).entry) == CountOf(k.entry)
    {
      ErrorCountsNothing(url, k, where, message, a.now, a.jitter);
    }
  }

  lemma EntryUntouched(k: Local, op: Operation)
    ensures Finish(k, op).entry == k.entry && Launch(k, op).entry == k.entry
  {}

  lemma ErrorCountsNothing(url: string, l: Local, where: Stage, message: string, now: int, jitter: nat)
    ensures CountOf(MarkError(url, l, where, message, now, jitter).entry) == CountOf(l.entry)
  {
    hide ComputeReconnectDelayMs;
  }

  /** Every handled EVENT message adds one to the sum of the counts, modulo 2^64. */
  lemma {:induction false} EventsAreCounted(w: World, moves: seq<Move>)
    requires WellFormed(w) && Possible(w, moves)
    ensures EventSum(After(w, moves).table) % UINT64 == (EventSum(w.table) + Events(moves)) % UINT64
  {
    hide Apply, Enabled, EventSum;
    if moves != [] {
      var n := |moves| - 1;
      EventsAreCounted(w, moves[..n]);
      var r := After(w, moves[..n]);
      var one := if CountsEvent(moves[n].action.event) then 1 else 0;
      CountStep(r, moves[n]);
      AddModulo(EventSum(r.table), 0, one);
      AddModulo(EventSum(w.table) + Events(moves[..n]), 0, one);
    }
  }

  lemma CountStep(w: World, m: Move)
    requires WellFormed(w) && m.who < |w.urls|
    ensures EventSum(AfterMove(w, m).table) % UINT64 ==
            (EventSum(w.table) + (if CountsEvent(m.action.event) then 1 else 0)) % UINT64
  {
    hide Apply, EventSum;
    var url := w.urls[m.who];
    var e := Apply(url, View(w, m.who), m.action).entry;
    ApplyCounts(url, View(w, m.who), m.action);
    EntryStays(url, View(w, m.who), m.action);
    if e.Some? {
      EventSumPut(w.table, url, e.value);
      var c := CountOf(View(w, m.who).entry);
      if CountsEvent(m.action.event) {
        WrapAround(EventSum(w.table) - c, c + 1);
      }
    }
  }

  lemma WrapAround(rest: int, c: nat)
    ensures (rest + c % UINT64) % UINT64 == (rest + c) % UINT64
  {
    assert c == c % UINT64 + UINT64 * (c / UINT64);
  }

  // ----- agreement -----

  /** All sessions are started, and no step was a Stop. */
  predicate AllRunning(w: World, moves: seq<Move>)
    requires WellFormed(w)
  {
    Possible(w, moves) && NoStop(moves) && forall i :: 0 <= i < |w.urls| ==> After(w, moves).sessions[i].started
  }

  /** Next to the entries for other addresses, the table counts as many connected relays as sessions
      that write their request or read, and as many errored relays as sessions that wait for a timer
      or for nothing. */
  predicate CountsAgree(w: World, t: Table) {
    && |WithStatusIn(w.table, Subscribed)| == |Those(w, Reading)| + |WithStatusIn(Leftover(t, w.urls), Subscribed)|
    && |WithStatusIn(w.table, Error)| == |Those(w, Failing)| + |WithStatusIn(Leftover(t, w.urls), Error)|
  }

  lemma DistinctAgree(urls: seq<string>, t: Table, moves: seq<Move>)
    requires Bootstrap.NoDuplicates(urls) && ConsistentTable(t) && AllRunning(NewWorld(urls, t), moves)
    ensures CountsAgree(After(NewWorld(urls, t), moves), t)
  {
    hide After, Possible, Inv, NoStop, Reading, Failing, EventSum, WithStatusIn, Those, Leftover, ConsistentTable;
    var w := After(NewWorld(urls, t), moves);
    forall i | 0 <= i < |urls|
      ensures urls[i] in w.table && (w.table[urls[i]].status == Subscribed <==> Reading(w.sessions[i]))
      ensures w.table[urls[i]].status == Error <==> Failing(w.sessions[i])
    {
      EachSession(urls, t, moves, i);
      ShownStatus(urls[i], View(w, i));
    }
    OutsideStays(NewWorld(urls, t), moves);
    CountStatus(w, t, Subscribed, Reading);
    CountStatus(w, t, Error, Failing);
  }

  /** For sessions with distinct addresses over any table, in every interleaving without Stop, once
      all are started, what Aggregate reports is what the sessions are doing, next to the entries for
      other addresses, and every handled EVENT message is counted once, up to wrap-around. */
  lemma Agreement(urls: seq<string>, t: Table, moves: seq<Move>, a: AggregateStats)
    requires Bootstrap.NoDuplicates(urls) && ConsistentTable(t) && AllRunning(NewWorld(urls, t), moves)
    requires IsAggregate(a, After(NewWorld(urls, t), moves).table)
    ensures var w := After(NewWorld(urls, t), moves);
            var rest := Leftover(t, urls);
            && a.connectedRelays == |Those(w, Reading)| + |WithStatusIn(rest, Subscribed)|
            && a.erroredRelays == |Those(w, Failing)| + |WithStatusIn(rest, Error)|
            && a.totalEvents == (EventSum(t) + Events(moves)) % UINT64
  {
    hide After, Possible, NoStop, EventSum, WithStatusIn, Those, Leftover, ConsistentTable;
    DistinctAgree(urls, t, moves);
    EventsAreCounted(NewWorld(urls, t), moves);
  }

  // ----- repeated addresses -----

  function Addresses(urls: seq<string>): set<string> {
    set u | u in urls
  }

  /** The first n sessions are started one after the other, and those that begin to resolve fail in
      doing so. */
  function Failures(urls: seq<string>, n: nat): seq<Move>
    requires n <= |urls|
  {
    if n == 0 then []
    else
      Failures(urls, n - 1) + [Move(n - 1, Action(Start, 0, 0))]
      + (if Monitored(urls[n - 1]) then [Move(n - 1, Action(Resolved(Bad("")), 0, 0))] else [])
  }

  /** The first n sessions have failed, the others are not started, and the entries of the first n
      addresses say so. */
  predicate FailedSoFar(w: World, n: nat)
    requires WellFormed(w) && n <= |w.urls|
  {
    && (forall i :: 0 <= i < n ==> w.sessions[i].started && Failing(w.sessions[i]) && !Reading(w.sessions[i]))
    && (forall i :: n <= i < |w.urls| ==> w.sessions[i] == NEW_SESSION)
    && (forall i :: 0 <= i < n ==> w.urls[i] in w.table && w.table[w.urls[i]].status == Error)
  }

  /** The session resolves for the first time. */
  predicate FirstResolve(s: Session) {
    s.started && s.outstanding == multiset{Resolution} && !s.stopped && s.attempt == 0
  }

  lemma StartOfNew(url: string, entry: Option<RelayStat>)
    ensures var l := Apply(url, Fresh(entry), Action(Start, 0, 0));
            && Enabled(NEW_SESSION, Action(Start, 0, 0))
            && l.session.started && l.entry.Some?
            && (if Monitored(url) then FirstResolve(l.session)
                else Failing(l.session) && !Reading(l.session) && l.entry.value.status == Error)
  {
    hide ParseRelayUrl;
  }

  lemma ResolveFails(url: string, l: Local)
    requires FirstResolve(l.session)
    ensures var a := Action(Resolved(Bad("")), 0, 0);
            var r := Apply(url, l, a);
            && Enabled(l.session, a)
            && r.session.started && Failing(r.session) && !Reading(r.session)
            && r.entry.Some? && r.entry.value.status == Error
  {
    hide ComputeReconnectDelayMs;
  }

  lemma {:induction false} FailuresFail(urls: seq<string>, t: Table, n: nat)
    requires n <= |urls|
    ensures var moves := Failures(urls, n);
            && Possible(NewWorld(urls, t), moves) && NoStop(moves)
            && FailedSoFar(After(NewWorld(urls, t), moves), n)
  {
    hide Possible, After, Apply, Monitored, Failing, Reading, Enabled;
    var w := NewWorld(urls, t);
    if n == 0 {
      NothingHappens(w);
    } else {
      var i := n - 1;
      FailuresFail(urls, t, i);
      var before := Failures(urls, i);
      var r := After(w, before);
      StartOfNew(urls[i], Lookup(r.table, urls[i]));
      assert View(r, i) == Fresh(Lookup(r.table, urls[i]));
      var start := Move(i, Action(Start, 0, 0));
      MoveExtends(w, before, start);
      if Monitored(urls[i]) {
        var fail := Move(i, Action(Resolved(Bad("")), 0, 0));
        ResolveFails(urls[i], View(AfterMove(r, start), i));
        MoveExtends(w, before + [start], fail);
        assert Failures(urls, n) == before + [start] + [fail];
      } else {
        assert Failures(urls, n) == before + [start] + [];
        assert before + [start] + [] == before + [start];
      }
    }
  }

  lemma {:induction false} AtMostLength(xs: seq<string>)
    ensures |Addresses(xs)| <= |xs|
  {
    if xs != [] {
      var n := |xs| - 1;
      AtMostLength(xs[..n]);
      assert Addresses(xs) == Addresses(xs[..n]) + {xs[n]};
    }
  }

  lemma FewerAddresses(urls: seq<string>)
    requires !Bootstrap.NoDuplicates(urls)
    ensures |Addresses(urls)| < |urls|
  {
    var i, j :| 0 <= i < j < |urls| && urls[i] == urls[j];
    var others := urls[..j] + urls[j + 1..];
    AtMostLength(others);
    assert others[i] == urls[j];
    forall k | 0 <= k < |urls|
      ensures urls[k] in others
    {
      assert k < j ==> others[k] == urls[k];
      assert k > j ==> others[k - 1] == urls[k];
    }
    assert Addresses(urls) == Addresses(others);
  }

  lemma AllIndices(w: World, p: Session -> bool, n: nat)
    requires n == |w.sessions| && forall i :: 0 <= i < n ==> p(w.sessions[i])
    ensures |Those(w, p)| == n
  {
    var flags := seq(n, i => true);
    assert Those(w, p) == Indices(flags, n);
    CountAll(flags, n);
  }

  lemma {:induction false} CountAll(flags: seq<bool>, n: nat)
    requires n <= |flags| && forall i :: 0 <= i < |flags| ==> flags[i]
    ensures |Indices(flags, n)| == n
  {
    hide Indices;
    if n == 0 {
      NoneBelowZero(seq(|flags|, i => ""), flags);
    } else {
      CountAll(flags, n - 1);
      OneMoreIndex(flags, n);
    }
  }

  /** With a repeated address there is an interleaving in which all sessions have failed, and the
      table counts only as many of them as there are different addresses. */
  lemma RepeatedAddressMiscounts(urls: seq<string>, t: Table) returns (moves: seq<Move>)
    requires !Bootstrap.NoDuplicates(urls)
    ensures AllRunning(NewWorld(urls, t), moves)
    ensures var w := After(NewWorld(urls, t), moves);
            && |Those(w, Failing)| == |urls|
            && |WithStatusIn(w.table, Error)| == |Addresses(urls)| + |WithStatusIn(Leftover(t, urls), Error)|
            && |Addresses(urls)| < |urls|
  {
    hide Possible, After, Failing, Reading, WithStatusIn, Leftover, Those, Failures;
    moves := Failures(urls, |urls|);
    FailuresFail(urls, t, |urls|);
    var w := After(NewWorld(urls, t), moves);
    AllIndices(w, Failing, |urls|);
    OutsideStays(NewWorld(urls, t), moves);
    StatusParts(w.table, t, urls, Error, Addresses(urls));
    FewerAddresses(urls);
  }

  /** The exact condition: the table agrees with the sessions in every interleaving if and only if no
      address is repeated. */
  lemma AgreementNeedsDistinct(urls: seq<string>, t: Table)
    requires ConsistentTable(t)
    ensures Bootstrap.NoDuplicates(urls) <==>
            (forall moves :: AllRunning(NewWorld(urls, t), moves) ==> CountsAgree(After(NewWorld(urls, t), moves), t))
  {
    hide Possible, NoStop, CountsAgree, ConsistentTable, After, Bootstrap.NoDuplicates;
    if Bootstrap.NoDuplicates(urls) {
      forall moves | AllRunning(NewWorld(urls, t), moves)
        ensures CountsAgree(After(NewWorld(urls, t), moves), t)
      {
        DistinctAgree(urls, t, moves);
      }
    } else {
      var moves := RepeatedAddressMiscounts(urls, t);
      Disagree(After(NewWorld(urls, t), moves), t);
    }
  }

  lemma Disagree(w: World, t: Table)
    requires |WithStatusIn(w.table, Error)| < |Those(w, Failing)| + |WithStatusIn(Leftover(t, w.urls), Error)|
    ensures !CountsAgree(w, t)
  {}

  /** An instance with an address that a bootstrap can yield: two sessions have failed, and one
      errored relay is counted. */
  lemma MonitoredTwice()
    ensures var urls := [Bootstrap.FALLBACK[0], Bootstrap.FALLBACK[0]];
            && Monitored(urls[0])
            && exists moves :: AllRunning(NewWorld(urls, map[]), moves)
                               && |Those(After(NewWorld(urls, map[]), moves), Failing)| == 2
                               && |WithStatusIn(After(NewWorld(urls, map[]), moves).table, Error)| == 1
  {
    hide AllRunning, After, Those, WithStatusIn, Leftover, ParseRelayUrl;
    var url := Bootstrap.FALLBACK[0];
    var urls := [url, url];
    FallbackParses();
    assert urls[0] == urls[1];
    var moves := RepeatedAddressMiscounts(urls, map[]);
    assert Addresses(urls) == {url};
    NothingLeftOver(urls);
  }

  lemma FallbackParses()
    ensures Monitored(Bootstrap.FALLBACK[0])
  {
    var url := Bootstrap.FALLBACK[0];
    assert url[6..] == "nos.lol";
    ParsesWhen(true, "443", url[6..]);
    hide ParseAfterScheme;
    assert SECURE_SCHEME <= url && url[6..][0] == 'n';
    ParsedScheme(url);
  }

  /** An empty table leaves nothing over. */
  lemma NothingLeftOver(urls: seq<string>)
    ensures forall status :: |WithStatusIn(Leftover(map[], urls), status)| == 0
    ensures EventSum(map[]) == 0 && ConsistentTable(map[])
  {
    assert Leftover(map[], urls) == map[];
    forall status
      ensures WithStatusIn(map[], status) == {}
    {}
  }

  // ----- steps -----

  lemma NothingHappens(w: World)
    requires WellFormed(w)
    ensures Possible(w, []) && After(w, []) == w
  {}

  lemma MoveExtends(w: World, moves: seq<Move>, m: Move)
    requires WellFormed(w) && Possible(w, moves)
    requires m.who < |w.urls| && Enabled(After(w, moves).sessions[m.who], m.action)
    ensures Possible(w, moves + [m]) && After(w, moves + [m]) == AfterMove(After(w, moves), m)
  {
    hide Enabled, AfterMove;
    assert (moves + [m])[..|moves + [m]| - 1] == moves;
  }

  /** The list that a successful bootstrap yields is free of repetitions, and every session on it
      gets past its address: it does not fail before it resolves. */
  lemma BootstrapListIsMonitored(result: Bootstrap.BootstrapResult)
    requires Bootstrap.Sound(result) && result.ok
    ensures Bootstrap.NoDuplicates(result.relayUrls)
    ensures forall i :: 0 <= i < |result.relayUrls| ==> Monitored(result.relayUrls[i])
  {
    hide ParseRelayUrl;
    forall i | 0 <= i < |result.relayUrls|
      ensures Monitored(result.relayUrls[i])
    {
      assert result.relayUrls[i] in result.relayUrls;
    }
  }
}
