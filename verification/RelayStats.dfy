/** The shared table of relay states (`model_relay_stats.cpp`). */
module RelayStatsModel {
  import opened Options
  import opened Reconnect

  datatype RelayStatus = Disconnected | Resolving | Connecting | TlsHandshaking | WsHandshaking | Subscribed | Error

  datatype ErrorText = NoError | InvalidUrl | UnsupportedScheme | StageFailed(stage: Stage, message: string)

  const UINT64: nat := 0x1_0000_0000_0000_0000

  datatype RelayStat = RelayStat(
    relayUrl: string, status: RelayStatus, eventsCount: nat, lastError: ErrorText, connectedAt: Option<int>)

  const NEW_STAT := RelayStat("", Disconnected, 0, NoError, None)

  type Table = map<string, RelayStat>

  function Lookup(t: Table, url: string): Option<RelayStat> {
    if url in t then Some(t[url]) else None
  }

  /** The entry that operator[] yields: the one in the table, or a new one. */
  function EntryOf(e: Option<RelayStat>): RelayStat {
    match e case Some(stat) => stat case None => NEW_STAT
  }

  function Ensured(e: Option<RelayStat>, url: string): RelayStat {
    match e case Some(stat) => stat case None => NEW_STAT.(relayUrl := url)
  }

  function WithStatus(e: Option<RelayStat>, url: string, status: RelayStatus, error: ErrorText, now: int): RelayStat {
    EntryOf(e).(relayUrl := url, status := status, lastError := error,
                connectedAt := if status == Subscribed then Some(now) else None)
  }

  function WithEvent(e: Option<RelayStat>, url: string): RelayStat {
    EntryOf(e).(relayUrl := url, eventsCount := (EntryOf(e).eventsCount + 1) % UINT64)
  }

  /** The events that an entry counts. */
  function CountOf(e: Option<RelayStat>): nat {
    match e case Some(stat) => stat.eventsCount case None => 0
  }

  datatype AggregateStats = AggregateStats(connectedRelays: nat, erroredRelays: nat, totalEvents: nat)

  /** The addresses whose entry has a status. */
  function WithStatusIn(t: Table, status: RelayStatus): set<string> {
    set u | u in t && t[u].status == status
  }

  /** The sum of all event counts, in any order. */
  ghost function EventSum(t: Table): nat
    decreases |t|
  {
    if t == map[] then 0
    else
      var u :| u in t;
      t[u].eventsCount + EventSum(t - {u})
  }

  lemma {:induction false} EventSumWithout(t: Table, u: string)
    requires u in t
    ensures EventSum(t) == t[u].eventsCount + EventSum(t - {u})
    decreases |t|
  {
    var v :| v in t && EventSum(t) == t[v].eventsCount + EventSum(t - {v});
    if v != u {
      EventSumWithout(t - {v}, u);
      EventSumWithout(t - {u}, v);
      assert t - {v} - {u} == t - {u} - {v};
    }
  }

  class RelayStats {
    var byRelay: Table

    constructor ()
      ensures byRelay == map[]
    {
      byRelay := map[];
    }

    method Reset()
      modifies this
      ensures byRelay == map[]
    {
      byRelay := map[];
    }

    method EnsureRelay(url: string)
      modifies this
      ensures byRelay == old(byRelay)[url := Ensured(Lookup(old(byRelay), url), url)]
      ensures url in old(byRelay) ==> byRelay == old(byRelay)
      ensures url !in old(byRelay) ==> byRelay[url] == RelayStat(url, Disconnected, 0, NoError, None)
    {
      if url !in byRelay {
        byRelay := byRelay[url := NEW_STAT.(relayUrl := url)];
      }
    }

    method SetStatus(url: string, status: RelayStatus, error: ErrorText, now: int)
      modifies this
      ensures byRelay == old(byRelay)[url := WithStatus(Lookup(old(byRelay), url), url, status, error, now)]
      ensures byRelay[url] == RelayStat(url, status, if url in old(byRelay) then old(byRelay)[url].eventsCount else 0,
                                        error, if status == Subscribed then Some(now) else None)
    {
      var stat := if url in byRelay then byRelay[url] else NEW_STAT;
      stat := stat.(relayUrl := url, status := status, lastError := error);
      if status == Subscribed {
        stat := stat.(connectedAt := Some(now));
      } else {
        stat := stat.(connectedAt := None);
      }
      byRelay := byRelay[url := stat];
    }

    method IncrementEvent(url: string)
      modifies this
      ensures byRelay == old(byRelay)[url := WithEvent(Lookup(old(byRelay), url), url)]
      ensures byRelay[url].relayUrl == url
      ensures byRelay[url].eventsCount ==
              ((if url in old(byRelay) then old(byRelay)[url].eventsCount else 0) + 1) % 0x1_0000_0000_0000_0000
      ensures url in old(byRelay) ==>
                && byRelay[url].status == old(byRelay)[url].status
                && byRelay[url].lastError == old(byRelay)[url].lastError
                && byRelay[url].connectedAt == old(byRelay)[url].connectedAt
    {
      var stat := if url in byRelay then byRelay[url] else NEW_STAT;
      stat := stat.(relayUrl := url);
      stat := stat.(eventsCount := (stat.eventsCount + 1) % UINT64);
      byRelay := byRelay[url := stat];
    }

    /** Counts over the table in any order of its entries. */
    method Aggregate() returns (a: AggregateStats)
      ensures IsAggregate(a, byRelay)
      ensures a.connectedRelays == |set u | u in byRelay && byRelay[u].status == Subscribed|
      ensures a.erroredRelays == |set u | u in byRelay && byRelay[u].status == Error|
      ensures a.totalEvents == EventSum(byRelay) % 0x1_0000_0000_0000_0000
    {
      hide Counted, EventSum, WithStatusIn;
      a := AggregateStats(0, 0, 0);
      var todo := byRelay;
      NothingCounted(byRelay);
      while todo != map[]
        invariant Counted(a, todo, byRelay)
        decreases |todo|
      {
        var u :| u in todo;
        var stat := todo[u];
        CountOne(a, todo, byRelay, u);
        if stat.status == Subscribed {
          a := a.(connectedRelays := a.connectedRelays + 1);
        }
        if stat.status == Error {
          a := a.(erroredRelays := a.erroredRelays + 1);
        }
        a := a.(totalEvents := (a.totalEvents + stat.eventsCount) % UINT64);
        todo := todo - {u};
      }
      AllCounted(a, byRelay);
      AggregateMeans(a, byRelay);
    }
  }

  /** The entries with each of two statuses, and the 64-bit sum of all event counts. */
  ghost predicate IsAggregate(a: AggregateStats, t: Table) {
    && a.connectedRelays == |WithStatusIn(t, Subscribed)|
    && a.erroredRelays == |WithStatusIn(t, Error)|
    && a.totalEvents == EventSum(t) % UINT64
  }

  lemma AggregateMeans(a: AggregateStats, t: Table)
    requires IsAggregate(a, t)
    ensures a.connectedRelays == |set u | u in t && t[u].status == Subscribed|
    ensures a.erroredRelays == |set u | u in t && t[u].status == Error|
    ensures a.totalEvents == EventSum(t) % 0x1_0000_0000_0000_0000
  {
    hide EventSum;
    assert (set u | u in t && t[u].status == Subscribed) == WithStatusIn(t, Subscribed);
    assert (set u | u in t && t[u].status == Error) == WithStatusIn(t, Error);
  }

  /** What is counted and what is left to count make up the whole table. */
  ghost predicate Counted(a: AggregateStats, todo: Table, t: Table) {
    && a.connectedRelays + |WithStatusIn(todo, Subscribed)| == |WithStatusIn(t, Subscribed)|
    && a.erroredRelays + |WithStatusIn(todo, Error)| == |WithStatusIn(t, Error)|
    && (a.totalEvents + EventSum(todo)) % UINT64 == EventSum(t) % UINT64
    && a.totalEvents < UINT64
  }

  lemma NothingCounted(t: Table)
    ensures Counted(AggregateStats(0, 0, 0), t, t)
  {}

  lemma CountOne(a: AggregateStats, todo: Table, t: Table, u: string)
    requires u in todo && Counted(a, todo, t)
    ensures var e := todo[u];
            Counted(AggregateStats(a.connectedRelays + (if e.status == Subscribed then 1 else 0),
                                   a.erroredRelays + (if e.status == Error then 1 else 0),
                                   (a.totalEvents + e.eventsCount) % UINT64), todo - {u}, t)
  {
    hide EventSum, WithStatusIn;
    StatusWithout(todo, u, Subscribed);
    StatusWithout(todo, u, Error);
    EventSumWithout(todo, u);
    AddModulo(a.totalEvents, todo[u].eventsCount, EventSum(todo - {u}));
  }

  lemma AllCounted(a: AggregateStats, t: Table)
    requires Counted(a, map[], t)
    ensures IsAggregate(a, t)
  {
    assert WithStatusIn(map[], Subscribed) == {} && WithStatusIn(map[], Error) == {};
  }

  lemma AddModulo(a: nat, b: nat, c: nat)
    ensures ((a + b) % UINT64 + c) % UINT64 == (a + (b + c)) % UINT64
  {
    var q := (a + b) / UINT64;
    assert a + b + c == (a + b) % UINT64 + c + q * UINT64;
    ModuloPlus((a + b) % UINT64 + c, q);
  }

  lemma {:induction false} ModuloPlus(x: nat, q: nat)
    ensures (x + q * UINT64) % UINT64 == x % UINT64
  {
    if q > 0 {
      ModuloPlus(x, q - 1);
      assert x + q * UINT64 == (x + (q - 1) * UINT64) + UINT64;
    }
  }

  lemma StatusWithout(t: Table, u: string, status: RelayStatus)
    requires u in t
    ensures |WithStatusIn(t, status)| == |WithStatusIn(t - {u}, status)| + (if t[u].status == status then 1 else 0)
  {
    var s := WithStatusIn(t, status);
    if t[u].status == status {
      assert s == WithStatusIn(t - {u}, status) + {u};
    } else {
      assert s == WithStatusIn(t - {u}, status);
    }
  }
}
