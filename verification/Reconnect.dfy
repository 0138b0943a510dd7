/** The reconnect policy (`relay_session_support.cpp`). */
module Reconnect {
  /** The stages of a session whose failure is reported. */
  datatype Stage = Resolve | Connect | SetSni | TlsHandshake | WsHandshake | WriteReq | Read

  const MAX_RECONNECT_ATTEMPTS: nat := 6
  const MAX_JITTER: nat := 250

  predicate ShouldReconnectAttempt(stopped: bool, attempt: nat, where: Stage) {
    if stopped || attempt >= MAX_RECONNECT_ATTEMPTS then false
    else if where.WsHandshake? || where.SetSni? then false
    else where.Read? || where.Resolve? || where.Connect? || where.TlsHandshake? || where.WriteReq?
  }

  function Min(a: nat, b: nat): nat {
    if a < b then a else b
  }

  /** 1U << n in 32 bits. */
  function Shifted(n: nat): nat {
    if n == 0 then 1 else Shifted(n - 1) * 2 % 0x1_0000_0000
  }

  /** The delay in milliseconds, in 32-bit arithmetic, for one value of the random jitter. */
  function ComputeReconnectDelayMs(attempt: nat, jitter: nat): nat {
    var exp := Min(if attempt > 0 then attempt - 1 else 0, 8);
    var base := 500 * Shifted(exp) % 0x1_0000_0000;
    Min(30000, (base + jitter) % 0x1_0000_0000)
  }

  /** The delay without jitter and cap, in unbounded arithmetic. */
  function Base(attempt: nat): nat {
    if attempt <= 1 then 500 else if attempt <= 9 then 2 * Base(attempt - 1) else 128000
  }

  lemma ShiftedIs(attempt: nat)
    ensures var exp := Min(if attempt > 0 then attempt - 1 else 0, 8);
            500 * Shifted(exp) == Base(attempt) <= 128000
  {
    assert Shifted(1) == 2;
    assert Shifted(2) == 4;
    assert Shifted(3) == 8;
    assert Shifted(4) == 16;
    assert Shifted(5) == 32;
    assert Shifted(6) == 64;
    assert Shifted(7) == 128;
    assert Shifted(8) == 256;
    assert Base(2) == 1000;
    assert Base(3) == 2000;
    assert Base(4) == 4000;
    assert Base(5) == 8000;
    assert Base(6) == 16000;
    assert Base(7) == 32000;
    assert Base(8) == 64000;
    assert Base(9) == 128000;
    if attempt > 1 && attempt < 9 {
      assert attempt == 2 || attempt == 3 || attempt == 4 || attempt == 5 || attempt == 6
          || attempt == 7 || attempt == 8;
    }
  }

  /** No step of the computation wraps. */
  lemma DelayDoesNotWrap(attempt: nat, jitter: nat)
    requires jitter <= MAX_JITTER
    ensures ComputeReconnectDelayMs(attempt, jitter) == Min(30000, Base(attempt) + jitter)
  {
    hide Shifted, Base;
    ShiftedIs(attempt);
    Small(Base(attempt));
    Small(Base(attempt) + jitter);
  }

  lemma Small(x: nat)
    requires x < 0x1_0000_0000
    ensures x % 0x1_0000_0000 == x
  {}

  /** The delay of each attempt of a streak, written out. */
  lemma DelayTable(attempt: nat, jitter: nat)
    requires jitter <= 250
    ensures attempt <= 6 ==>
              ComputeReconnectDelayMs(attempt, jitter) == [500, 500, 1000, 2000, 4000, 8000, 16000][attempt] + jitter
    ensures attempt >= 7 ==> ComputeReconnectDelayMs(attempt, jitter) == 30000
  {
    hide Base, ComputeReconnectDelayMs;
    DelayDoesNotWrap(attempt, jitter);
    Bases(attempt);
    FirstBase();
    if attempt <= 6 {
      assert attempt == 0 || attempt == 1 || attempt == 2 || attempt == 3
          || attempt == 4 || attempt == 5 || attempt == 6;
    }
  }

  lemma FirstBase()
    ensures Base(0) == 500
  {}

  /** Which failures are retried. */
  lemma RetriedStages(stopped: bool, attempt: nat, where: Stage)
    ensures ShouldReconnectAttempt(stopped, attempt, where) <==>
            !stopped && attempt < 6 && where in {Read, Resolve, Connect, TlsHandshake, WriteReq}
  {}

  /** A later attempt waits longer, whatever the jitter, until the cap is reached at attempt 7. */
  lemma DelaysIncrease(a: nat, b: nat, j: nat, k: nat)
    requires 1 <= a < b && j <= MAX_JITTER && k <= MAX_JITTER
    ensures a <= 6 ==> ComputeReconnectDelayMs(a, j) < ComputeReconnectDelayMs(b, k)
    ensures a >= 7 ==> ComputeReconnectDelayMs(a, j) == 30000
  {
    DelayDoesNotWrap(a, j);
    DelayDoesNotWrap(b, k);
    Bases(a);
    Bases(b);
  }

  lemma Bases(a: nat)
    ensures a >= 7 ==> Base(a) >= 32000
    ensures a == 1 ==> Base(a) == 500
    ensures a == 2 ==> Base(a) == 1000
    ensures a == 3 ==> Base(a) == 2000
    ensures a == 4 ==> Base(a) == 4000
    ensures a == 5 ==> Base(a) == 8000
    ensures a == 6 ==> Base(a) == 16000
  {
    assert Base(2) == 1000;
    assert Base(4) == 2 * Base(3);
    assert Base(6) == 4 * Base(4);
    assert Base(7) == 32000;
    assert Base(8) == 64000;
    assert Base(9) == 128000;
    if a >= 7 && a <= 9 {
      assert a == 7 || a == 8 || a == 9;
    }
  }

  /** The sum of the delays of the first n attempts of a streak. */
  function TotalDelay(jitters: seq<nat>): nat {
    if jitters == [] then 0
    else TotalDelay(jitters[..|jitters| - 1]) + ComputeReconnectDelayMs(|jitters|, jitters[|jitters| - 1])
  }

  /** The waits of a streak of n reconnects add up to the doubling series and at most n jitters;
      six of them take between 31.5 and 33 seconds. */
  lemma {:induction false} StreakDelay(jitters: seq<nat>)
    requires |jitters| <= MAX_RECONNECT_ATTEMPTS && forall i :: 0 <= i < |jitters| ==> jitters[i] <= MAX_JITTER
    ensures jitters != [] ==>
              2 * Base(|jitters|) - 500 <= TotalDelay(jitters) <= 2 * Base(|jitters|) - 500 + 250 * |jitters|
    ensures |jitters| == 6 ==> 31500 <= TotalDelay(jitters) <= 33000
  {
    Bases(|jitters|);
    if jitters != [] {
      var n := |jitters| - 1;
      StreakDelay(jitters[..n]);
      DelayDoesNotWrap(|jitters|, jitters[n]);
      Bases(n);
    }
  }
}
