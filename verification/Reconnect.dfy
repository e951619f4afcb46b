/** Reconnection with exponential backoff (src/network_reconnect.c). */
module Reconnect {

  const INITIAL_BACKOFF: nat := 100
  const MAX_BACKOFF: nat := 30000
  const MAX_ATTEMPTS: nat := 10

  /** reconnect_ctx_t; times in milliseconds. */
  datatype Ctx = Ctx(lastAttempt: nat, nextAttempt: nat, attemptCount: nat, backoff: nat, reconnecting: bool)

  /** TooEarly and WillRetry return 0, Reconnected 1, GaveUp -1. */
  datatype Verdict = TooEarly | WillRetry | Reconnected | GaveUp

  const FRESH := Ctx(0, 0, 0, INITIAL_BACKOFF, false)

  /** One peer_try_reconnect at time `now`; `ok` says whether the transport attempt, if made, succeeds. */
  function Try(rc: Ctx, now: nat, ok: bool): (Ctx, Verdict) {
    if now < rc.nextAttempt then (rc, TooEarly)
    else if ok then
      (Ctx(now, rc.nextAttempt, 0, INITIAL_BACKOFF, false), Reconnected)
    else if rc.attemptCount + 1 >= MAX_ATTEMPTS then
      (rc.(lastAttempt := now, attemptCount := rc.attemptCount + 1), GaveUp)
    else
      var backoff := if rc.backoff * 2 > MAX_BACKOFF then MAX_BACKOFF else rc.backoff * 2;
      (Ctx(now, now + backoff, rc.attemptCount + 1, backoff, true), WillRetry)
  }

  function Reset(rc: Ctx): Ctx { rc.(attemptCount := 0, backoff := INITIAL_BACKOFF, reconnecting := false) }

  /** The heap object behind peer->reconnect_ctx. */
  class ReconnectCtx {
    var lastAttempt: nat
    var nextAttempt: nat
    var attemptCount: nat
    var backoff: nat
    var reconnecting: bool

    function Value(): Ctx reads this { Ctx(lastAttempt, nextAttempt, attemptCount, backoff, reconnecting) }

    constructor ()
      ensures Value() == FRESH
    {
      lastAttempt, nextAttempt, attemptCount, backoff, reconnecting := 0, 0, 0, INITIAL_BACKOFF, false;
    }

    method TryReconnect(now: nat, ok: bool) returns (verdict: Verdict)
      modifies this
      ensures (Value(), verdict) == Try(old(Value()), now, ok)
    {
      if now < nextAttempt { return TooEarly; }
      lastAttempt := now;
      attemptCount := attemptCount + 1;
      if ok {
        attemptCount := 0;
        backoff := INITIAL_BACKOFF;
        reconnecting := false;
        return Reconnected;
      }
      if attemptCount >= MAX_ATTEMPTS { return GaveUp; }
      backoff := if backoff * 2 > MAX_BACKOFF then MAX_BACKOFF else backoff * 2;
      nextAttempt := now + backoff;
      reconnecting := true;
      return WillRetry;
    }

    method ResetBackoff()
      modifies this
      ensures Value() == Reset(old(Value()))
      ensures attemptCount == 0 && backoff == 100 && !reconnecting
      ensures lastAttempt == old(lastAttempt) && nextAttempt == old(nextAttempt)
    {
      attemptCount := 0;
      backoff := INITIAL_BACKOFF;
      reconnecting := false;
    }
  }

  /** A call with its clock reading and the outcome the transport would have, or a reset. */
  datatype Event = Call(now: nat, ok: bool) | ResetCall

  /** What a run did: attempts really made, and resets. */
  datatype Entry = Failure(time: nat) | Success(time: nat) | WasReset

  /** `log` is the history; `gaveUp` is the peer being FAILED, after which it is not tried again. */
  datatype Run = Run(rc: Ctx, log: seq<Entry>, clock: nat, gaveUp: bool)

  function Step(r: Run, e: Event): Run {
    match e
    case ResetCall => if r.gaveUp then r else r.(rc := Reset(r.rc), log := r.log + [WasReset])
    case Call(now, ok) =>
      if r.gaveUp || now < r.clock then r else
      var (rc, verdict) := Try(r.rc, now, ok);
      match verdict
      case TooEarly => r.(clock := now)
      case Reconnected => Run(rc, r.log + [Success(now)], now, false)
      case WillRetry => Run(rc, r.log + [Failure(now)], now, false)
      case GaveUp => Run(rc, r.log + [Failure(now)], now, true)
  }

  const START := Run(FRESH, [], 0, false)

  function Exec(r: Run, events: seq<Event>): Run
    decreases |events|
  {
    if events == [] then r else Exec(Step(r, events[0]), events[1..])
  }

  /** The number of failures since the last success or reset. */
  function Streak(log: seq<Entry>): nat {
    if log != [] && log[|log| - 1].Failure? then 1 + Streak(log[..|log| - 1]) else 0
  }

  function Pow2(k: nat): nat { if k == 0 then 1 else 2 * Pow2(k - 1) }

  /** The documented delay after k failures in a row: 100 ms doubled k times, at most 30 s. */
  function Delay(k: nat): nat { if 100 * Pow2(k) < 30000 then 100 * Pow2(k) else 30000 }

  /** Each attempt waits for the delay that the failures before it called for. */
  ghost predicate Spaced(log: seq<Entry>) {
    forall i :: 0 < i < |log| && !log[i].WasReset? && log[i - 1].Failure? ==>
      log[i].time >= log[i - 1].time + Delay(Streak(log[..i]))
  }

  ghost predicate Inv(r: Run) {
    && r.rc.attemptCount == Streak(r.log) <= MAX_ATTEMPTS
    && (r.gaveUp <==> Streak(r.log) == MAX_ATTEMPTS)
    && (!r.gaveUp ==> r.rc.backoff == Delay(Streak(r.log)))
    && (r.log != [] && r.log[|r.log| - 1].Failure? ==>
          && r.log[|r.log| - 1].time == r.rc.lastAttempt <= r.clock
          && (!r.gaveUp ==> r.rc.nextAttempt == r.rc.lastAttempt + r.rc.backoff))
    && Spaced(r.log)
  }

  lemma {:induction false} DelayDoubles(k: nat)
    ensures Delay(k + 1) == if Delay(k) * 2 > MAX_BACKOFF then MAX_BACKOFF else Delay(k) * 2
  {
    assert Pow2(k + 1) == 2 * Pow2(k);
  }

  /** What one more entry does to the streak. */
  lemma StreakGrows(log: seq<Entry>, e: Entry)
    ensures Streak(log + [e]) == if e.Failure? then 1 + Streak(log) else 0
  {
    assert (log + [e])[..|log|] == log;
  }

  /** An entry may follow the log when it waited for the delay the last failure called for. */
  ghost predicate MayFollow(log: seq<Entry>, e: Entry) {
    log != [] && !e.WasReset? && log[|log| - 1].Failure? ==> e.time >= log[|log| - 1].time + Delay(Streak(log))
  }

  lemma LogGrows(log: seq<Entry>, e: Entry)
    ensures Streak(log + [e]) == if e.Failure? then 1 + Streak(log) else 0
    ensures Spaced(log) && MayFollow(log, e) ==> Spaced(log + [e])
  {
    hide Delay, Streak;
    StreakGrows(log, e);
    var longer := log + [e];
    if Spaced(log) && MayFollow(log, e) {
      forall i | 0 < i < |longer| && !longer[i].WasReset? && longer[i - 1].Failure?
        ensures longer[i].time >= longer[i - 1].time + Delay(Streak(longer[..i]))
      {
        assert longer[..i] == log[..i];
        assert i == |log| ==> log[..i] == log;
      }
    }
  }

  lemma StepKeeps(r: Run, e: Event)
    requires Inv(r)
    ensures Inv(Step(r, e))
  {
    hide Delay, Streak, Spaced;
    DelayDoubles(Streak(r.log));
    DelayStarts();
    match e
    case ResetCall => LogGrows(r.log, WasReset);
    case Call(now, _) => LogGrows(r.log, Failure(now)); LogGrows(r.log, Success(now));
  }

  lemma {:induction false} PowerGrows(k: nat)
    ensures k >= 9 ==> Pow2(k) >= 512
  {
    if k > 9 { PowerGrows(k - 1); }
  }

  /** From nine failures on the delay stays at its maximum. */
  lemma DelaySaturates(k: nat)
    ensures k >= 9 ==> Delay(k) == MAX_BACKOFF
  {
    PowerGrows(k);
  }

  lemma DelayStarts()
    ensures Delay(0) == INITIAL_BACKOFF
  {
  }

  lemma {:induction false} ExecKeeps(r: Run, events: seq<Event>)
    requires Inv(r)
    ensures Inv(Exec(r, events))
    decreases |events|
  {
    if events != [] {
      StepKeeps(r, events[0]);
      ExecKeeps(Step(r, events[0]), events[1..]);
    }
  }

  /** Over every run: attempts are spaced by the doubling delay, and giving up is the tenth failure in a row. */
  lemma BackoffHolds(events: seq<Event>)
    ensures var r := Exec(START, events);
            && Spaced(r.log)
            && (r.gaveUp <==> Streak(r.log) == 10)
            && (!r.gaveUp && Streak(r.log) > 0 ==>
                  r.rc.nextAttempt == r.log[|r.log| - 1].time + Delay(Streak(r.log)))
  {
    assert Streak([]) == 0;
    ExecKeeps(START, events);
  }

  /** The delays after the first m failures, added up. */
  function Total(m: nat): nat { if m == 0 then 0 else Total(m - 1) + Delay(m) }

  lemma SpacedPrefix(log: seq<Entry>)
    requires Spaced(log) && log != []
    ensures Spaced(log[..|log| - 1])
  {
    hide Delay, Streak;
    var shorter := log[..|log| - 1];
    assert forall i :: 0 < i < |shorter| ==> shorter[..i] == log[..i];
  }

  /** The m-th next failure of a streak comes at least the accumulated delays later. */
  lemma {:induction false} StreakLasts(log: seq<Entry>, m: nat)
    requires Spaced(log) && m < Streak(log)
    ensures Streak(log) <= |log| && log[|log| - Streak(log)].Failure? && log[|log| - Streak(log) + m].Failure?
    ensures log[|log| - Streak(log) + m].time >= log[|log| - Streak(log)].time + Total(m)
    decreases |log|
  {
    hide Delay;
    var shorter := log[..|log| - 1];
    if Streak(log) > 1 {
      SpacedPrefix(log);
      StreakLasts(shorter, if m + 1 < Streak(log) then m else m - 1);
    }
  }

  /** A peer never fails earlier than 81 seconds after the first attempt of the streak. */
  lemma NeverFailsEarly(events: seq<Event>)
    ensures var r := Exec(START, events);
            r.gaveUp ==> |r.log| >= 10 && r.log[|r.log| - 10].Failure? && r.log[|r.log| - 1].Failure?
                         && r.log[|r.log| - 1].time >= r.log[|r.log| - 10].time + 81000
  {
    BackoffHolds(events);
    var r := Exec(START, events);
    if r.gaveUp {
      StreakLasts(r.log, 9);
      assert Total(9) == 81000;
    }
  }
}
