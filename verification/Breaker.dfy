/**
 The circuit breaker: admission, the probe slot, and the sliding window kept as a deque whose
 stale entries are evicted from the front only.
 */
module Breaker {
  import opened Prelude

  datatype Phase = Closed | Open | HalfOpen

  datatype Outcome = Outcome(at: nat, ok: bool)

  datatype Config = Config(failureRatio: real, minVolume: nat, window: nat, openDuration: nat)

  datatype Breaker = Breaker(phase: Phase, openedAt: Option<nat>, events: seq<Outcome>, probes: nat)

  datatype Admission = Rejected | Admitted(owner: bool)

  const FRESH := Breaker(Closed, None, [], 0)

  /** Claims the probe slot if it is free. */
  function ClaimProbe(b: Breaker): (Breaker, Admission) {
    if b.probes == 0 then (b.(probes := 1), Admitted(true)) else (b, Rejected)
  }

  function Elapsed(since: Option<nat>, now: nat): nat {
    match since
    case None => 0
    case Some(t) => if now >= t then now - t else 0
  }

  function Admit(cfg: Config, b: Breaker, now: nat): (Breaker, Admission) {
    match b.phase
    case Closed => (b, Admitted(false))
    case Open =>
      if Elapsed(b.openedAt, now) >= cfg.openDuration then ClaimProbe(b.(phase := HalfOpen)) else (b, Rejected)
    case HalfOpen => ClaimProbe(b)
  }

  /** The subtraction falls back to `now` when the clock has not run for a whole window yet. */
  function Cutoff(now: nat, window: nat): nat {
    if now >= window then now - window else now
  }

  function DropStale(events: seq<Outcome>, cutoff: nat): seq<Outcome> {
    if events != [] && events[0].at < cutoff then DropStale(events[1..], cutoff) else events
  }

  function Failures(events: seq<Outcome>): nat {
    if events == [] then 0 else (if events[0].ok then 0 else 1) + Failures(events[1..])
  }

  predicate Failed(e: Outcome) {
    !e.ok
  }

  /** The count of failures is the number of positions that hold one, so it adds up over any cut. */
  lemma {:induction false} FailuresAreCounted(events: seq<Outcome>)
    ensures Failures(events) == Count(events, Failed)
  {
    CountHead(events, Failed);
    if events == [] {
    } else {
      FailuresAreCounted(events[1..]);
      hide Count;
    }
  }

  predicate Trips(cfg: Config, events: seq<Outcome>) {
    |events| >= cfg.minVolume && |events| > 0 && Failures(events) as real / |events| as real >= cfg.failureRatio
  }

  function Record(cfg: Config, b: Breaker, now: nat, ok: bool): Breaker {
    match b.phase
    case HalfOpen =>
      if ok then b.(phase := Closed, openedAt := None, events := []) else b.(phase := Open, openedAt := Some(now))
    case Open => b
    case Closed =>
      var events := DropStale(b.events + [Outcome(now, ok)], Cutoff(now, cfg.window));
      if Trips(cfg, events) then b.(events := events, phase := Open, openedAt := Some(now)) else b.(events := events)
  }

  /** The outcome just recorded is never evicted, so the ratio is always defined. */
  lemma {:induction false} NewestSurvives(events: seq<Outcome>, newest: Outcome, cutoff: nat)
    requires newest.at >= cutoff
    ensures DropStale(events + [newest], cutoff) != []
    ensures DropStale(events + [newest], cutoff)[|DropStale(events + [newest], cutoff)| - 1] == newest
  {
    if events != [] && events[0].at < cutoff {
      assert (events + [newest])[1..] == events[1..] + [newest];
      NewestSurvives(events[1..], newest, cutoff);
    }
  }

  class CircuitBreaker {
    const cfg: Config
    var phase: Phase
    var openedAt: Option<nat>
    var events: seq<Outcome>
    var probesInFlight: nat

    ghost function Value(): Breaker
      reads this
    {
      Breaker(phase, openedAt, events, probesInFlight)
    }

    constructor (cfg: Config)
      ensures Value() == FRESH && this.cfg == cfg
    {
      this.cfg := cfg;
      phase, openedAt, events, probesInFlight := Closed, None, [], 0;
    }

    /** The admission block of `run`. */
    method TryAdmit(now: nat) returns (allowed: bool, probeOwner: bool)
      modifies this
      ensures var (b, admission) := Admit(cfg, old(Value()), now);
        Value() == b && allowed == admission.Admitted? && (allowed ==> probeOwner == admission.owner)
      ensures probeOwner ==> allowed && old(probesInFlight) == 0
    {
      probeOwner := false;
      match phase
      case Closed => allowed := true;
      case Open =>
        allowed := false;
        if Elapsed(openedAt, now) >= cfg.openDuration {
          phase := HalfOpen;
          if probesInFlight == 0 { probesInFlight, probeOwner, allowed := 1, true, true; }
        }
      case HalfOpen =>
        allowed := false;
        if probesInFlight == 0 { probesInFlight, probeOwner, allowed := 1, true, true; }
    }

    method ReleaseProbe()
      modifies this
      ensures Value() == old(Value()).(probes := 0)
    {
      probesInFlight := 0;
    }

    method RecordOutcome(now: nat, success: bool)
      modifies this
      ensures Value() == Record(cfg, old(Value()), now, success)
    {
      match phase
      case HalfOpen =>
        if success {
          phase, openedAt, events := Closed, None, [];
        } else {
          phase, openedAt := Open, Some(now);
        }
        return;
      case Open => return;
      case Closed =>
        events := events + [Outcome(now, success)];
        var cutoff := Cutoff(now, cfg.window);
        ghost var target := DropStale(events, cutoff);
        NewestSurvives(old(events), Outcome(now, success), cutoff);
        while |events| > 0 && events[0].at < cutoff
          invariant DropStale(events, cutoff) == target
          invariant phase == Closed && openedAt == old(openedAt) && probesInFlight == old(probesInFlight)
        {
          events := events[1..];
        }
        var total := |events|;
        if total >= cfg.minVolume {
          var failures := 0;
          for i := 0 to total
            invariant failures + Failures(events[i..]) == Failures(events)
          {
            assert events[i..][1..] == events[i + 1..];
            if !events[i].ok { failures := failures + 1; }
          }
          if failures as real / total as real >= cfg.failureRatio {
            phase, openedAt := Open, Some(now);
          }
        }
    }
  }

  // ----- the deque against the plain history -----

  /** The outcomes no older than `cutoff`. */
  function Within(history: seq<Outcome>, cutoff: int): seq<Outcome> {
    if history == [] then []
    else if history[0].at >= cutoff then [history[0]] + Within(history[1..], cutoff)
    else Within(history[1..], cutoff)
  }

  ghost predicate InOrder(history: seq<Outcome>) {
    forall i, j | 0 <= i < j < |history| :: history[i].at <= history[j].at
  }

  lemma {:induction false} AllWithin(history: seq<Outcome>, cutoff: int)
    ensures Within(history, cutoff) == history <==> forall e <- history :: e.at >= cutoff
    ensures |Within(history, cutoff)| <= |history|
  {
    if history == [] {
    } else {
      AllWithin(history[1..], cutoff);
      assert history == [history[0]] + history[1..];
    }
  }

  /** No stale entry sits behind a fresh one. */
  ghost predicate StaleFirst(events: seq<Outcome>, cutoff: int) {
    forall i, j | 0 <= i < j < |events| && events[j].at < cutoff :: events[i].at < cutoff
  }

  lemma {:induction false} StaleFirstTail(events: seq<Outcome>, cutoff: int)
    requires events != []
    ensures events[0].at < cutoff ==> (StaleFirst(events, cutoff) <==> StaleFirst(events[1..], cutoff))
    ensures events[0].at >= cutoff ==> (StaleFirst(events, cutoff) <==> forall e <- events :: e.at >= cutoff)
  {
    var rest := events[1..];
    assert forall i | 0 < i < |events| :: events[i] == rest[i - 1];
    if events[0].at < cutoff {
      if !StaleFirst(rest, cutoff) {
        var i, j :| 0 <= i < j < |rest| && rest[j].at < cutoff && rest[i].at >= cutoff;
        assert events[j + 1].at < cutoff && events[i + 1].at >= cutoff;
      }
    } else if e :| e in events && e.at < cutoff {
      var j :| 0 <= j < |events| && events[j] == e;
      assert 0 < j && events[0].at >= cutoff;
    }
  }

  /** Evicting from the front finds exactly the window if and only if no stale entry sits behind a fresh one. */
  lemma {:induction false} FrontEvictionIsExact(events: seq<Outcome>, cutoff: nat)
    ensures DropStale(events, cutoff) == Within(events, cutoff) <==> StaleFirst(events, cutoff)
  {
    if events == [] {
    } else {
      StaleFirstTail(events, cutoff);
      if events[0].at < cutoff {
        FrontEvictionIsExact(events[1..], cutoff);
      } else {
        AllWithin(events, cutoff);
      }
      hide StaleFirst;
    }
  }

  lemma {:induction false} WithinAppend(history: seq<Outcome>, e: Outcome, cutoff: int)
    ensures Within(history + [e], cutoff) == Within(history, cutoff) + if e.at >= cutoff then [e] else []
  {
    if history == [] {
      assert history + [e] == [e];
    } else {
      assert (history + [e])[1..] == history[1..] + [e];
      WithinAppend(history[1..], e, cutoff);
    }
  }

  lemma {:induction false} WithinTwice(history: seq<Outcome>, c: int, d: int)
    requires c <= d
    ensures Within(Within(history, c), d) == Within(history, d)
  {
    if history == [] {
    } else {
      WithinTwice(history[1..], c, d);
      var rest := Within(history[1..], c);
      if history[0].at >= c { assert ([history[0]] + rest)[1..] == rest; }
    }
  }

  lemma {:induction false} WithinInOrder(history: seq<Outcome>, cutoff: int)
    requires InOrder(history)
    ensures InOrder(Within(history, cutoff))
    ensures forall e <- Within(history, cutoff) :: e in history
  {
    if history == [] {
    } else {
      WithinInOrder(history[1..], cutoff);
      var rest := Within(history[1..], cutoff);
      forall e <- rest ensures e in history && history[0].at <= e.at {
        var i :| 0 <= i < |history[1..]| && history[1..][i] == e;
        assert history[i + 1] == e;
      }
    }
  }

  /** The cutoff of the latest outcome of a period. */
  function LastCutoff(period: seq<Outcome>, window: nat): int
    requires period != []
  {
    period[|period| - 1].at - window
  }

  /** The deque holds the outcomes of the current Closed period that its latest outcome's window covers. */
  ghost predicate DequeIsWindow(cfg: Config, events: seq<Outcome>, period: seq<Outcome>) {
    && InOrder(period)
    && events == if period == [] then [] else Within(period, LastCutoff(period, cfg.window))
  }

  /** The deque is exact, and the next reading comes in lock order from a clock that has run for a whole window. */
  ghost predicate InLockOrder(cfg: Config, events: seq<Outcome>, period: seq<Outcome>, now: nat) {
    && DequeIsWindow(cfg, events, period)
    && (period != [] ==> period[|period| - 1].at <= now)
    && cfg.window <= now
  }

  lemma {:induction false} DequeInOrder(cfg: Config, events: seq<Outcome>, period: seq<Outcome>, now: nat)
    requires InLockOrder(cfg, events, period, now)
    ensures InOrder(events) && forall e <- events :: e.at <= now
  {
    if period != [] {
      WithinInOrder(period, LastCutoff(period, cfg.window));
      forall e <- events ensures e.at <= now {
        var i :| 0 <= i < |period| && period[i] == e;
      }
    }
  }

  /** Evicting after one more in-order outcome leaves the window of the extended history. */
  lemma {:induction false} EvictionGivesWindow(cfg: Config, events: seq<Outcome>, period: seq<Outcome>, e: Outcome)
    requires InLockOrder(cfg, events, period, e.at)
    ensures DropStale(events + [e], e.at - cfg.window) == Within(period + [e], e.at - cfg.window)
  {
    var cutoff := e.at - cfg.window;
    DequeInOrder(cfg, events, period, e.at);
    WithinAppend(events, e, cutoff);
    WithinAppend(period, e, cutoff);
    if period != [] { WithinTwice(period, LastCutoff(period, cfg.window), cutoff); }
    var all := events + [e];
    forall i, j | 0 <= i < j < |all| && all[j].at < cutoff ensures all[i].at < cutoff {
      assert all[i] == events[i] && all[j] == events[j];
    }
    FrontEvictionIsExact(all, cutoff);
  }

  /**
   While the clock has not run for a whole window, every earlier outcome lies within the window, yet a
   recording keeps all of them exactly when they carry the same reading.
   */
  lemma {:induction false} EarlyRecordForgets(cfg: Config, b: Breaker, now: nat, ok: bool)
    requires b.phase == Closed && now < cfg.window && InOrder(b.events) && forall e <- b.events :: e.at <= now
    ensures Within(b.events, now - cfg.window) == b.events
    ensures Record(cfg, b, now, ok).events == b.events + [Outcome(now, ok)] <==> forall e <- b.events :: e.at == now
  {
    AllWithin(b.events, now - cfg.window);
    RecordWhileClosed(cfg, b, now, ok);
    KeepsAllIff(b.events, now, ok);
    hide DropStale, Within, Record, Trips, InOrder;
  }

  lemma {:induction false} KeepsAllIff(events: seq<Outcome>, now: nat, ok: bool)
    requires InOrder(events) && forall e <- events :: e.at <= now
    ensures var all := events + [Outcome(now, ok)];
      DropStale(all, now) == all <==> forall e <- events :: e.at == now
  {
    var all := events + [Outcome(now, ok)];
    DropsNothingIff(all, now);
    if events == [] {
    } else {
      hide DropStale;
      assert all[0] == events[0] && events[0] in events;
      if events[0].at == now {
        forall e <- events ensures e.at == now {
          var i :| 0 <= i < |events| && events[i] == e;
          assert events[0].at <= events[i].at;
        }
      }
    }
  }

  lemma {:induction false} DropsNothingIff(events: seq<Outcome>, cutoff: nat)
    ensures DropStale(events, cutoff) == events <==> events == [] || events[0].at >= cutoff
  {
    if events != [] && events[0].at < cutoff { DropsSome(events[1..], cutoff); }
  }

  lemma {:induction false} DropsSome(events: seq<Outcome>, cutoff: nat)
    ensures |DropStale(events, cutoff)| <= |events|
  {
    if events == [] {
    } else {
      DropsSome(events[1..], cutoff);
    }
  }

  /** One more outcome, read from a clock in lock order that has run for a whole window. */
  lemma {:induction false} RecordKeepsWindow(cfg: Config, b: Breaker, period: seq<Outcome>, now: nat, ok: bool)
    requires b.phase == Closed && InLockOrder(cfg, b.events, period, now)
    ensures DequeIsWindow(cfg, Record(cfg, b, now, ok).events, period + [Outcome(now, ok)])
  {
    var e := Outcome(now, ok);
    EvictionGivesWindow(cfg, b.events, period, e);
    RecordWhileClosed(cfg, b, now, ok);
    AppendInOrder(period, e);
    var events := Record(cfg, b, now, ok).events;
    hide Record, DropStale, Within, Trips, InOrder;
    assert LastCutoff(period + [e], cfg.window) == now - cfg.window;
  }

  /** The breaker trips exactly when the window of the plain history reaches the volume and the failure share. */
  lemma {:induction false} TripIsExact(cfg: Config, b: Breaker, period: seq<Outcome>, now: nat, ok: bool)
    requires b.phase == Closed && InLockOrder(cfg, b.events, period, now)
    ensures Record(cfg, b, now, ok).phase == Open <==>
      Trips(cfg, Within(period + [Outcome(now, ok)], now - cfg.window))
  {
    var e := Outcome(now, ok);
    assert Cutoff(now, cfg.window) == e.at - cfg.window;
    hide *;
    EvictionGivesWindow(cfg, b.events, period, e);
    RecordWhileClosed(cfg, b, now, ok);
  }

  /** The documented rule: the failure share exceeds the threshold over at least the minimum volume. */
  predicate Exceeds(cfg: Config, events: seq<Outcome>) {
    |events| >= cfg.minVolume && |events| > 0 && Failures(events) as real / |events| as real > cfg.failureRatio
  }

  /** The failure share equals the threshold over at least the minimum volume. */
  predicate AtThreshold(cfg: Config, events: seq<Outcome>) {
    |events| >= cfg.minVolume && |events| > 0 && Failures(events) as real / |events| as real == cfg.failureRatio
  }

  /**
   A recording while Closed opens the breaker just when the documented rule says so, unless the share
   equals the threshold.
   */
  lemma {:induction false} TripsAsDocumentedIff(cfg: Config, b: Breaker, period: seq<Outcome>, now: nat, ok: bool)
    requires b.phase == Closed && InLockOrder(cfg, b.events, period, now)
    ensures var w := Within(period + [Outcome(now, ok)], now - cfg.window);
      (Record(cfg, b, now, ok).phase == Open <==> Exceeds(cfg, w)) <==> !AtThreshold(cfg, w)
  {
    TripIsExact(cfg, b, period, now, ok);
    hide Record, Within, InLockOrder, Failures;
  }

  /**
   One failure at volume one and threshold one opens a new breaker, though its share does not exceed
   the threshold.
   */
  lemma {:induction false} EqualShareTrips(cfg: Config, now: nat)
    requires cfg.failureRatio == 1.0 && cfg.minVolume <= 1
    ensures Record(cfg, FRESH, now, false).phase == Open
    ensures var w := Within([Outcome(now, false)], now - cfg.window); AtThreshold(cfg, w) && !Exceeds(cfg, w)
  {
    var one := [Outcome(now, false)];
    assert [] + one == one && Within(one[1..], now - cfg.window) == [];
    assert Within(one, now - cfg.window) == one && DropStale(one, Cutoff(now, cfg.window)) == one;
    assert Failures(one[1..]) == 0 && Failures(one) == 1;
  }

  lemma {:induction false} RecordWhileClosed(cfg: Config, b: Breaker, now: nat, ok: bool)
    requires b.phase == Closed
    ensures var events := DropStale(b.events + [Outcome(now, ok)], Cutoff(now, cfg.window));
      Record(cfg, b, now, ok).events == events && (Record(cfg, b, now, ok).phase == Open <==> Trips(cfg, events))
  {
    hide Trips, DropStale;
  }

  lemma {:induction false} AppendInOrder(period: seq<Outcome>, e: Outcome)
    requires InOrder(period) && (period != [] ==> period[|period| - 1].at <= e.at)
    ensures InOrder(period + [e])
  {
    forall i | 0 <= i < |period| ensures period[i].at <= e.at {
      assert period[i].at <= period[|period| - 1].at;
    }
  }

  /**
   With readings out of lock order an outcome outlives its window: one recorded late behind a
   fresher one stays for as long as the fresher one is in the window.
   */
  lemma {:induction false} OutOfOrderKeepsStale(cfg: Config, first: nat, late: nat, now: nat)
    requires cfg.failureRatio > 0.0 && cfg.window <= now && late < now - cfg.window <= first
    ensures var b := Record(cfg, Record(cfg, Record(cfg, FRESH, first, true), late, true), now, true);
      && Outcome(late, true) in b.events && late < Cutoff(now, cfg.window)
      && !StaleFirst([Outcome(first, true), Outcome(late, true), Outcome(now, true)], Cutoff(now, cfg.window))
  {
    var e1, e2, e3 := Outcome(first, true), Outcome(late, true), Outcome(now, true);
    SuccessStays(cfg, FRESH, first, []);
    var b1 := Record(cfg, FRESH, first, true);
    assert [] + [e1] == [e1];
    SuccessStays(cfg, b1, late, [e1]);
    var b2 := Record(cfg, b1, late, true);
    assert [e1] + [e2] == [e1, e2];
    SuccessStays(cfg, b2, now, [e1, e2]);
    assert [e1, e2] + [e3] == [e1, e2, e3];
    var all := [e1, e2, e3];
    hide Record, Cutoff;
    assert all[1].at < now - cfg.window && all[0].at >= now - cfg.window;
  }

  /** A success behind a fresh front entry evicts nothing and does not trip. */
  lemma {:induction false} SuccessStays(cfg: Config, b: Breaker, now: nat, events: seq<Outcome>)
    requires cfg.failureRatio > 0.0 && b.phase == Closed && b.events == events && (forall e <- events :: e.ok)
    requires events != [] ==> events[0].at >= Cutoff(now, cfg.window)
    ensures Record(cfg, b, now, true).phase == Closed
    ensures Record(cfg, b, now, true).events == events + [Outcome(now, true)]
  {
    var all := events + [Outcome(now, true)];
    assert DropStale(all, Cutoff(now, cfg.window)) == all;
    NoFailures(all);
    ShareOfNone(|all|);
    hide DropStale, Failures, Cutoff;
  }

  lemma {:induction false} NoFailures(events: seq<Outcome>)
    requires forall e <- events :: e.ok
    ensures Failures(events) == 0
  {
    if events == [] {
    } else {
      assert events[0] in events;
      assert forall e <- events[1..] :: e in events;
      NoFailures(events[1..]);
    }
  }

  lemma {:induction false} ShareOfNone(n: nat)
    requires n > 0
    ensures 0 as real / n as real == 0.0
  {
  }
}
